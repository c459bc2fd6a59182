# HRMS employee portal — a verified model of its page logic

The HRMS repository has two parts. One is a Next.js employee portal: a dashboard, leave requests, an onboarding checklist, a messages inbox, parking, payslips, recruitment, settings, a calendar, attendance cards, a chat widget and a landing page. The other is a small FastAPI backend with user signup and login and a keyword-routed HR chat endpoint.

The portal has no single engine. Its logic lives in many small, pure pieces inside React components. This project models each of them as a pure Dafny function:
- a state update is modelled as old state → new state;
- a validator becomes a predicate or an ordered check chain;
- a formatter becomes a string function.

Lemmas relate each operation to a partner, such as an inverse, an invariant it keeps, or a reference definition.

Shared building blocks:
- `Wrappers` defines `Option`.
- `Seqs` provides `Array.prototype.filter` and `find`/`findIndex`, each with its contract.
- `Text` provides whitespace, `trim`, ASCII `toLowerCase`, `includes`, `split('@')[0]`, `replace` with a one-character pattern, `replace(/\s+/g, c)` and `padStart`.
- `Numerals` provides integer `toString` and a reading of `Number(s)` on integer text, with round trips between them.
- `EmailPatterns` provides the two e-mail regular expressions. The anchored one is `^[^\s@]+@[^\s@]+\.[^\s@]+$` and the unanchored one is `\S+@\S+\.\S+`. Each is given as a decision procedure, proved equal to its language definition.
- `Identity` provides the username fallbacks and the derived `@company.com` address.

Environment inputs become parameters:
- the clock (`now`, hours/minutes/seconds, the weekday name);
- network responses (the leave API result, the chat reply);
- router navigation (returned as a value);
- the backend's password hash function.

## Model

| member | source | states |
|---|---|---|
| Leave.Validate | pages/Leaveemployee.tsx:56-69 | Each field error appears exactly when its rule fails. The leave type is required. Both dates are required. The end date is refused only when it falls before a present start date. The trimmed reason needs 10 characters, and a short or blank reason gets the length message, since `min` is declared before `required`. The form is error-free iff every rule holds |
| Leave.CalculateLeaveDays | pages/Leaveemployee.tsx:71-75 | 0 when either date is missing. Otherwise, `days` is the inclusive count: `(days-1)` whole days fit in `to-from`, and `days` do not. The page defines this count but never calls it |
| Leave.WholeDaySpan | pages/Leaveemployee.tsx:71-75 | A span of exactly n whole days counts n+1 days, both ends included |
| Leave.ValidFormCountsADay | pages/Leaveemployee.tsx:56-75 | A form the schema accepts always counts at least one day, although the page never shows the count |
| Leave.OnSubmit | pages/Leaveemployee.tsx:98-147 | No-op when a date is missing. On an accepted response, exactly one Pending record is prepended. Its type and dates come from the form, and its id and application date are both `now`. The older records are unchanged and the form is reset. On a refused or failed request, the history is unchanged and the error notice is raised |
| Leave.Submit | pages/Leaveemployee.tsx:56-69 | The schema runs first. An invalid form changes nothing. The history changes only for a valid form and an accepted response |
| Leave.SubmitKeepsHistory | pages/Leaveemployee.tsx:119-128 | Submitting keeps every record pending with from ≤ to, and keeps the old history as a suffix. It adds at most one record |
| Leave.Insert | pages/Leaveemployee.tsx:151-153 | Inserting into a newest-first list keeps it newest-first and adds exactly that record, as a multiset |
| Leave.SortNewestFirst | pages/Leaveemployee.tsx:153 | The result is ordered by `appliedOn`, newest first, and is a permutation of the input |
| Leave.FilteredHistory | pages/Leaveemployee.tsx:149-153 | Exactly the records whose type contains the term, ignoring case, newest first, as a permutation of that filter |
| Leave.EmptySearchShowsAll | pages/Leaveemployee.tsx:149-153 | An empty search shows the whole history |
| Checklist.ToggleComplete | pages/Checklistemp.tsx:40-46 | Only the items with that id flip `completed`. Length, order and all other fields are kept |
| Checklist.ToggleTwice | pages/Checklistemp.tsx:40-46 | Toggling the same id twice restores the list |
| Checklist.SetEditing | pages/Checklistemp.tsx:48-58 | `startEditing`/`cancelEditing`: only the `editing` flag of items with that id is set or cleared. Length, order, ids, labels and completion are kept |
| Checklist.CancelUndoesStart | pages/Checklistemp.tsx:48-58 | On a list with nothing in edit, cancel after start restores it |
| Checklist.SaveLabel | pages/Checklistemp.tsx:60-67 | A blank label is a no-op. Otherwise the matching items get the label and leave editing; other items are unchanged |
| Checklist.DeleteTask | pages/Checklistemp.tsx:69-71 | Exactly the items with that id are removed; the rest stay in order |
| Checklist.NextId | pages/Checklistemp.tsx:75 | The new id is the largest existing id plus one: it exceeds every id, and one less is some item's id. It is 1 for an empty list |
| Checklist.AddTask | pages/Checklistemp.tsx:73-81 | Blank input is a no-op. Otherwise one trimmed, incomplete item is appended after the others. Its id is NextId (the largest id plus one, 1 for an empty list), so no existing item has it. The input is cleared |
| Checklist.AddTaskKeepsIdsDistinct | pages/Checklistemp.tsx:73-81 | Adding keeps the ids distinct |
| Checklist.CompletedCountBounds | pages/Checklistemp.tsx:83-86 | The count is at most the length. It equals the length iff all items are done, and is 0 iff none is |
| Checklist.MarkAllComplete | pages/Checklistemp.tsx:89-91 | Afterwards the count equals the length; ids and labels are kept |
| Checklist.ResetAll | pages/Checklistemp.tsx:93-95 | Afterwards the count is 0; ids and labels are kept |
| Checklist.InitialIdsDistinct | pages/Checklistemp.tsx:26-32 | The starting items have distinct ids |
| Messages.Send | pages/Messagesemp.tsx:72-89 | A blank recipient or content is a no-op. Otherwise one message is prepended: id = length+1, the sender is the employee, recipient and content are trimmed, and the status is read. Both inputs are cleared |
| Messages.InitialIds | pages/Messagesemp.tsx:34-53 | The starting messages carry ids 1..n |
| Messages.SendKeepsIds | pages/Messagesemp.tsx:77 | Sending keeps ids exactly 1..n, so a new id never repeats one |
| Messages.MarkAsRead | pages/Messagesemp.tsx:91-97 | Only an unread message with that id changes, and only to read |
| Messages.MarkAsReadIdempotent | pages/Messagesemp.tsx:91-97 | Marking twice is the same as marking once |
| Messages.MarkAsReadKeepsIds | pages/Messagesemp.tsx:91-97 | Marking a message read keeps the ids exactly 1..n |
| Messages.EmployeeMessages | pages/Messagesemp.tsx:99-105 | A message is shown iff the employee sent or received it and the term occurs, ignoring case, in sender, recipient or content. List order is kept |
| Messages.EmptySearchShowsOwn | pages/Messagesemp.tsx:99-105 | An empty search shows every message the employee took part in |
| Messages.UnreadCount | pages/Messagesemp.tsx:107-109 | The unread count never exceeds the number of visible messages |
| Messages.UnreadCountZero | pages/Messagesemp.tsx:107-109 | The count is 0 iff no visible message is unread and addressed to the employee |
| Messages.RecipientOptions | pages/Messagesemp.tsx:182-183 | The employee is never offered as a recipient; every other user is |
| Parking.ToggleOccupancy | pages/Parkingemp.tsx:41-59 | Slots with the id flip between free and "You", except reserved ones, which are returned as is and raise the alert. Other slots, length and order are unchanged |
| Parking.Flip | pages/Parkingemp.tsx:50-54 | A regular slot flips `occupied`, naming "You" only when it becomes occupied; id and number are kept; a reserved slot is left as is |
| Parking.ToggleKeepsConsistent | pages/Parkingemp.tsx:50-54 | A slot keeps naming an occupant exactly when it is occupied |
| Parking.FreeSlotToggledTwice | pages/Parkingemp.tsx:52-53 | A free regular slot toggled twice is restored exactly |
| Parking.ReservedSlotUnchanged | pages/Parkingemp.tsx:45-48 | A reserved slot is never changed |
| Parking.Click | pages/Parkingemp.tsx:84 | A click on a reserved tile does nothing |
| Parking.PanelsPartition | pages/Parkingemp.tsx:61-62 | Each slot is in exactly one of the two panels, and the sizes add up |
| Parking.SlotBackground | pages/Parkingemp.tsx:64-72 | Reserved first, then occupied versus free |
| Parking.ToggleSwapsBackground | pages/Parkingemp.tsx:52-72 | A toggle swaps a regular tile between free and taken |
| Payslip.NetPayBalances | pages/Payslipemp.tsx:47-48 | Net pay plus deductions equals the four earnings components |
| Payslip.FindMonth | pages/Payslipemp.tsx:116-117 | The first index with that month, or -1 iff there is none |
| Payslip.SelectedPayslips | pages/Payslipemp.tsx:116-119 | An invalid range selects nothing. A valid one selects positions start..end inclusive in list order: end−start+1 slips, from the start month to the end month |
| Payslip.DownloadDisabledIffInvalid | pages/Payslipemp.tsx:118-170 | Download is disabled exactly when the range is invalid |
| Payslip.SingleMonth | pages/Payslipemp.tsx:116-119 | The same month at both ends selects that one slip |
| Payslip.DocumentTitle | pages/Payslipemp.tsx:127 | `Payslip_`, then the start month with its first space made `_`; `_to_` and the end month, treated the same way, follow exactly when the months differ |
| Payslip.DocumentTitleOfOneLabel | pages/Payslipemp.tsx:112-127 | When both ends are one "Name Year" month, as in the initial state, the title is `Payslip_Name_Year` |
| Payslip.DocumentTitleOfLabels | pages/Payslipemp.tsx:127 | For "Name Year" labels the title is `Payslip_Name_Year_to_Name_Year` |
| Recruit.Validate | pages/Recruitemp.tsx:58-68 | Phone, resume link and notes never fail; each reported field carries its own non-empty message |
| Recruit.ReportedIffFails | pages/Recruitemp.tsx:58-68 | A field is in the error map exactly when its rule fails |
| Recruit.FullNameRule | pages/Recruitemp.tsx:60 | The full name is reported iff it is blank |
| Recruit.EmailRule | pages/Recruitemp.tsx:42-62 | The email is reported iff it fails the anchored pattern; a blank email always fails |
| Recruit.PositionRule | pages/Recruitemp.tsx:63 | The position is reported iff it is blank |
| Recruit.ExperienceRule | pages/Recruitemp.tsx:64-65 | Experience is reported iff it is non-empty and numerically negative |
| Recruit.ExperienceOfWholeNumber | pages/Recruitemp.tsx:64-65 | A printed integer is reported iff it is negative; empty never is |
| Recruit.ValidIff | pages/Recruitemp.tsx:58-68 | No errors iff name and position are filled, the email is well formed and experience is not negative |
| Recruit.EmptyFormFails | pages/Recruitemp.tsx:22-68 | The initial, empty form reports name, email and position, but not experience |
| Recruit.HandleChange | pages/Recruitemp.tsx:51-56 | Only the named field changes, and only its error is blanked |
| Recruit.HandleSubmit | pages/Recruitemp.tsx:70-101 | With errors they are shown and the entries are kept. Without errors the entries are reset and the toast thanks the candidate by name |
| Recruit.SubmitResetsIffValid | pages/Recruitemp.tsx:74-99 | A filled form is reset iff it validates |
| EmailPatterns.ValidateEmail | pages/Recruitemp.tsx:42-43 | Accepts exactly the strings in the language of the anchored pattern |
| EmailPatterns.StrictShape | pages/Recruitemp.tsx:42-43 | An accepted address has no whitespace and exactly one `@` after a non-empty local part. Its domain has a dot with text on both sides |
| EmailPatterns.BlankFailsStrict | pages/Recruitemp.tsx:42-61 | A blank address never passes the anchored pattern |
| EmailPatterns.DemoEmailIffLooseMatch | pages/index.tsx:329 | The demo check accepts exactly the strings in which the unanchored pattern matches somewhere |
| EmailPatterns.StrictImpliesDemo | pages/index.tsx:329 | Every address the recruitment form accepts passes the demo check |
| EmailPatterns.DemoAcceptsSurroundingText | pages/index.tsx:329 | The converse fails: `x y@a.b` passes the demo check but not the recruitment one |
| Settings.HandlePasswordChange | pages/Settingsemp.tsx:64-93 | Ordered checks: any field empty, then new length < 6, then new ≠ confirm. The first failure sets the one error and keeps the fields; success sets the message and empties all three |
| Settings.PasswordAcceptedIff | pages/Settingsemp.tsx:68-83 | Success iff all fields are filled, the new password has at least 6 characters and matches the confirmation |
| Settings.OneMessage | pages/Settingsemp.tsx:65-83 | After an attempt exactly one of error and success is shown; a failure keeps the fields |
| Settings.CurrentOnlyNeedsContent | pages/Settingsemp.tsx:68 | The current password's content never changes the outcome, only its presence |
| Settings.PreviousMessagesIgnored | pages/Settingsemp.tsx:65-66 | Messages from the previous attempt never influence the next |
| Settings.DefaultName | pages/Settingsemp.tsx:42 | `employeeName` when non-empty, else the username |
| Settings.DefaultEmail | pages/Settingsemp.tsx:43-44 | `employeeEmail` when non-empty, else the derived company address. The page throws iff there is neither |
| Settings.InitialProfile | pages/Settingsemp.tsx:39-51 | Rendering throws only when there is no e-mail prop and no name. Otherwise the name may be undefined and the address is the default address. The role prop defaults only when missing; the avatar falls back to "" |
| Settings.EmailPropWithoutName | pages/Settingsemp.tsx:42-47 | An e-mail prop short-circuits the derivation, so the page renders even with an undefined name |
| Settings.SettingsAgreesWithProfile | pages/Settingsemp.tsx:42-44 | Without props, settings and the profile card derive the same name and address |
| Settings.EmptyQueryArrayThrows | pages/Settingsemp.tsx:39-44 | An empty `username` array without props makes the page throw |
| Profile.ProfileOf | pages/Profileemp.tsx:31-42 | A profile exists iff the username is non-empty. Its name is the username, its email the company address, its avatar "" and its role "Software Engineer" |
| Profile.ProfileShownForQuery | pages/Profileemp.tsx:24-41 | Every query except an empty array or an empty first element shows a profile with a company address |
| Profile.DefaultProfile | pages/Profileemp.tsx:24-38 | With no query the card is User, user@company.com |
| Identity.UsernameFromQuery | pages/Home.tsx:80-81 | The first array element (undefined for an empty array), else the value, else "User" |
| Identity.UsernameFromEmail | components/login/hook/useSignIn.ts:16 | The prefix before the first `@`, or the whole text without one |
| Identity.UsernameOfAddress | pages/index.tsx:128 | The username of `local@domain` is `local` |
| Identity.CompanyEmail | pages/Profileemp.tsx:35 | The derived address ends in `@company.com` and has no whitespace |
| Identity.CompanyEmailKeepsName | pages/Settingsemp.tsx:43-44 | The local part keeps every non-space, non-dot character of the lowercased name, in order |
| Identity.CompanyEmailOfPlainName | pages/Profileemp.tsx:35 | A name without whitespace is only lowercased |
| Identity.CompanyEmailJoinsWords | pages/Settingsemp.tsx:43-44 | Each maximal whitespace run between two parts of the name becomes exactly one `.`, and each side is lowercased and collapsed on its own |
| Text.CollapseBetween | pages/Profileemp.tsx:35 | `replace(/\s+/g, c)` turns a maximal whitespace run into one `c` and leaves the text on both sides to be collapsed separately |
| Text.CollapseBlank | pages/Profileemp.tsx:35 | A non-empty run of whitespace on its own becomes exactly one `c` |
| Calendar.FormatDate | pages/Calenderemp.tsx:40-44 | A real date's key is the year, then `-MM-DD` with the two separators in place |
| Calendar.DateRoundTrip | pages/Calenderemp.tsx:40-44 | Reading a key back gives the year, the 0-based month and the day |
| Calendar.FormatDateInjective | pages/Calenderemp.tsx:40-44 | Different dates get different keys |
| Calendar.MonthLength | pages/Calenderemp.tsx:37-38 | Gregorian month lengths, 28..31; February has 29 days iff the year is leap |
| Calendar.YearLength | pages/Calenderemp.tsx:37-38 | The months add up to 365, or 366 in a leap year |
| Calendar.DaysInMonth | pages/Calenderemp.tsx:37-38 | `new Date(y, m+1, 0).getDate()` is the length of month `m mod 12` of year `y + m div 12`, with years 0..99 read as 1900s |
| Calendar.DaysInMonthInRange | pages/Calenderemp.tsx:37-38 | For a month index 0..11 the count is that month's length in the full year |
| Calendar.TwoDigitYear | pages/Calenderemp.tsx:37-38 | February of year 0 has 28 days, because 0 is read as 1900 |
| Calendar.Grid | pages/Calenderemp.tsx:94-105 | `firstDayOfWeek` blanks, then days 1..length, each keyed by `formatDate` |
| Calendar.GridKeysDistinct | pages/Calenderemp.tsx:94-105 | No two day cells share a key |
| Calendar.DayKeysDistinct | pages/Calenderemp.tsx:40-44 | Two different days of one month get different keys |
| Calendar.PadNumber | pages/Calenderemp.tsx:40-44 | `padStart(2, '0')` of 0..99 is two digits whose value is the number |
| Calendar.LeaveOn | pages/Calenderemp.tsx:58-59 | The first leave on exactly that date, or none iff there is none |
| Calendar.HolidayOn | pages/Calenderemp.tsx:61-62 | The first holiday on exactly that date, or none iff there is none |
| Calendar.SummaryCount | pages/Calenderemp.tsx:173-178 | Holiday counts the holidays. Any other type counts exactly the leaves of that type, as the multiplicity of the type among the leave types |
| Calendar.CountOfType | pages/Calenderemp.tsx:178 | `leaves.filter(l => l.type === t).length` is how many times `t` occurs among the leave types |
| Calendar.SummaryAddsUp | pages/Calenderemp.tsx:173-178 | With known leave types, the four rows sum to leaves plus holidays |
| Backend.ReplyFor | HSR_backend_server/main.py:170-184 | Keyword priority on the lowercased text: leave, then salary/payslip, then benefits, then help, then the default |
| Backend.Chat | HSR_backend_server/main.py:160-190 | An empty list ends in a 500 (the 400 is re-raised); otherwise the reply to the last message |
| Backend.ReplyDependsOnlyOnLast | HSR_backend_server/main.py:170-173 | Earlier history and roles never change the reply |
| Backend.KeywordCaseIgnored | HSR_backend_server/main.py:173 | Upper and lower case route alike |
| Backend.LeaveDominates | HSR_backend_server/main.py:175-176 | Any text containing "leave" gets the leave reply |
| Backend.ReplyIsOneOfFive | HSR_backend_server/main.py:175-186 | A non-empty request always gets one of the five replies |
| Backend.Signup | HSR_backend_server/main.py:124-140 | A taken email is refused before a taken username (400). Otherwise exactly one row is appended, with a fresh id, the hashed password, role employee and active |
| Backend.SignupKeepsUnique | HSR_backend_server/main.py:124-140 | Emails, usernames and ids stay unique |
| Backend.Login | HSR_backend_server/main.py:142-147 | Success iff a row has the email and the password hashes to its stored hash; every failure is the same 401 |
| Backend.ByEmail | HSR_backend_server/main.py:144 | The first row with that email, or none iff no row has it |
| Backend.LoginFailuresAlike | HSR_backend_server/main.py:144-146 | An unknown email and a wrong password give identical responses |
| Backend.SignupThenLogin | HSR_backend_server/main.py:124-147 | A new user logs in with the same credentials and gets the signup response back |
| Backend.GetUser | HSR_backend_server/main.py:149-154 | 404 iff no row has the id; otherwise a row with that id |
| Backend.SignupThenGet | HSR_backend_server/main.py:124-154 | The id signup returns fetches that same user |
| SignIn.HandleSubmit | components/login/hook/useSignIn.ts:14-42 | The employee pair goes to /Home and the HR pair to /about, each with the username. Anything else is refused. Exactly one branch applies |
| SignIn.EmployeeUsername | components/login/hook/useSignIn.ts:16-28 | The employee account arrives as "employee" |
| SignIn.HrUsername | components/login/hook/useSignIn.ts:16-34 | The HR account arrives as "hr" |
| SignIn.CaseSensitive | components/login/hook/useSignIn.ts:23-37 | Differently capitalised credentials are refused |
| ChatWidget.BeginSend | components/Chat/Chat.tsx:39-49 | Blank input is a no-op. Otherwise the untrimmed user message is appended, the input is cleared, loading starts, and the whole new history is posted |
| ChatWidget.FinishSend | components/Chat/Chat.tsx:49-56 | A reply is appended to the posted history. A failure keeps the history and raises "Something went wrong", and only a failure alerts. Loading ends on both paths |
| ChatWidget.HandleSend | components/Chat/Chat.tsx:39-57 | End to end: old ++ [user, assistant] on a reply, old ++ [user] with the alert on failure, unchanged and silent for blank input |
| ChatWidget.AlertIffFailedSend | components/Chat/Chat.tsx:39-53 | The alert is raised exactly when a non-blank message gets no reply |
| ChatWidget.SendKeepsHistory | components/Chat/Chat.tsx:43-51 | Earlier messages are never lost or reordered |
| ChatWidget.BackendAnswersInput | components/Chat/Chat.tsx:42-49 | Against the backend, the reply is chosen by the text just typed |
| ChatWidget.HandleKeyPress | components/Chat/Chat.tsx:59-64 | Enter without Shift sends; any other key leaves the state alone |
| ChatWidget.ShiftEnterNeverSends | components/Chat/Chat.tsx:59-64 | Shift+Enter never sends and leaves the state unchanged |
| Home.BadgeIffUnread | pages/Home.tsx:237-247 | The badge is drawn iff its count is positive |
| Home.MarkAllRead | pages/Home.tsx:269-272 | Every notification becomes read; nothing else changes |
| Home.MarkAllReadClearsBadge | pages/Home.tsx:237-271 | After mark-all-read the count is 0 and the badge is gone |
| Home.MarkAllReadIdempotent | pages/Home.tsx:269-272 | Marking all as read twice equals once |
| Home.RenderContent | pages/Home.tsx:102-135 | Each of the fourteen known keys maps to its own page or note, and only that key does; the dashboard and users pages receive the search query. Any other key maps to the default text |
| Home.EveryMenuKeyRenders | pages/Home.tsx:102-135 | No nav, sidebar or settings key falls through to the default |
| Home.ActionsOpenTheirPages | pages/Home.tsx:83-91 | The messages, settings and profile actions open their pages |
| Dashboard.FilteredTasks | pages/Dashboardemp.tsx:122-130 | A task is kept iff the query occurs, ignoring case, in name, assignee, status or id; order is kept |
| Dashboard.EmptyQueryKeepsAll | pages/Dashboardemp.tsx:122-130 | An empty query keeps every task |
| Dashboard.QueryCaseIgnored | pages/Dashboardemp.tsx:123 | The query's case never matters |
| Dashboard.StatusColor | pages/Dashboardemp.tsx:109-114 | Completed is green, In Progress blue, Blocked red; anything else is gray |
| Dashboard.Rows | pages/Dashboardemp.tsx:213-235 | One coloured row per match, or the single "No tasks found" row |
| Dashboard.NoTasksRowIffNoMatch | pages/Dashboardemp.tsx:213-235 | The table is never empty; "No tasks found" appears iff nothing matches |
| Users.FilteredUsers | pages/Usersemp.tsx:53-56 | A user is kept iff the query occurs, ignoring case, in name or email; order is kept |
| Users.SearchBoxIgnored | pages/Usersemp.tsx:51-67 | The page's own search box never affects the list |
| Users.EmptyQueryListsAll | pages/Usersemp.tsx:53-56 | An empty query lists every user |
| Users.StatusColor | pages/Usersemp.tsx:43-46 | Active is green and Inactive red, and nothing else is either |
| Landing.EditEmail | pages/index.tsx:310-313 | Editing takes the text and clears any error |
| Landing.SignupForDemo | pages/index.tsx:328-336 | A failing address shows the error and stays. Otherwise the error clears and Home opens with the text before the first `@` |
| Landing.NavigatesIffLooseMatch | pages/index.tsx:329-334 | Navigation happens iff the address is non-empty and the unanchored pattern matches in it |
| Landing.WellFormedAddressNavigates | pages/index.tsx:125-130 | A well-formed `local@domain` opens Home as `local` |
| Landing.HandleToggle | pages/index.tsx:131-137 | The open index closes the dropdown; any other opens it |
| Landing.ToggleTwice | pages/index.tsx:131-137 | From closed, or from that dropdown open, two toggles return to the start |
| Landing.ToggleTwiceFromOther | pages/index.tsx:131-137 | From a different open dropdown, two toggles close everything |
| AttendanceAction.DialHour | components/my-attendance/attendance-action/AttendanceAction.tsx:65 | The dial hour is in 1..12 and agrees with the hour modulo 12 |
| AttendanceAction.FormatTime | components/my-attendance/attendance-action/AttendanceAction.tsx:63-70 | The text ends in " AM" or " PM" by the hour and starts with the dial hour |
| AttendanceAction.TimeRoundTrip | components/my-attendance/attendance-action/AttendanceAction.tsx:63-70 | Reading the text back gives the 24-hour reading, with minutes and seconds padded to two digits |
| AttendanceAction.TimeFormatMatchesSuffix | components/my-attendance/attendance-action/AttendanceAction.tsx:56-68 | `timeFormat` equals the text's marker, and is AM iff the hour is below 12 |
| AttendanceAction.ClockInOutButton | components/my-attendance/attendance-action/AttendanceAction.tsx:82-100 | Clocking in hides the button; clocking out shows it again |
| AttendanceTiming.ClickDay | components/my-attendance/attendance-timeing/AttendanceTimeing.tsx:33-88 | A day with hours becomes both the selection and the shown info; a day without hours changes nothing |
| AttendanceTiming.ClickSelects | components/my-attendance/attendance-timeing/AttendanceTimeing.tsx:38-57 | After such a click, exactly the buttons with that value are selected |
| AttendanceTiming.ClickKeepsToday | components/my-attendance/attendance-timeing/AttendanceTimeing.tsx:26-58 | Clicks never change which button is today's |
| AttendanceTiming.Initial | components/my-attendance/attendance-timeing/AttendanceTimeing.tsx:15-31 | The stored day is the lowercased weekday name; nothing is selected |
| AttendanceTiming.HourLabel | components/my-attendance/attendance-timeing/AttendanceTimeing.tsx:113-124 | The label is the numeral followed directly by the unit. It is "1 Hour" exactly for 1; other values end in " Hours" |
| AttendanceTiming.HourLabelReadsBack | components/my-attendance/attendance-timeing/AttendanceTimeing.tsx:113-124 | The text before the unit reads back as the hour count |
| AttendanceTiming.Heading | components/my-attendance/attendance-timeing/AttendanceTimeing.tsx:104-107 | The shown day's value, or "Today", followed by " (Flexible Timings)" |
| AttendanceTiming.HeadingAfterClick | components/my-attendance/attendance-timeing/AttendanceTimeing.tsx:84-107 | After clicking a named day with hours, the heading names that day |
| Numerals.ParseInt | pages/Recruitemp.tsx:64 | `Number(s)` on integer text: blank text reads as 0 |
| Numerals.IntRoundTrip | pages/Recruitemp.tsx:64 | `Number(String(n)) === n` for every integer |

## Left out

- Rendering: JSX, Chakra styling, colour-mode values, icons, tooltips and toasts. Each toast appears only as a value where it signals an outcome.
- Network, storage and navigation:
  - `fetch` and the leave API;
  - `chatService` and `lib/services`;
  - `router.push`, `alert` and `console.log`.

  Each appears only as a parameter (the response) or a returned value (the navigation target, notice or alert text).
- Time sources: `Date.now()`, `new Date()`, `setInterval`, `getDay`, `toLocaleDateString`, `toLocaleTimeString`, `toLocaleString`. They become parameters. The calendar's `firstDayOfWeek` and the weekday name of the attendance card are inputs.
- Leave confirmation step, recipient lists, sort-direction toggle and pagination: none exists in pages/Leaveemployee.tsx. The model follows the code.
- Leave.Validate: yup reports the `required` message for the reason only when the value is absent. The form always holds a string, so that message never shows and is not modelled.
- Leave.SortNewestFirst: stability of the sort is not stated. JavaScript's `sort` is stable, and records with equal `appliedOn` may appear in either order here.
- Recruit.NegativeExperience: `Number()` is read on integer text only. A negative decimal or exponent (`-1.5`, `-1e3`) is an error in the page and not in the model. Other non-integer text reads as `NaN` and passes, as in the page.
- Checklist `completionPercent` and progress bars: floating-point division, which divides by zero on an empty list.
- Recruitment's simulated one-second delay and the `isSubmitting` flag in between. `HandleSubmit` goes straight to the final state.
- Backend infrastructure: SQLAlchemy sessions, bcrypt, CORS, logging and lifespan.
  - Hashing is a function parameter, and verifying a password means hashing it and comparing.
  - Pydantic's `EmailStr` validation and its 422 responses are not modelled; emails are compared exactly.
  - The text of the 500 detail is Starlette's rendering of the inner exception; only the status is stated.
  - `get_payslips` returns a constant list.
- Backend.MaxId: SQLite's id for the next row is modelled as the largest id plus one. Rows are never deleted, so the effect is the same as SQLite's.
- Calendar.DaysInMonth: outside the range `Date` can represent (about ±275,000 years) the page gets `NaN`. The model gives the Gregorian length.
- Unicode: `toLowerCase` is ASCII lowercasing, and `\s` is the six ASCII whitespace characters. Lengths are counted in characters, not UTF-16 code units.
- components/my-attendance/constants/attendanceList is not part of this model. The day buttons are a parameter, with `hourInfo` as an optional integer.
- Settings `handleSave` and the notification switches only raise a toast or flip a display flag.
- `searchQuery` input handling in pages/Home.tsx: the query is passed to the dashboard and users pages as a parameter.
- Navigation-only and static components: Sidebar, navbars, About, pending leave requests, overtime, timesheet, attendance stats and titles, user profile, privacy policy, the job page, `_app` and `next.config.js`. The signup, login and forgot-password forms delegate to yup schemas and hooks that are not visible.
