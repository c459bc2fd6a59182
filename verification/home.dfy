/**
 The dashboard layout: the notification menu with its unread badge, and the tab switch that
 decides which page is rendered.
 */
module Home {
  import opened Seqs

  datatype Notification = Notification(id: int, message: string, time: string, read: bool)

  const InitialNotifications := [
    Notification(1, "New leave request pending approval.", "2m ago", false),
    Notification(2, "Payslip for May is now available.", "1h ago", false),
    Notification(3, "Team meeting at 3 PM.", "Today", true)
  ]

  predicate IsUnread(n: Notification) {
    !n.read
  }

  /** The number on the badge: `notifications.filter(n => !n.read).length`. */
  function UnreadCount(ns: seq<Notification>): (c: nat)
    ensures c <= |ns|
  {
    Count(ns, IsUnread)
  }

  /** `notifications.some(n => !n.read)`: whether the badge is drawn. */
  predicate ShowBadge(ns: seq<Notification>) {
    exists i | 0 <= i < |ns| :: !ns[i].read
  }

  /** The badge is drawn exactly when its number would be positive. */
  lemma BadgeIffUnread(ns: seq<Notification>)
    ensures ShowBadge(ns) <==> UnreadCount(ns) > 0
  {
    CountIsZeroIffNone(ns, IsUnread);
  }

  /** "Mark all as read": every notification becomes read; nothing else about it changes. */
  function MarkAllRead(ns: seq<Notification>): (r: seq<Notification>)
    ensures |r| == |ns|
    ensures forall i :: 0 <= i < |ns| ==> r[i].read && r[i].(read := ns[i].read) == ns[i]
  {
    seq(|ns|, i requires 0 <= i < |ns| => ns[i].(read := true))
  }

  /** After marking all as read the count is 0 and the badge is gone. */
  lemma MarkAllReadClearsBadge(ns: seq<Notification>)
    ensures UnreadCount(MarkAllRead(ns)) == 0 && !ShowBadge(MarkAllRead(ns))
  {
    CountIsZeroIffNone(MarkAllRead(ns), IsUnread);
  }

  /** Marking all as read twice is the same as once. */
  lemma MarkAllReadIdempotent(ns: seq<Notification>)
    ensures MarkAllRead(MarkAllRead(ns)) == MarkAllRead(ns)
  {
  }

  /** What the main area shows; the two searchable pages receive the header's query. */
  datatype View =
    | DashboardPage(searchQuery: string) | UsersPage(searchQuery: string)
    | PayslipPage | LeavePage | CalendarPage | ChecklistPage | ParkingPage | RecruitPage
    | MessagesPage | SettingsPage | ProfilePage
    | Note(text: string)

  const DefaultNote := "Select a menu item."
  const BookingsNote := "Here are your Bookings."
  const NewsroomsNote := "Newsrooms content goes here."
  const DocumentsNote := "Your Documents will appear here."

  /** `renderContent`: the page for a known tab key, the default note for any other key. */
  function RenderContent(activeTab: string, searchQuery: string): (v: View)
    ensures activeTab == "dashboard" <==> v == DashboardPage(searchQuery)
    ensures activeTab == "users" <==> v == UsersPage(searchQuery)
    ensures activeTab == "payslip" <==> v == PayslipPage
    ensures activeTab == "leave" <==> v == LeavePage
    ensures activeTab == "calendar" <==> v == CalendarPage
    ensures activeTab == "checklist" <==> v == ChecklistPage
    ensures activeTab == "parking" <==> v == ParkingPage
    ensures activeTab == "recruit" <==> v == RecruitPage
    ensures activeTab == "messages" <==> v == MessagesPage
    ensures activeTab == "settings" <==> v == SettingsPage
    ensures activeTab == "profile" <==> v == ProfilePage
    ensures activeTab == "bookings" <==> v == Note(BookingsNote)
    ensures activeTab == "newsrooms" <==> v == Note(NewsroomsNote)
    ensures activeTab == "documents" <==> v == Note(DocumentsNote)
    ensures v == Note(DefaultNote) <==> activeTab !in KnownTabs
  {
    match activeTab
    case "dashboard" => DashboardPage(searchQuery)
    case "users" => UsersPage(searchQuery)
    case "payslip" => PayslipPage
    case "leave" => LeavePage
    case "calendar" => CalendarPage
    case "checklist" => ChecklistPage
    case "parking" => ParkingPage
    case "recruit" => RecruitPage
    case "messages" => MessagesPage
    case "settings" => SettingsPage
    case "profile" => ProfilePage
    case "bookings" => Note(BookingsNote)
    case "newsrooms" => Note(NewsroomsNote)
    case "documents" => Note(DocumentsNote)
    case _ => Note(DefaultNote)
  }

  const KnownTabs: set<string> := {
    "dashboard", "users", "payslip", "leave", "calendar", "checklist", "parking", "recruit",
    "messages", "settings", "profile", "bookings", "newsrooms", "documents"
  }

  const NavKeys := ["dashboard", "bookings", "newsrooms", "documents"]
  const SidebarKeys := ["dashboard", "users", "payslip", "leave", "checklist", "parking", "calendar", "recruit", "messages"]
  const SettingsKey := "settings"

  /** Every entry of the top bar and the sidebar, and the settings item, opens something other than the default note. */
  lemma EveryMenuKeyRenders()
    ensures forall i :: 0 <= i < |NavKeys| ==> RenderContent(NavKeys[i], "") != Note(DefaultNote)
    ensures forall i :: 0 <= i < |SidebarKeys| ==> RenderContent(SidebarKeys[i], "") != Note(DefaultNote)
    ensures RenderContent(SettingsKey, "") != Note(DefaultNote)
  {
  }

  datatype HeaderAction = OpenMessages | OpenSettings | OpenProfile

  /** The tab each header action selects. */
  function TabFor(a: HeaderAction): (tab: string)
    ensures tab in KnownTabs
  {
    match a
    case OpenMessages => "messages"
    case OpenSettings => "settings"
    case OpenProfile => "profile"
  }

  /** Each header action shows its own page. */
  lemma ActionsOpenTheirPages()
    ensures RenderContent(TabFor(OpenMessages), "") == MessagesPage
    ensures RenderContent(TabFor(OpenSettings), "") == SettingsPage
    ensures RenderContent(TabFor(OpenProfile), "") == ProfilePage
  {
  }
}
