/**
 The employee leave calendar: date keys, month lengths as the JavaScript `Date` constructor
 computes them, the month grid, the leave and holiday lookups and the summary counts.
 */
module Calendar {
  import opened Wrappers
  import opened Seqs
  import opened Text
  import opened Numerals

  /** `n.toString().padStart(2, "0")` for any integer. */
  function PadNumber(n: int): (r: string)
    ensures 0 <= n < 100 ==> r == Pad2(n)
    ensures 0 <= n < 100 ==> |r| == 2 && AllDigits(r) && DigitsValue(r) == n
  {
    PadStart(IntToString(n), 2, '0')
  }

  /** `formatDate(year, month, day)`: `year-MM-DD` with the 0-based month shown 1-based. */
  function FormatDate(year: int, month: int, day: int): (r: string)
    ensures year >= 0 && 0 <= month + 1 < 100 && 0 <= day < 100 ==>
      |r| == |NatToString(year)| + 6 && r[|r| - 6] == '-' && r[|r| - 3] == '-'
  {
    IntToString(year) + "-" + PadNumber(month + 1) + "-" + PadNumber(day)
  }

  /** Reads a `YYYY-MM-DD` key back into a year, a 0-based month and a day. */
  function ParseDate(s: string): (r: Option<(int, int, int)>)
    ensures r.Some? ==> |s| >= 7 && s[|s| - 6] == '-' && s[|s| - 3] == '-'
  {
    if |s| >= 7 && s[|s| - 6] == '-' && s[|s| - 3] == '-'
       && AllDigits(s[..|s| - 6]) && AllDigits(s[|s| - 5..|s| - 3]) && AllDigits(s[|s| - 2..])
    then Some((DigitsValue(s[..|s| - 6]), DigitsValue(s[|s| - 5..|s| - 3]) - 1, DigitsValue(s[|s| - 2..])))
    else None
  }

  /** The three parts of a `y-mm-dd` key sit at fixed distances from its end. */
  lemma KeyParts(y: string, m: string, d: string)
    requires |m| == 2 && |d| == 2
    ensures var s := y + "-" + m + "-" + d;
            && |s| == |y| + 6 && s[|s| - 6] == '-' && s[|s| - 3] == '-'
            && s[..|s| - 6] == y && s[|s| - 5..|s| - 3] == m && s[|s| - 2..] == d
  {
  }

  /** Every key the page produces for a real date reads back to that date. */
  lemma DateRoundTrip(year: int, month: int, day: int)
    requires year >= 0 && 0 <= month + 1 < 100 && 0 <= day < 100
    ensures ParseDate(FormatDate(year, month, day)) == Some((year, month, day))
  {
    var y := IntToString(year);
    var m := PadNumber(month + 1);
    var d := PadNumber(day);
    KeyParts(y, m, d);
    DigitsValueOfNatToString(year);
    assert AllDigits(y) && DigitsValue(y) == year;
  }

  /** Different dates get different keys. */
  lemma FormatDateInjective(y1: int, m1: int, d1: int, y2: int, m2: int, d2: int)
    requires y1 >= 0 && 0 <= m1 + 1 < 100 && 0 <= d1 < 100
    requires y2 >= 0 && 0 <= m2 + 1 < 100 && 0 <= d2 < 100
    requires FormatDate(y1, m1, d1) == FormatDate(y2, m2, d2)
    ensures y1 == y2 && m1 == m2 && d1 == d2
  {
    DateRoundTrip(y1, m1, d1);
    DateRoundTrip(y2, m2, d2);
  }

  /** Gregorian leap years. */
  predicate IsLeap(y: int) {
    y % 4 == 0 && (y % 100 != 0 || y % 400 == 0)
  }

  /** The length of month `m` (0 = January) of year `y` in the proleptic Gregorian calendar. */
  function MonthLength(y: int, m: int): (r: int)
    requires 0 <= m < 12
    ensures 28 <= r <= 31
    ensures m == 1 ==> (r == 29 <==> IsLeap(y))
    ensures m != 1 ==> (r == 30 <==> m == 3 || m == 5 || m == 8 || m == 10)
  {
    if m == 1 then (if IsLeap(y) then 29 else 28)
    else if m == 3 || m == 5 || m == 8 || m == 10 then 30
    else 31
  }

  /** The months of a year add up to 365 days, or 366 in a leap year. */
  lemma YearLength(y: int)
    ensures MonthLength(y, 0) + MonthLength(y, 1) + MonthLength(y, 2) + MonthLength(y, 3)
            + MonthLength(y, 4) + MonthLength(y, 5) + MonthLength(y, 6) + MonthLength(y, 7)
            + MonthLength(y, 8) + MonthLength(y, 9) + MonthLength(y, 10) + MonthLength(y, 11)
            == if IsLeap(y) then 366 else 365
  {
  }

  /** The `Date` constructor reads a year of 0 to 99 as 1900 to 1999. */
  function FullYear(year: int): int {
    if 0 <= year <= 99 then 1900 + year else year
  }

  /**
   `new Date(year, month + 1, 0).getDate()`: month `month + 1` is normalised into the year, and
   day 0 of it is the last day of the month before.
   */
  function DaysInMonth(year: int, month: int): (r: int)
    ensures 28 <= r <= 31
    ensures r == MonthLength(FullYear(year) + month / 12, month % 12)
  {
    var ym := FullYear(year) + (month + 1) / 12;
    var mn := (month + 1) % 12;
    if mn == 0 then MonthLength(ym - 1, 11) else MonthLength(ym, mn - 1)
  }

  /** For a month index in range, the length of that month of that (full) year. */
  lemma DaysInMonthInRange(year: int, month: int)
    requires 0 <= month < 12
    ensures DaysInMonth(year, month) == MonthLength(FullYear(year), month)
  {
  }

  /** Two-digit years are in the 1900s: February of "year 0" has 28 days although year 0 is a leap year. */
  lemma TwoDigitYear()
    ensures IsLeap(0) && DaysInMonth(0, 1) == 28
    ensures DaysInMonth(2024, 1) == 29 && DaysInMonth(2025, 4) == 31
  {
  }

  /** A grid cell: a leading blank or a numbered day with its date key. */
  datatype Cell = Blank | DayCell(day: int, key: string)

  /** The cell at position `i` of the grid. */
  function CellAt(year: int, month: int, firstDayOfWeek: nat, i: int): Cell {
    if i < firstDayOfWeek then Blank
    else DayCell(i - firstDayOfWeek + 1, FormatDate(year, month, i - firstDayOfWeek + 1))
  }

  /** The month grid: `firstDayOfWeek` blanks, then days 1 to the month's length. */
  function Grid(year: int, month: int, firstDayOfWeek: nat): (g: seq<Cell>)
    ensures |g| == firstDayOfWeek + DaysInMonth(year, month)
    ensures forall i :: 0 <= i < firstDayOfWeek ==> g[i] == Blank
    ensures forall i :: firstDayOfWeek <= i < |g| ==>
              g[i] == DayCell(i - firstDayOfWeek + 1, FormatDate(year, month, i - firstDayOfWeek + 1))
  {
    var n := firstDayOfWeek + DaysInMonth(year, month);
    seq(n, (i: int) => CellAt(year, month, firstDayOfWeek, i))
  }

  /** No two day cells of a grid share a key. */
  lemma GridKeysDistinct(year: int, month: int, firstDayOfWeek: nat, i: int, j: int)
    requires year >= 0 && 0 <= month < 12
    requires firstDayOfWeek <= i < j < |Grid(year, month, firstDayOfWeek)|
    ensures Grid(year, month, firstDayOfWeek)[i].key != Grid(year, month, firstDayOfWeek)[j].key
  {
    var a := i - firstDayOfWeek + 1;
    var b := j - firstDayOfWeek + 1;
    DayKeysDistinct(year, month, a, b);
  }

  lemma DayKeysDistinct(year: int, month: int, a: int, b: int)
    requires year >= 0 && 0 <= month < 12 && 1 <= a < b <= 31
    ensures FormatDate(year, month, a) != FormatDate(year, month, b)
  {
    DateRoundTrip(year, month, a);
    DateRoundTrip(year, month, b);
  }

  datatype LeaveEntry = LeaveEntry(date: string, leaveType: string)
  datatype HolidayEntry = HolidayEntry(date: string, name: string)

  const Leaves := [
    LeaveEntry("2025-05-04", "Sick"),
    LeaveEntry("2025-05-15", "Casual"),
    LeaveEntry("2025-05-20", "Work From Home")
  ]

  const Holidays := [
    HolidayEntry("2025-05-01", "Labor Day"),
    HolidayEntry("2025-05-25", "Company Holiday")
  ]

  /** `isLeaveDay`: the first leave on exactly that date, if any. */
  function LeaveOn(leaves: seq<LeaveEntry>, date: string): (r: Option<LeaveEntry>)
    ensures r.None? <==> forall i :: 0 <= i < |leaves| ==> leaves[i].date != date
    ensures r.Some? ==> exists k :: 0 <= k < |leaves| && leaves[k] == r.value && r.value.date == date
                                  && forall i :: 0 <= i < k ==> leaves[i].date != date
  {
    Find(leaves, (l: LeaveEntry) => l.date == date)
  }

  /** `isHoliday`: the first holiday on exactly that date, if any. */
  function HolidayOn(holidays: seq<HolidayEntry>, date: string): (r: Option<HolidayEntry>)
    ensures r.None? <==> forall i :: 0 <= i < |holidays| ==> holidays[i].date != date
    ensures r.Some? ==> exists k :: 0 <= k < |holidays| && holidays[k] == r.value && r.value.date == date
                                  && forall i :: 0 <= i < k ==> holidays[i].date != date
  {
    Find(holidays, (h: HolidayEntry) => h.date == date)
  }

  /** The keys of `leaveColors`, in order; the last one counts holidays. */
  const SummaryTypes := ["Sick", "Casual", "Work From Home", "Holiday"]

  function OfType(t: string): LeaveEntry -> bool {
    (l: LeaveEntry) => l.leaveType == t
  }

  /** The number shown next to a summary row. */
  function SummaryCount(leaves: seq<LeaveEntry>, holidays: seq<HolidayEntry>, t: string): (n: nat)
    ensures t == "Holiday" ==> n == |holidays|
    ensures t != "Holiday" ==> n == multiset(LeaveTypes(leaves))[t]
    ensures t != "Holiday" ==> n <= |leaves|
    ensures t != "Holiday" && (forall i :: 0 <= i < |leaves| ==> leaves[i].leaveType != t) ==> n == 0
  {
    if t == "Holiday" then |holidays|
    else
      CountIsZeroIffNone(leaves, OfType(t));
      CountOfType(leaves, t);
      Count(leaves, OfType(t))
  }

  /** The leave type of each leave, in order. */
  function LeaveTypes(leaves: seq<LeaveEntry>): (ts: seq<string>)
    ensures |ts| == |leaves| && forall i :: 0 <= i < |leaves| ==> ts[i] == leaves[i].leaveType
  {
    seq(|leaves|, (i: int) requires 0 <= i < |leaves| => leaves[i].leaveType)
  }

  /** Counting the leaves of type `t` gives how often `t` occurs among the leave types. */
  lemma {:induction false} CountOfType(leaves: seq<LeaveEntry>, t: string)
    ensures Count(leaves, OfType(t)) == multiset(LeaveTypes(leaves))[t]
  {
    if leaves != [] {
      CountOfType(leaves[1..], t);
      assert LeaveTypes(leaves) == [leaves[0].leaveType] + LeaveTypes(leaves[1..]);
    }
  }

  predicate KnownLeaveType(l: LeaveEntry) {
    l.leaveType == "Sick" || l.leaveType == "Casual" || l.leaveType == "Work From Home"
  }

  /** When every leave has one of the three leave types, the leave rows add up to the number of leaves. */
  lemma {:induction false} LeaveRowsAddUp(leaves: seq<LeaveEntry>)
    requires forall i :: 0 <= i < |leaves| ==> KnownLeaveType(leaves[i])
    ensures Count(leaves, OfType("Sick")) + Count(leaves, OfType("Casual"))
            + Count(leaves, OfType("Work From Home")) == |leaves|
  {
    if leaves != [] {
      assert KnownLeaveType(leaves[0]);
      LeaveRowsAddUp(leaves[1..]);
    }
  }

  /** With known leave types, the summary rows add up to all leaves plus all holidays. */
  lemma SummaryAddsUp(leaves: seq<LeaveEntry>, holidays: seq<HolidayEntry>)
    requires forall i :: 0 <= i < |leaves| ==> KnownLeaveType(leaves[i])
    ensures SummaryCount(leaves, holidays, SummaryTypes[0]) + SummaryCount(leaves, holidays, SummaryTypes[1])
            + SummaryCount(leaves, holidays, SummaryTypes[2]) + SummaryCount(leaves, holidays, SummaryTypes[3])
            == |leaves| + |holidays|
  {
    LeaveRowsAddUp(leaves);
  }
}
