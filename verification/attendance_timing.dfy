/**
 The attendance timings card: a row of weekday buttons, the selected day's hours and the
 heading above them. The day list and the current weekday name are parameters.
 */
module AttendanceTiming {
  import opened Wrappers
  import opened Text
  import opened Numerals

  /** A weekday button; `hourInfo` is None when the day has no recorded hours. */
  datatype Day = Day(id: int, dayTitle: string, dayValue: string, hourInfo: Option<int>)

  datatype AttendanceInfo = AttendanceInfo(dayValue: string, hourInfo: int)

  datatype TimingState = TimingState(currentDay: string, selectedDay: string, info: AttendanceInfo)

  /** The state before any click, once the effect has stored today's lowercased weekday name. */
  function Initial(weekdayName: string): (s: TimingState)
    ensures s.currentDay == Lower(weekdayName) && s.selectedDay == [] && s.info == AttendanceInfo([], 0)
  {
    TimingState(Lower(weekdayName), [], AttendanceInfo([], 0))
  }

  /** A click on a day button: a day with hours becomes both the selection and the shown info; others do nothing. */
  function ClickDay(s: TimingState, d: Day): (r: TimingState)
    ensures d.hourInfo.None? ==> r == s
    ensures d.hourInfo.Some? ==>
              r.selectedDay == d.dayValue && r.info == AttendanceInfo(d.dayValue, d.hourInfo.value)
              && r.currentDay == s.currentDay
  {
    if d.hourInfo.Some? then s.(info := AttendanceInfo(d.dayValue, d.hourInfo.value), selectedDay := d.dayValue)
    else s
  }

  /** The button is highlighted as selected exactly after a click on a day with hours and that value. */
  lemma ClickSelects(s: TimingState, d: Day, e: Day)
    requires d.hourInfo.Some?
    ensures ClickDay(s, d).selectedDay == e.dayValue <==> d.dayValue == e.dayValue
  {
  }

  /** The button of today: its value is the lowercased weekday name. */
  predicate IsToday(s: TimingState, d: Day) {
    s.currentDay == d.dayValue
  }

  /** Clicks never change which button is today's. */
  lemma ClickKeepsToday(s: TimingState, d: Day, e: Day)
    ensures IsToday(ClickDay(s, d), e) <==> IsToday(s, e)
  {
  }

  /** The duration label: "<n> Hour", with an "s" unless `n` is exactly 1. */
  function HourLabel(n: int): (r: string)
    ensures |r| == |IntToString(n)| + (if n == 1 then 5 else 6) && r[..|IntToString(n)|] == IntToString(n)
    ensures n == 1 <==> r == "1 Hour"
    ensures n != 1 ==> r[|r| - 6..] == " Hours"
  {
    var digits := IntToString(n);
    LabelParts(digits, n != 1);
    if n == 1 then OneToString(); digits + " Hour"
    else digits + " Hour" + "s"
  }

  /** The label reads back: the text before the unit is a numeral for `n`. */
  lemma HourLabelReadsBack(n: int)
    ensures var r := HourLabel(n);
            ParseInt(r[..|r| - (if n == 1 then 5 else 6)]) == Some(n)
  {
    IntRoundTrip(n);
  }

  /** Where the number and the unit sit in a label built from `digits`. */
  lemma LabelParts(digits: string, plural: bool)
    requires |digits| >= 1
    ensures var r := digits + " Hour" + (if plural then "s" else "");
            |r| == |digits| + (if plural then 6 else 5) && r[..|digits|] == digits
            && (plural ==> r[|r| - 6..] == " Hours" && r != "1 Hour")
  {
    var r := digits + " Hour" + (if plural then "s" else "");
    assert r[..|digits|] == digits;
    if plural {
      assert r[|r| - 6..] == " Hours";
      assert |r| >= 7;
    }
  }

  lemma OneToString()
    ensures IntToString(1) == "1"
  {
  }

  /** The heading: the shown day's value, or "Today" before any day with a value is shown. */
  function Heading(s: TimingState): (r: string)
    ensures s.info.dayValue != [] ==> r == s.info.dayValue + " (Flexible Timings)"
    ensures s.info.dayValue == [] ==> r == "Today (Flexible Timings)"
  {
    (if s.info.dayValue != [] then s.info.dayValue else "Today") + " (Flexible Timings)"
  }

  /** After a click on a named day with hours, the heading names that day. */
  lemma HeadingAfterClick(s: TimingState, d: Day)
    requires d.hourInfo.Some? && d.dayValue != []
    ensures Heading(ClickDay(s, d)) == d.dayValue + " (Flexible Timings)"
  {
  }
}
