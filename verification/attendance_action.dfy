/**
 The attendance action card: the 12-hour clock text, the AM/PM marker read back from it,
 and the web clock-in flag. The clock reading is a parameter.
 */
module AttendanceAction {
  import opened Text
  import opened Numerals
  import opened Wrappers

  /** A wall-clock reading as `getHours`, `getMinutes` and `getSeconds` give it. */
  predicate ValidClock(h: int, m: int, s: int) {
    0 <= h < 24 && 0 <= m < 60 && 0 <= s < 60
  }

  /** `hours % 12 || 12`: the hour on a 12-hour dial. */
  function DialHour(h: nat): (d: nat)
    ensures 1 <= d <= 12
    ensures d % 12 == h % 12
  {
    if h % 12 == 0 then 12 else h % 12
  }

  function Suffix(h: int): string {
    if h < 12 then "AM" else "PM"
  }

  /** The text `H:MM:SS XM` from its four parts. */
  function ClockText(hour: string, mm: string, ss: string, marker: string): string {
    hour + ":" + mm + ":" + ss + " " + marker
  }

  /** `getFormattedTime`: `H:MM:SS AM` or `H:MM:SS PM`. */
  function FormatTime(h: nat, m: nat, s: nat): (t: string)
    requires ValidClock(h, m, s)
    ensures |t| >= 10 && t[|t| - 2..] == Suffix(h) && t[|t| - 3] == ' '
    ensures t[..|t| - 9] == NatToString(DialHour(h))
  {
    var t := ClockText(NatToString(DialHour(h)), Pad2(m), Pad2(s), Suffix(h));
    ClockParts(NatToString(DialHour(h)), Pad2(m), Pad2(s), Suffix(h));
    t
  }

  /** The parts of an `H:MM:SS XM` text sit at fixed distances from its end. */
  lemma ClockParts(hour: string, mm: string, ss: string, marker: string)
    requires |mm| == 2 && |ss| == 2 && |marker| == 2
    ensures var t := ClockText(hour, mm, ss, marker);
            && |t| == |hour| + 9 && t[|t| - 9] == ':' && t[|t| - 6] == ':' && t[|t| - 3] == ' '
            && t[..|t| - 9] == hour && t[|t| - 8..|t| - 6] == mm && t[|t| - 5..|t| - 3] == ss
            && t[|t| - 2..] == marker
  {
  }

  /** A dial hour and its marker back to a 24-hour hour. */
  function To24(d: int, marker: string): int {
    if marker == "AM" then (if d == 12 then 0 else d) else (if d == 12 then 12 else d + 12)
  }

  /** The inverse reading of a clock text: back to a 24-hour reading. */
  function ParseTime(t: string): (r: Option<(int, int, int)>)
    ensures r.Some? ==> |t| >= 10
  {
    if |t| >= 10 && t[|t| - 9] == ':' && t[|t| - 6] == ':' && t[|t| - 3] == ' '
       && (t[|t| - 2..] == "AM" || t[|t| - 2..] == "PM")
       && AllDigits(t[..|t| - 9]) && AllDigits(t[|t| - 8..|t| - 6]) && AllDigits(t[|t| - 5..|t| - 3])
    then Some((To24(DigitsValue(t[..|t| - 9]), t[|t| - 2..]),
               DigitsValue(t[|t| - 8..|t| - 6]), DigitsValue(t[|t| - 5..|t| - 3])))
    else None
  }

  /** A well-formed clock text reads back part by part. */
  lemma ParseClockText(hour: string, mm: string, ss: string, marker: string)
    requires |hour| >= 1 && AllDigits(hour)
    requires |mm| == 2 && AllDigits(mm) && |ss| == 2 && AllDigits(ss)
    requires marker == "AM" || marker == "PM"
    ensures ParseTime(ClockText(hour, mm, ss, marker))
            == Some((To24(DigitsValue(hour), marker), DigitsValue(mm), DigitsValue(ss)))
  {
    ClockParts(hour, mm, ss, marker);
  }

  /** The dial hour and the marker together determine the hour of the day. */
  lemma DialTo24(h: nat)
    requires h < 24
    ensures To24(DialHour(h), Suffix(h)) == h
  {
  }

  /** Reading the clock text back gives the reading it was made from: nothing is lost in the 12-hour form. */
  lemma TimeRoundTrip(h: nat, m: nat, s: nat)
    requires ValidClock(h, m, s)
    ensures ParseTime(FormatTime(h, m, s)) == Some((h, m, s))
  {
    var hour := NatToString(DialHour(h));
    ParseClockText(hour, Pad2(m), Pad2(s), Suffix(h));
    DigitsValueOfNatToString(DialHour(h));
    DialTo24(h);
  }

  /** `timeFormat`: "AM" when the text contains "AM", otherwise "PM". */
  function TimeFormat(formatted: string): (r: string)
    ensures r == "AM" <==> Includes(formatted, "AM")
    ensures r == "AM" || r == "PM"
  {
    if Includes(formatted, "AM") then "AM" else "PM"
  }

  /** The digits and separators before the marker never contain a letter. */
  lemma NoLetterBeforeMarker(hour: string, mm: string, ss: string, marker: string)
    requires AllDigits(hour) && AllDigits(mm) && AllDigits(ss) && |marker| == 2
    ensures var t := ClockText(hour, mm, ss, marker);
            'A' !in t[..|t| - 2]
  {
    var t := ClockText(hour, mm, ss, marker);
    var p := t[..|t| - 2];
    assert p == hour + ":" + mm + ":" + ss + " ";
    forall i | 0 <= i < |p| ensures p[i] != 'A' {
      if i < |hour| { assert p[i] == hour[i]; }
      else if |hour| < i < |hour| + 1 + |mm| { assert p[i] == mm[i - |hour| - 1]; }
      else if |hour| + 1 + |mm| < i < |hour| + 2 + |mm| + |ss| { assert p[i] == ss[i - |hour| - 2 - |mm|]; }
    }
  }

  /** A text ending in "PM" with no `A` before the marker does not contain "AM". */
  lemma NoMorningMarker(t: string)
    requires |t| >= 2 && 'A' !in t[..|t| - 2] && t[|t| - 2..] == "PM"
    ensures !Contains(t, "AM")
  {
    forall i: nat | i + 2 <= |t| ensures !OccursAt(t, "AM", i) {
      if i < |t| - 2 { assert t[i] == t[..|t| - 2][i]; } else { assert t[i] == t[|t| - 2..][0]; }
      assert t[i..i + 2][0] == t[i];
    }
  }

  /** The marker read back from the clock text is the marker it was written with: AM exactly before noon. */
  lemma TimeFormatMatchesSuffix(h: nat, m: nat, s: nat)
    requires ValidClock(h, m, s)
    ensures TimeFormat(FormatTime(h, m, s)) == Suffix(h)
    ensures TimeFormat(FormatTime(h, m, s)) == "AM" <==> h < 12
  {
    var t := FormatTime(h, m, s);
    IncludesIffContains(t, "AM");
    if h < 12 {
      assert OccursAt(t, "AM", |t| - 2);
    } else {
      NoLetterBeforeMarker(NatToString(DialHour(h)), Pad2(m), Pad2(s), Suffix(h));
      NoMorningMarker(t);
    }
  }

  /** The clock-in flag and what the card shows for it. */
  datatype ActionState = ActionState(webClockIn: bool, hasMounted: bool)

  function ClockIn(s: ActionState): (r: ActionState)
    ensures r.webClockIn && r.hasMounted == s.hasMounted
  {
    s.(webClockIn := true)
  }

  function ClockOut(s: ActionState): (r: ActionState)
    ensures !r.webClockIn && r.hasMounted == s.hasMounted
  {
    s.(webClockIn := false)
  }

  /** The clock-in button is drawn only before clocking in, once the card is mounted. */
  predicate ShowsClockInButton(s: ActionState) {
    !s.webClockIn && s.hasMounted
  }

  /** Clocking in hides the button; clocking out brings it back. */
  lemma ClockInOutButton(s: ActionState)
    requires s.hasMounted
    ensures !ShowsClockInButton(ClockIn(s))
    ensures ShowsClockInButton(ClockOut(ClockIn(s)))
  {
  }
}
