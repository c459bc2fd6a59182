/**
 Decimal numerals: `Number.prototype.toString()` for integers and a reading of the
 `Number(s)` conversion restricted to integer text, with the round trips between them.
 */
module Numerals {
  import opened Wrappers
  import opened Text

  predicate IsDigit(c: char) {
    '0' <= c <= '9'
  }

  predicate AllDigits(s: string) {
    forall i :: 0 <= i < |s| ==> IsDigit(s[i])
  }

  function DigitChar(d: nat): (c: char)
    requires d < 10
    ensures IsDigit(c)
  {
    ('0' as int + d) as char
  }

  function DigitValue(c: char): (d: nat)
    requires IsDigit(c)
    ensures d < 10 && DigitChar(d) == c
  {
    c as int - '0' as int
  }

  /** `n.toString()` for a natural number: digits, most significant first, no leading zero. */
  function NatToString(n: nat): (r: string)
    ensures 1 <= |r| && AllDigits(r)
    ensures |r| == 1 <==> n < 10
    ensures |r| > 1 ==> r[0] != '0'
  {
    if n < 10 then [DigitChar(n)] else NatToString(n / 10) + [DigitChar(n % 10)]
  }

  /** The value of a string of decimal digits (leading zeros allowed). */
  function DigitsValue(s: string): nat
    requires AllDigits(s)
  {
    if s == [] then 0 else DigitsValue(s[..|s| - 1]) * 10 + DigitValue(s[|s| - 1])
  }

  /** Reading back a printed natural number gives the number. */
  lemma {:induction false} DigitsValueOfNatToString(n: nat)
    ensures DigitsValue(NatToString(n)) == n
  {
    if n >= 10 {
      var s := NatToString(n);
      assert s[..|s| - 1] == NatToString(n / 10);
      DigitsValueOfNatToString(n / 10);
    }
  }

  /** Printing the value of a canonical digit string (no leading zero) gives the string back. */
  lemma {:induction false} NatToStringOfDigitsValue(s: string)
    requires |s| >= 1 && AllDigits(s) && (|s| > 1 ==> s[0] != '0')
    ensures NatToString(DigitsValue(s)) == s
    decreases |s|
  {
    if |s| > 1 {
      var p := s[..|s| - 1];
      NatToStringOfDigitsValue(p);
      LeadingDigitBound(p);
      assert DigitsValue(s) / 10 == DigitsValue(p);
      assert DigitsValue(s) % 10 == DigitValue(s[|s| - 1]);
    }
  }

  /** A canonical digit string of two or more digits is worth at least 10. */
  lemma {:induction false} LeadingDigitBound(s: string)
    requires |s| >= 1 && AllDigits(s) && (|s| > 1 ==> s[0] != '0')
    ensures DigitsValue(s) >= 1 || |s| == 1
    ensures |s| > 1 ==> DigitsValue(s) >= 10
    decreases |s|
  {
    if |s| > 1 {
      var p := s[..|s| - 1];
      LeadingDigitBound(p);
      if |p| == 1 { assert p[0] == s[0]; assert DigitValue(p[0]) >= 1; }
    }
  }

  /** `n.toString()` for any integer. */
  function IntToString(n: int): (r: string)
    ensures n >= 0 ==> r == NatToString(n)
    ensures n < 0 ==> r == ['-'] + NatToString(-n)
  {
    if n < 0 then ['-'] + NatToString(-n) else NatToString(n)
  }

  /** `(n).toString().padStart(2, "0")`. */
  function Pad2(n: nat): (r: string)
    ensures n < 100 ==> |r| == 2 && AllDigits(r) && DigitsValue(r) == n
  {
    var r := PadStart(NatToString(n), 2, '0');
    if n < 10 then
      assert r == ['0', DigitChar(n)];
      assert r[..1] == ['0'] && r[..1][..0] == [];
      assert DigitsValue(r[..1]) == 0;
      r
    else if n < 100 then
      DigitsValueOfNatToString(n);
      r
    else r
  }

  /**
   `Number(s)` for the strings that denote integers: surrounding whitespace is ignored, a blank string
   is 0, an optional sign is followed by decimal digits. Every other string reads as `None` (`NaN`).
   */
  function ParseInt(s: string): (r: Option<int>)
    ensures IsBlank(s) ==> r == Some(0)
  {
    TrimEmptyIffBlank(s);
    ReadSigned(Trim(s))
  }

  /** The value of already trimmed text: empty is 0, then an optional sign and decimal digits. */
  function ReadSigned(t: string): Option<int> {
    if t == [] then Some(0)
    else if |t| > 1 && t[0] == '-' && AllDigits(t[1..]) then Some(0 - DigitsValue(t[1..]))
    else if |t| > 1 && t[0] == '+' && AllDigits(t[1..]) then Some(DigitsValue(t[1..]))
    else if AllDigits(t) then Some(DigitsValue(t))
    else None
  }

  lemma DigitsHaveNoSpace(d: string)
    requires AllDigits(d)
    ensures NoSpace(d)
  {
  }

  /** A run of digits reads as its value. */
  lemma ParseDigits(d: string)
    requires |d| >= 1 && AllDigits(d)
    ensures ParseInt(d) == Some(DigitsValue(d))
  {
    DigitsHaveNoSpace(d);
    TrimNoSpace(d);
    ReadDigits(d);
  }

  lemma ReadDigits(d: string)
    requires |d| >= 1 && AllDigits(d)
    ensures ReadSigned(d) == Some(DigitsValue(d))
  {
    assert IsDigit(d[0]);
  }

  lemma ReadMinusDigits(d: string)
    requires |d| >= 1 && AllDigits(d)
    ensures ReadSigned(['-'] + d) == Some(0 - DigitsValue(d))
  {
    assert (['-'] + d)[1..] == d;
  }

  lemma NatRoundTrip(m: nat)
    ensures ParseInt(NatToString(m)) == Some(m)
  {
    ParseDigits(NatToString(m));
    DigitsValueOfNatToString(m);
  }

  lemma NegativeRoundTrip(m: nat)
    ensures ParseInt(['-'] + NatToString(m)) == Some(0 - m)
  {
    NegativeIsTrimmed(m);
    ReadNegative(m);
  }

  lemma NegativeIsTrimmed(m: nat)
    ensures Trim(['-'] + NatToString(m)) == ['-'] + NatToString(m)
  {
    var d := NatToString(m);
    DigitsHaveNoSpace(d);
    assert NoSpace(['-'] + d);
    TrimNoSpace(['-'] + d);
  }

  lemma ReadNegative(m: nat)
    ensures ReadSigned(['-'] + NatToString(m)) == Some(0 - m)
  {
    ReadMinusDigits(NatToString(m));
    DigitsValueOfNatToString(m);
  }

  /** Reading back a printed integer gives the integer: `Number(String(n)) === n`. */
  lemma IntRoundTrip(n: int)
    ensures ParseInt(IntToString(n)) == Some(n)
  {
    if n < 0 {
      NegativeIntRoundTrip(n);
    } else {
      NatRoundTrip(n);
      assert IntToString(n) == NatToString(n);
    }
  }

  lemma NegativeIntRoundTrip(n: int)
    requires n < 0
    ensures ParseInt(IntToString(n)) == Some(n)
  {
    var m: nat := -n;
    assert IntToString(n) == ['-'] + NatToString(m);
    NegativeRoundTrip(m);
  }
}
