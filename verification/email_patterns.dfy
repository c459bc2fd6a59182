/**
 The two e-mail regular expressions of the application:
 - the recruitment form's anchored `^[^\s@]+@[^\s@]+\.[^\s@]+$`, which must match the whole string;
 - the landing page's unanchored `\S+@\S+\.\S+`, for which `test` succeeds when some substring matches.
 Each is stated as the language of the regular expression (a split of the string into the pattern's
 pieces) and decided by a direct check whose equivalence with that language is proved.
 */
module EmailPatterns {
  import opened Text

  /** One or more characters of the class `[^\s@]`. */
  predicate AddressRun(t: string) {
    |t| > 0 && forall i :: 0 <= i < |t| ==> t[i] != '@' && !IsSpace(t[i])
  }

  /** One or more characters of the class `\S`. */
  predicate SolidRun(t: string) {
    |t| > 0 && NoSpace(t)
  }

  /** `s` splits as `[^\s@]+ @ [^\s@]+ \. [^\s@]+` with `s[k] == '@'` and `s[j] == '.'`. */
  predicate StrictSplit(s: string, k: int, j: int) {
    0 <= k < j < |s| && s[k] == '@' && s[j] == '.'
    && AddressRun(s[..k]) && AddressRun(s[k + 1..j]) && AddressRun(s[j + 1..])
  }

  /** The whole string is in the language of `^[^\s@]+@[^\s@]+\.[^\s@]+$`. */
  ghost predicate MatchesStrict(s: string) {
    exists k, j :: StrictSplit(s, k, j)
  }

  /** The domain part has a `.` with text on both sides. */
  predicate HasInnerDot(d: string) {
    exists j :: 0 < j < |d| - 1 && d[j] == '.'
  }

  /**
   `validateEmail` of the recruitment form: split at the first `@`; the local part must be a
   `[^\s@]+` run, and the rest must be free of whitespace and `@` and hold an inner dot.
   */
  function ValidateEmail(s: string): (ok: bool)
    ensures ok <==> MatchesStrict(s)
  {
    var local := BeforeFirst(s, '@');
    var k := |local|;
    if k == |s| then
      false
    else
      var d := s[k + 1..];
      var ok := AddressRun(local) && (forall i :: 0 <= i < |d| ==> d[i] != '@' && !IsSpace(d[i])) && HasInnerDot(d);
      StrictIffFirstAt(s, k, ok);
      ok
  }

  lemma StrictIffFirstAt(s: string, k: nat, ok: bool)
    requires k < |s| && s[k] == '@' && '@' !in s[..k]
    requires var d := s[k + 1..];
             ok == (AddressRun(s[..k]) && (forall i :: 0 <= i < |d| ==> d[i] != '@' && !IsSpace(d[i])) && HasInnerDot(d))
    ensures ok <==> MatchesStrict(s)
  {
    var d := s[k + 1..];
    if ok {
      var j' :| 0 < j' < |d| - 1 && d[j'] == '.';
      var j := k + 1 + j';
      assert s[k + 1..j] == d[..j'];
      assert s[j + 1..] == d[j' + 1..];
      assert StrictSplit(s, k, j);
    }
    if MatchesStrict(s) {
      var k0, j0 :| StrictSplit(s, k0, j0);
      forall i | 0 <= i < |d| ensures d[i] != '@' && !IsSpace(d[i]) {
        var p := k + 1 + i;
        if p < j0 { assert d[i] == s[k + 1..j0][i]; }
        else if p > j0 { assert d[i] == s[j0 + 1..][p - j0 - 1]; }
      }
      assert 0 < j0 - k - 1 < |d| - 1 && d[j0 - k - 1] == '.';
    }
  }

  /** What a passing address looks like: exactly one `@`, no whitespace, a non-empty local part, and a domain with an inner dot. */
  lemma StrictShape(s: string)
    requires ValidateEmail(s)
    ensures NoSpace(s)
    ensures exists k :: 0 < k < |s| && s[k] == '@' && (forall i :: 0 <= i < |s| && s[i] == '@' ==> i == k)
                        && HasInnerDot(s[k + 1..])
  {
    var k, j :| StrictSplit(s, k, j);
    forall i | 0 <= i < |s| ensures !IsSpace(s[i]) && (s[i] == '@' ==> i == k) {
      if i < k { assert s[i] == s[..k][i]; }
      else if k < i < j { assert s[i] == s[k + 1..j][i - k - 1]; }
      else if i > j { assert s[i] == s[j + 1..][i - j - 1]; }
    }
    var d := s[k + 1..];
    assert d[j - k - 1] == '.';
  }

  /** The blank test in front of `validateEmail` is subsumed by it: a blank string never passes. */
  lemma BlankFailsStrict(s: string)
    requires IsBlank(s)
    ensures !ValidateEmail(s)
  {
  }

  /** `t` is in the language of `\S+@\S+\.\S+` with `t[k] == '@'` and `t[j] == '.'`. */
  predicate LooseSplit(t: string, k: int, j: int) {
    0 <= k < j < |t| && t[k] == '@' && t[j] == '.'
    && SolidRun(t[..k]) && SolidRun(t[k + 1..j]) && SolidRun(t[j + 1..])
  }

  ghost predicate LooseShape(t: string) {
    exists k, j :: LooseSplit(t, k, j)
  }

  /** `/\S+@\S+\.\S+/.test(s)`: some substring of `s` is in the language. */
  ghost predicate MatchesLoose(s: string) {
    exists a, e :: 0 <= a <= e <= |s| && LooseShape(s[a..e])
  }

  /** A shortest match: a non-space before an `@`, a dot after a non-empty non-space run, a non-space after the dot. */
  predicate LooseAt(s: string, k: int, j: int) {
    1 <= k && k + 1 < j && j + 1 < |s| && s[k] == '@' && s[j] == '.'
    && !IsSpace(s[k - 1]) && NoSpace(s[k + 1..j]) && !IsSpace(s[j + 1])
  }

  /** The landing page's demo e-mail check (`!email || !regex.test(email)` negated). */
  predicate DemoEmailAccepted(s: string) {
    s != [] && exists k, j | 0 <= k < |s| && 0 <= j < |s| :: LooseAt(s, k, j)
  }

  /** The demo check accepts exactly the strings the unanchored regular expression finds a match in. */
  lemma DemoEmailIffLooseMatch(s: string)
    ensures DemoEmailAccepted(s) <==> MatchesLoose(s)
  {
    if DemoEmailAccepted(s) {
      var k, j :| 0 <= k < |s| && 0 <= j < |s| && LooseAt(s, k, j);
      ShortestMatch(s, k, j);
    }
    if MatchesLoose(s) {
      var a, e :| 0 <= a <= e <= |s| && LooseShape(s[a..e]);
      var k', j' :| LooseSplit(s[a..e], k', j');
      MatchInside(s, a, e, k', j');
    }
  }

  lemma ShortestMatch(s: string, k: int, j: int)
    requires LooseAt(s, k, j)
    ensures MatchesLoose(s)
  {
    var t := s[k - 1..j + 2];
    SliceOfSlice(s, k - 1, j + 2, 2, j - k + 1);
    assert t[..1] == [s[k - 1]];
    assert t[j - k + 2..] == [s[j + 1]];
    assert LooseSplit(t, 1, j - k + 1);
    assert LooseShape(t);
  }

  lemma MatchInside(s: string, a: nat, e: nat, k': int, j': int)
    requires a <= e <= |s| && LooseSplit(s[a..e], k', j')
    ensures DemoEmailAccepted(s)
  {
    var t := s[a..e];
    var k, j := a + k', a + j';
    assert s[k - 1] == t[..k'][k' - 1];
    SliceOfSlice(s, a, e, k' + 1, j');
    assert s[j + 1] == t[j' + 1..][0];
    assert LooseAt(s, k, j);
  }

  lemma SliceOfSlice(s: string, a: nat, e: nat, c: nat, d: nat)
    requires a <= e <= |s| && c <= d <= e - a
    ensures s[a..e][c..d] == s[a + c..a + d]
  {
    forall i | 0 <= i < d - c ensures s[a..e][c..d][i] == s[a + c..a + d][i] {
      assert s[a..e][c..d][i] == s[a..e][c + i];
    }
  }

  /** Every address the recruitment form accepts is also accepted by the demo check. */
  lemma StrictImpliesDemo(s: string)
    requires ValidateEmail(s)
    ensures DemoEmailAccepted(s)
  {
    var k, j :| StrictSplit(s, k, j);
    assert s[k - 1] == s[..k][k - 1];
    assert s[j + 1] == s[j + 1..][0];
    assert AddressRun(s[k + 1..j]);
    assert LooseAt(s, k, j);
  }

  /** The converse fails: text around an address passes the unanchored check but not the anchored one. */
  lemma DemoAcceptsSurroundingText()
    ensures DemoEmailAccepted("x y@a.b") && !ValidateEmail("x y@a.b")
  {
    var s := "x y@a.b";
    assert LooseAt(s, 3, 5);
    assert BeforeFirst(s, '@') == "x y";
    assert !AddressRun(s[..3]) by { assert IsSpace(s[..3][1]); }
  }
}
