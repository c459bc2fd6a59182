/**
 The string primitives the pages rely on, over `string` = `seq<char>`:
 the `\s` character class, `trim`, ASCII `toLowerCase`, `includes`, `split(c)[0]`,
 `replace(' ', '_')` (first occurrence only), `replace(/\s+/g, c)` and `padStart`.
 */
module Text {
  import opened Wrappers

  /** The whitespace class `\s` and `String.prototype.trim`, restricted to ASCII. */
  predicate IsSpace(c: char) {
    c == ' ' || c == '\t' || c == '\n' || c == '\r' || c == '\U{000B}' || c == '\U{000C}'
  }

  predicate NoSpace(s: string) {
    forall i :: 0 <= i < |s| ==> !IsSpace(s[i])
  }

  lemma NoSpaceJoin(a: string, b: string)
    requires NoSpace(a) && NoSpace(b)
    ensures NoSpace(a + b)
  {
    forall i | 0 <= i < |a + b| ensures !IsSpace((a + b)[i]) {
      if i >= |a| { assert (a + b)[i] == b[i - |a|]; }
    }
  }

  /** Whitespace only (or empty): the strings whose `trim()` is falsy. */
  predicate IsBlank(s: string) {
    forall i :: 0 <= i < |s| ==> IsSpace(s[i])
  }

  /** Only whitespace between positions `lo` and `hi` of `s`. */
  predicate BlankBetween(s: string, lo: int, hi: int)
    requires 0 <= lo <= hi <= |s|
  {
    forall i :: lo <= i < hi ==> IsSpace(s[i])
  }

  /** Leading whitespace removed. */
  function TrimStart(s: string): (r: string)
    ensures |r| <= |s| && r == s[|s| - |r|..]
    ensures BlankBetween(s, 0, |s| - |r|)
    ensures |r| > 0 ==> !IsSpace(r[0])
  {
    if |s| > 0 && IsSpace(s[0]) then TrimStart(s[1..]) else s
  }

  /** The first position at or after `i` that does not hold whitespace, or `|s|`. */
  function SkipSpaces(s: string, i: nat): (k: nat)
    requires i <= |s|
    ensures i <= k <= |s| && BlankBetween(s, i, k)
    ensures k < |s| ==> !IsSpace(s[k])
    decreases |s| - i
  {
    if i < |s| && IsSpace(s[i]) then SkipSpaces(s, i + 1) else i
  }

  /** The end of `s[lo..j]` once its trailing whitespace is dropped. */
  function DropTrailingSpaces(s: string, lo: nat, j: nat): (k: nat)
    requires lo <= j <= |s|
    ensures lo <= k <= j && BlankBetween(s, k, j)
    ensures k > lo ==> !IsSpace(s[k - 1])
    decreases j
  {
    if j > lo && IsSpace(s[j - 1]) then DropTrailingSpaces(s, lo, j - 1) else j
  }

  /** `String.prototype.trim`: the slice `s[a..a + |r|]` with only whitespace outside it. */
  function Trim(s: string): (r: string)
    ensures var a := SkipSpaces(s, 0);
            a + |r| <= |s| && r == s[a..a + |r|] && BlankBetween(s, 0, a) && BlankBetween(s, a + |r|, |s|)
    ensures |r| > 0 ==> !IsSpace(r[0]) && !IsSpace(r[|r| - 1])
  {
    var a := SkipSpaces(s, 0);
    var e := DropTrailingSpaces(s, a, |s|);
    s[a..e]
  }

  /** The trimmed string is empty exactly for blank input: `!s.trim()` is the blank test. */
  lemma TrimEmptyIffBlank(s: string)
    ensures Trim(s) == [] <==> IsBlank(s)
  {
    var a := SkipSpaces(s, 0);
    if Trim(s) != [] {
      assert s[a] == Trim(s)[0];
    }
  }

  /** Trimming a string without whitespace gives it back unchanged. */
  lemma TrimNoSpace(s: string)
    requires NoSpace(s)
    ensures Trim(s) == s
  {
    assert SkipSpaces(s, 0) == 0;
    assert DropTrailingSpaces(s, 0, |s|) == |s|;
  }

  /** ASCII `toLowerCase` of one character. */
  function LowerChar(c: char): (d: char)
    ensures 'A' <= c <= 'Z' ==> 'a' <= d <= 'z' && d as int - c as int == 32
    ensures !('A' <= c <= 'Z') ==> d == c
  {
    if 'A' <= c <= 'Z' then (c as int + 32) as char else c
  }

  /** ASCII `String.prototype.toLowerCase`. */
  function Lower(s: string): (r: string)
    ensures |r| == |s|
    ensures forall i :: 0 <= i < |s| ==> r[i] == LowerChar(s[i])
  {
    if s == [] then [] else [LowerChar(s[0])] + Lower(s[1..])
  }

  /** Lowercasing is idempotent: lowering an already lowered string changes nothing. */
  lemma LowerIdempotent(s: string)
    ensures Lower(Lower(s)) == Lower(s)
  {
    var l := Lower(s);
    assert forall i :: 0 <= i < |l| ==> LowerChar(l[i]) == l[i];
  }

  /** Lowercasing works character by character, so it distributes over concatenation. */
  lemma {:induction false} LowerAppend(a: string, b: string)
    ensures Lower(a + b) == Lower(a) + Lower(b)
  {
    if a == [] {
      assert a + b == b;
    } else {
      assert (a + b)[0] == a[0] && (a + b)[1..] == a[1..] + b;
      LowerAppend(a[1..], b);
      JoinAssoc([LowerChar(a[0])], Lower(a[1..]), Lower(b));
    }
  }

  lemma LowerJoin(a: string, w: string, b: string)
    ensures Lower(a + w + b) == Lower(a) + Lower(w) + Lower(b)
  {
    LowerAppend(a, w);
    LowerAppend(a + w, b);
  }

  /** Lowercasing never touches whitespace. */
  lemma LowerKeepsSpaces(s: string)
    ensures forall i :: 0 <= i < |s| ==> (IsSpace(Lower(s)[i]) <==> IsSpace(s[i]))
  {
  }

  /** `pat` occurs in `text` at position `i`. */
  predicate OccursAt(text: string, pat: string, i: nat) {
    i + |pat| <= |text| && text[i..i + |pat|] == pat
  }

  /** `String.prototype.includes`, as a statement: some position holds `pat`. */
  ghost predicate Contains(text: string, pat: string) {
    exists i: nat :: OccursAt(text, pat, i)
  }

  /** `String.prototype.indexOf` for a substring: a left-to-right scan. */
  function IndexOf(text: string, pat: string, from: nat): (r: Option<nat>)
    requires from <= |text|
    ensures r.Some? ==> from <= r.value && OccursAt(text, pat, r.value)
    ensures r.Some? ==> forall i :: from <= i < r.value ==> !OccursAt(text, pat, i)
    ensures r.None? ==> forall i :: from <= i ==> !OccursAt(text, pat, i)
    decreases |text| - from
  {
    if OccursAt(text, pat, from) then Some(from)
    else if from + |pat| >= |text| then
      assert forall i :: from < i ==> !OccursAt(text, pat, i);
      None
    else IndexOf(text, pat, from + 1)
  }

  /** `text.includes(pat)`, computed by the scan. */
  predicate Includes(text: string, pat: string)
  {
    IndexOf(text, pat, 0).Some?
  }

  /** The scan finds an occurrence exactly when one exists. */
  lemma IncludesIffContains(text: string, pat: string)
    ensures Includes(text, pat) <==> Contains(text, pat)
  {
    var r := IndexOf(text, pat, 0);
    if r.Some? { assert OccursAt(text, pat, r.value); }
  }

  /** The empty string occurs in every string, so an empty search term matches everything. */
  lemma IncludesEmpty(text: string)
    ensures Includes(text, [])
  {
    assert OccursAt(text, [], 0);
  }

  /** The case-insensitive search of the pages: `a.toLowerCase().includes(b.toLowerCase())`. */
  predicate IncludesIgnoringCase(text: string, term: string) {
    Includes(Lower(text), Lower(term))
  }

  lemma IncludesIgnoringCaseEmpty(text: string)
    ensures IncludesIgnoringCase(text, [])
  {
    IncludesEmpty(Lower(text));
  }

  /** `s.split(c)[0]`: the text before the first `c`, or all of `s` when there is none. */
  function BeforeFirst(s: string, c: char): (r: string)
    ensures |r| <= |s| && r == s[..|r|]
    ensures c !in r
    ensures |r| < |s| ==> s[|r|] == c
  {
    if s == [] || s[0] == c then [] else [s[0]] + BeforeFirst(s[1..], c)
  }

  /** Appending text after a `c` does not change what comes before the first `c`. */
  lemma {:induction false} BeforeFirstOfJoin(a: string, c: char, b: string)
    requires c !in a
    ensures BeforeFirst(a + [c] + b, c) == a
  {
    if a != [] {
      assert (a + [c] + b)[1..] == a[1..] + [c] + b;
      BeforeFirstOfJoin(a[1..], c, b);
    }
  }

  /** The position of the first `x` in `s`, or `|s|` when there is none. */
  function FirstPos(s: string, x: char): (k: nat)
    ensures k <= |s| && x !in s[..k]
    ensures k < |s| <==> x in s
    ensures k < |s| ==> s[k] == x
  {
    if s == [] then 0
    else if s[0] == x then 0
    else
      var k := FirstPos(s[1..], x);
      assert s[..k + 1] == [s[0]] + s[1..][..k];
      k + 1
  }

  /** `s.replace(x, y)` with a one-character string pattern: only the first `x` is replaced. */
  function ReplaceFirst(s: string, x: char, y: char): (r: string)
    ensures |r| == |s|
    ensures x !in s ==> r == s
    ensures x in s ==> exists k :: 0 <= k < |s| && s[k] == x && x !in s[..k]
                                   && r == s[..k] + [y] + s[k + 1..]
  {
    var k := FirstPos(s, x);
    if k == |s| then s else s[..k] + [y] + s[k + 1..]
  }

  /** Only the first `x` is replaced: what precedes it is kept, and so is what follows. */
  lemma ReplaceFirstAt(a: string, x: char, b: string, y: char)
    requires x !in a
    ensures ReplaceFirst(a + [x] + b, x, y) == a + [y] + b
  {
    var s := a + [x] + b;
    var k := FirstPos(s, x);
    assert s[|a|] == x;
    assert s[..k] == a && s[k + 1..] == b;
  }

  /** `s.replace(/\s+/g, c)`: every maximal run of whitespace becomes one `c`. */
  function CollapseSpaces(s: string, c: char): (r: string)
    ensures |r| <= |s|
    ensures !IsSpace(c) ==> NoSpace(r)
    ensures NoSpace(s) ==> r == s
    decreases |s|
  {
    if s == [] then []
    else if IsSpace(s[0]) then [c] + CollapseSpaces(TrimStart(s), c)
    else [s[0]] + CollapseSpaces(s[1..], c)
  }

  /** The characters of `s` that are neither whitespace nor `c`, in order. */
  function Solid(s: string, c: char): (r: string)
    ensures |r| <= |s|
  {
    if s == [] then []
    else if IsSpace(s[0]) || s[0] == c then Solid(s[1..], c)
    else [s[0]] + Solid(s[1..], c)
  }

  lemma {:induction false} SolidOfBlankPrefix(s: string, c: char, k: nat)
    requires k <= |s| && BlankBetween(s, 0, k)
    ensures Solid(s, c) == Solid(s[k..], c)
  {
    if k > 0 {
      assert s[..k][0] == s[0];
      assert s[1..][..k - 1] == s[..k][1..];
      SolidOfBlankPrefix(s[1..], c, k - 1);
      assert s[1..][k - 1..] == s[k..];
    }
  }

  /** Collapsing whitespace into `c` keeps every other character, in order: nothing is lost but whitespace. */
  lemma {:induction false} CollapseKeepsSolid(s: string, c: char)
    ensures Solid(CollapseSpaces(s, c), c) == Solid(s, c)
    decreases |s|
  {
    if s != [] {
      if IsSpace(s[0]) {
        var t := TrimStart(s);
        CollapseKeepsSolid(t, c);
        SolidOfBlankPrefix(s, c, |s| - |t|);
        assert ([c] + CollapseSpaces(t, c))[1..] == CollapseSpaces(t, c);
      } else {
        CollapseKeepsSolid(s[1..], c);
        assert ([s[0]] + CollapseSpaces(s[1..], c))[1..] == CollapseSpaces(s[1..], c);
      }
    }
  }

  /** Leading whitespace removed from a string that holds a non-space character keeps whatever follows it. */
  lemma {:induction false} TrimStartJoin(a: string, b: string)
    requires |a| > 0 && !IsSpace(a[|a| - 1])
    ensures TrimStart(a + b) == TrimStart(a) + b
  {
    if IsSpace(a[0]) {
      assert (a + b)[1..] == a[1..] + b;
      TrimStartJoin(a[1..], b);
    }
  }

  /** A blank prefix is dropped entirely when a non-space character follows it. */
  lemma {:induction false} TrimStartBlank(w: string, b: string)
    requires IsBlank(w) && (b == [] || !IsSpace(b[0]))
    ensures TrimStart(w + b) == b
  {
    if w != [] {
      assert (w + b)[1..] == w[1..] + b;
      TrimStartBlank(w[1..], b);
    }
  }

  /** Collapsing is done piecewise when the first piece ends in a non-space character. */
  lemma {:induction false} CollapseJoin(a: string, b: string, c: char)
    requires a == [] || !IsSpace(a[|a| - 1])
    ensures CollapseSpaces(a + b, c) == CollapseSpaces(a, c) + CollapseSpaces(b, c)
    decreases |a|
  {
    if a == [] {
      assert a + b == b;
    } else {
      var y := CollapseSpaces(b, c);
      if IsSpace(a[0]) {
        var t := TrimStart(a);
        assert |t| > 0 && t[|t| - 1] == a[|a| - 1];
        CollapseSpaceHead(a, b, c);
        CollapseJoin(t, b, c);
        var x := CollapseSpaces(t, c);
        JoinAssoc([c], x, y);
      } else {
        var u := a[1..];
        CollapseSolidHead(a, b, c);
        CollapseJoin(u, b, c);
        var x := CollapseSpaces(u, c);
        JoinAssoc([a[0]], x, y);
      }
    }
  }

  lemma JoinAssoc(p: string, x: string, y: string)
    ensures p + (x + y) == p + x + y
  {
  }

  lemma CollapseSpaceHead(a: string, b: string, c: char)
    requires |a| > 0 && IsSpace(a[0]) && !IsSpace(a[|a| - 1])
    ensures CollapseSpaces(a + b, c) == [c] + CollapseSpaces(TrimStart(a) + b, c)
    ensures CollapseSpaces(a, c) == [c] + CollapseSpaces(TrimStart(a), c)
  {
    assert (a + b)[0] == a[0];
    TrimStartJoin(a, b);
  }

  lemma CollapseSolidHead(a: string, b: string, c: char)
    requires |a| > 0 && !IsSpace(a[0])
    ensures CollapseSpaces(a + b, c) == [a[0]] + CollapseSpaces(a[1..] + b, c)
    ensures CollapseSpaces(a, c) == [a[0]] + CollapseSpaces(a[1..], c)
  {
    assert (a + b)[0] == a[0];
    assert (a + b)[1..] == a[1..] + b;
  }

  /** A run of whitespace followed by a non-space character (or nothing) becomes one `c`. */
  lemma CollapseRun(w: string, b: string, c: char)
    requires |w| > 0 && IsBlank(w) && (b == [] || !IsSpace(b[0]))
    ensures CollapseSpaces(w + b, c) == [c] + CollapseSpaces(b, c)
  {
    TrimStartBlank(w, b);
  }

  /** A non-empty run of whitespace on its own becomes exactly one `c`. */
  lemma CollapseBlank(w: string, c: char)
    requires |w| > 0 && IsBlank(w)
    ensures CollapseSpaces(w, c) == [c]
  {
    CollapseRun(w, [], c);
    assert w + [] == w;
  }

  /**
   `replace(/\s+/g, c)` on `a`, a maximal whitespace run `w`, then `b`: the run becomes one `c`
   and the two sides are collapsed on their own.
   */
  lemma CollapseBetween(a: string, w: string, b: string, c: char)
    requires a == [] || !IsSpace(a[|a| - 1])
    requires |w| > 0 && IsBlank(w) && (b == [] || !IsSpace(b[0]))
    ensures CollapseSpaces(a + w + b, c) == CollapseSpaces(a, c) + [c] + CollapseSpaces(b, c)
  {
    JoinAssoc(a, w, b);
    CollapseJoin(a, w + b, c);
    CollapseRun(w, b, c);
    JoinAssoc(CollapseSpaces(a, c), [c], CollapseSpaces(b, c));
  }

  /** `n` copies of `c`. */
  function Repeat(c: char, n: nat): (r: string)
    ensures |r| == n && forall i :: 0 <= i < n ==> r[i] == c
  {
    if n == 0 then [] else [c] + Repeat(c, n - 1)
  }

  /** `s.padStart(n, c)` with a one-character fill. */
  function PadStart(s: string, n: nat, c: char): (r: string)
    ensures |s| >= n ==> r == s
    ensures |s| < n ==> |r| == n && r[n - |s|..] == s
                        && forall i :: 0 <= i < n - |s| ==> r[i] == c
  {
    if |s| >= n then s else Repeat(c, n - |s|) + s
  }
}
