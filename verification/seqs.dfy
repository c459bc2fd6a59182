/**
 Order-preserving filtering and first-match lookup over sequences: the `Array.filter`,
 `Array.find` and `filter(...).length` idioms the pages use for every list view.
 */
module Seqs {
  import opened Wrappers

  /** `a` can be obtained from `b` by deleting elements, keeping the order of the rest. */
  ghost predicate Subsequence<T>(a: seq<T>, b: seq<T>)
    decreases |b|
  {
    if a == [] then true
    else if b == [] then false
    else if a[0] == b[0] then Subsequence(a[1..], b[1..])
    else Subsequence(a, b[1..])
  }

  /** What `Filter(s, p)` returns, clause by clause. */
  ghost predicate FilterSpec<T>(s: seq<T>, p: T -> bool, r: seq<T>) {
    && |r| <= |s|
    && (forall i :: 0 <= i < |r| ==> r[i] in s && p(r[i]))
    && (forall i :: 0 <= i < |s| ==> (s[i] in r <==> p(s[i])))
    && Subsequence(r, s)
    && (forall i :: 0 <= i < |s| ==> multiset(r)[s[i]] == if p(s[i]) then multiset(s)[s[i]] else 0)
  }

  /** `Array.prototype.filter`: the elements satisfying `p`, in their original order. */
  function Filter<T>(s: seq<T>, p: T -> bool): (r: seq<T>)
    ensures |r| <= |s|
    ensures forall i :: 0 <= i < |r| ==> r[i] in s && p(r[i])
    ensures forall i :: 0 <= i < |s| ==> (s[i] in r <==> p(s[i]))
    ensures Subsequence(r, s)
    ensures forall i :: 0 <= i < |s| ==> multiset(r)[s[i]] == if p(s[i]) then multiset(s)[s[i]] else 0
  {
    if s == [] then []
    else
      var rest := Filter(s[1..], p);
      assert FilterSpec(s[1..], p, rest);
      FilterCons(s, p, rest);
      if p(s[0]) then [s[0]] + rest else rest
  }

  /** The clauses of `Filter` carry over from the tail to the whole sequence. */
  lemma FilterCons<T>(s: seq<T>, p: T -> bool, rest: seq<T>)
    requires |s| > 0 && FilterSpec(s[1..], p, rest)
    ensures var r := if p(s[0]) then [s[0]] + rest else rest;
            |r| <= |s| && Subsequence(r, s)
    ensures var r := if p(s[0]) then [s[0]] + rest else rest;
            forall i :: 0 <= i < |r| ==> r[i] in s && p(r[i])
    ensures var r := if p(s[0]) then [s[0]] + rest else rest;
            forall i :: 0 <= i < |s| ==> (s[i] in r <==> p(s[i]))
    ensures var r := if p(s[0]) then [s[0]] + rest else rest;
            forall i :: 0 <= i < |s| ==> multiset(r)[s[i]] == if p(s[i]) then multiset(s)[s[i]] else 0
  {
    var x, t := s[0], s[1..];
    var r := if p(x) then [x] + rest else rest;
    assert s == [x] + t;
    SubsequenceCons(s, p, rest);
    forall i | 0 <= i < |r| ensures r[i] in s && p(r[i]) {
      if p(x) && i > 0 { assert r[i] == rest[i - 1]; }
    }
    forall i | 0 <= i < |s| ensures s[i] in r <==> p(s[i]) {
      if i > 0 { assert s[i] == t[i - 1]; }
    }
    MultiplicityCons(s, p, rest);
  }

  lemma SubsequenceCons<T>(s: seq<T>, p: T -> bool, rest: seq<T>)
    requires |s| > 0 && Subsequence(rest, s[1..])
    requires forall i :: 0 <= i < |rest| ==> p(rest[i])
    ensures Subsequence(if p(s[0]) then [s[0]] + rest else rest, s)
  {
    if p(s[0]) {
      var r := [s[0]] + rest;
      assert r[0] == s[0] && r[1..] == rest;
    } else if rest != [] {
      assert p(rest[0]);
    }
  }

  /** The multiplicity clause of `Filter` carries over from the tail to the whole sequence. */
  lemma MultiplicityCons<T>(s: seq<T>, p: T -> bool, rest: seq<T>)
    requires |s| > 0
    requires forall i :: 0 <= i < |rest| ==> rest[i] in s[1..]
    requires forall i :: 0 <= i < |s| - 1 ==> multiset(rest)[s[1..][i]] == if p(s[1..][i]) then multiset(s[1..])[s[1..][i]] else 0
    ensures var r := if p(s[0]) then [s[0]] + rest else rest;
            forall i :: 0 <= i < |s| ==> multiset(r)[s[i]] == if p(s[i]) then multiset(s)[s[i]] else 0
  {
    var x, t := s[0], s[1..];
    assert s == [x] + t;
    var r := if p(x) then [x] + rest else rest;
    assert multiset(s) == multiset([x]) + multiset(t);
    assert p(x) ==> multiset(r) == multiset([x]) + multiset(rest);
    forall i | 0 <= i < |s| ensures multiset(r)[s[i]] == if p(s[i]) then multiset(s)[s[i]] else 0 {
      if i == 0 {
        if x in t {
          var j :| 0 <= j < |t| && t[j] == x;
        } else {
          assert x !in rest;
        }
      } else {
        assert s[i] == t[i - 1];
      }
    }
  }

  /** `s.filter(p).length`. */
  function Count<T>(s: seq<T>, p: T -> bool): (n: nat)
    ensures n <= |s|
  {
    |Filter(s, p)|
  }

  /** A filter that rejects nothing returns its input unchanged. */
  lemma {:induction false} FilterKeepsAll<T>(s: seq<T>, p: T -> bool)
    requires forall i :: 0 <= i < |s| ==> p(s[i])
    ensures Filter(s, p) == s
  {
    if s != [] {
      FilterKeepsAll(s[1..], p);
    }
  }

  /** Two tests that agree on every element filter alike. */
  lemma {:induction false} FilterSameTest<T>(s: seq<T>, p: T -> bool, q: T -> bool)
    requires forall i :: 0 <= i < |s| ==> p(s[i]) == q(s[i])
    ensures Filter(s, p) == Filter(s, q)
  {
    if s != [] {
      FilterSameTest(s[1..], p, q);
    }
  }

  /** A filter keeps every element exactly when its count equals the length. */
  lemma {:induction false} CountIsLengthIffAll<T>(s: seq<T>, p: T -> bool)
    ensures Count(s, p) == |s| <==> forall i :: 0 <= i < |s| ==> p(s[i])
  {
    if s != [] {
      CountIsLengthIffAll(s[1..], p);
      if Count(s, p) == |s| {
        assert p(s[0]);
        forall i | 0 <= i < |s| ensures p(s[i]) {
          if i > 0 { assert s[i] == s[1..][i - 1]; }
        }
      }
      if forall i :: 0 <= i < |s| ==> p(s[i]) {
        FilterKeepsAll(s, p);
      }
    }
  }

  /** A count is zero exactly when no element satisfies the predicate. */
  lemma CountIsZeroIffNone<T>(s: seq<T>, p: T -> bool)
    ensures Count(s, p) == 0 <==> forall i :: 0 <= i < |s| ==> !p(s[i])
  {
    if Count(s, p) == 0 {
      forall i | 0 <= i < |s| ensures !p(s[i]) {
        assert s[i] in s;
      }
    } else {
      var r := Filter(s, p);
      assert r[0] in r;
    }
  }

  /** Filtering by `p` and by its negation splits the sequence: the two sizes add up to its length. */
  lemma {:induction false} FilterPartition<T>(s: seq<T>, p: T -> bool, q: T -> bool)
    requires forall i :: 0 <= i < |s| ==> p(s[i]) != q(s[i])
    ensures |Filter(s, p)| + |Filter(s, q)| == |s|
  {
    if s != [] {
      FilterPartition(s[1..], p, q);
    }
  }

  /** `Array.prototype.findIndex` without the -1: the position of the first element satisfying `p`. */
  function FindIndex<T>(s: seq<T>, p: T -> bool): (r: Option<nat>)
    ensures r.None? <==> forall i :: 0 <= i < |s| ==> !p(s[i])
    ensures r.Some? ==> r.value < |s| && p(s[r.value])
                        && forall i :: 0 <= i < r.value ==> !p(s[i])
  {
    if s == [] then None
    else if p(s[0]) then Some(0)
    else
      match FindIndex(s[1..], p)
      case None =>
        assert forall i :: 1 <= i < |s| ==> !p(s[i]) by {
          forall i | 1 <= i < |s| ensures !p(s[i]) { assert s[i] == s[1..][i - 1]; }
        }
        None
      case Some(k) =>
        assert forall i :: 0 <= i < k + 1 ==> !p(s[i]) by {
          forall i | 0 <= i < k + 1 ensures !p(s[i]) {
            if i > 0 { assert s[i] == s[1..][i - 1]; }
          }
        }
        Some(k + 1)
  }

  /** `Array.prototype.find`: the first element satisfying `p`, if any. */
  function Find<T>(s: seq<T>, p: T -> bool): (r: Option<T>)
    ensures r.None? <==> forall i :: 0 <= i < |s| ==> !p(s[i])
    ensures r.Some? ==> exists k :: 0 <= k < |s| && s[k] == r.value && p(s[k])
                                  && forall i :: 0 <= i < k ==> !p(s[i])
  {
    match FindIndex(s, p)
    case None => None
    case Some(k) => Some(s[k])
  }
}
