/**
 * The parts of JavaScript's `Array.prototype` the client relies on:
 * `filter` (the search results and the "my borrows" view) and `find`
 * (the restore of a persisted wallet session).
 */
module JsArray {
  import opened Wrappers

  /** `s.filter(keep)`: the elements that satisfy `keep`, in their original order. */
  function Filter<T>(s: seq<T>, keep: T -> bool): (r: seq<T>)
    ensures |r| <= |s|
    ensures forall i :: 0 <= i < |r| ==> r[i] in s && keep(r[i])
    ensures forall i :: 0 <= i < |s| && keep(s[i]) ==> s[i] in r
  {
    if s == [] then []
    else if keep(s[0]) then [s[0]] + Filter(s[1..], keep)
    else Filter(s[1..], keep)
  }

  /** `r` is `s` with some elements dropped and the rest kept in order. */
  ghost predicate IsSubsequence<T>(r: seq<T>, s: seq<T>)
    decreases |s|
  {
    if r == [] then true
    else if s == [] then false
    else (r[0] == s[0] && IsSubsequence(r[1..], s[1..])) || IsSubsequence(r, s[1..])
  }

  /** `s.find(matches)`: the first element that matches, or nothing. */
  function Find<T>(s: seq<T>, matches: T -> bool): (r: Option<T>)
    ensures r.None? <==> forall i :: 0 <= i < |s| ==> !matches(s[i])
    ensures r.Some? ==> exists i :: 0 <= i < |s| && s[i] == r.value && matches(s[i]) && IsFirstMatch(s, matches, i)
  {
    match FirstMatch(s, matches)
    case None => None
    case Some(i) => Some(s[i])
  }

  /** The position `find` stops at. */
  function FirstMatch<T>(s: seq<T>, matches: T -> bool): (r: Option<nat>)
    ensures r.Some? ==> r.value < |s| && matches(s[r.value]) && IsFirstMatch(s, matches, r.value)
    ensures r.None? ==> forall i :: 0 <= i < |s| ==> !matches(s[i])
  {
    if s == [] then None
    else if matches(s[0]) then Some(0)
    else match FirstMatch(s[1..], matches)
      case None => None
      case Some(i) => Some(i + 1)
  }

  /** No element before index `i` matches. */
  ghost predicate IsFirstMatch<T>(s: seq<T>, matches: T -> bool, i: int)
    requires 0 <= i <= |s|
  {
    forall j :: 0 <= j < i ==> !matches(s[j])
  }

  /** A subsequence never holds more copies of a value than the sequence it is taken from. */
  lemma {:induction false} SubsequenceCounts<T>(r: seq<T>, s: seq<T>)
    requires IsSubsequence(r, s)
    ensures forall x :: multiset(r)[x] <= multiset(s)[x]
    decreases |s|
  {
    if r != [] {
      assert s == [s[0]] + s[1..];
      if r[0] == s[0] && IsSubsequence(r[1..], s[1..]) {
        SubsequenceCounts(r[1..], s[1..]);
        assert r == [r[0]] + r[1..];
      } else {
        SubsequenceCounts(r, s[1..]);
      }
    }
  }

  /** `filter` keeps its elements in order. */
  lemma {:induction false} FilterIsSubsequence<T>(s: seq<T>, keep: T -> bool)
    ensures IsSubsequence(Filter(s, keep), s)
  {
    if s != [] {
      FilterIsSubsequence(s[1..], keep);
      var r := Filter(s, keep);
      if keep(s[0]) {
        assert r[0] == s[0] && r[1..] == Filter(s[1..], keep);
      }
    }
  }

  /** `filter` keeps every copy of a kept value and no copy of a dropped one. */
  lemma {:induction false} FilterCounts<T>(s: seq<T>, keep: T -> bool)
    ensures forall x :: multiset(Filter(s, keep))[x] == if keep(x) then multiset(s)[x] else 0
  {
    if s != [] {
      FilterCounts(s[1..], keep);
      assert s == [s[0]] + s[1..];
    }
  }

  /**
   * The result of `filter` is the ONLY in-order subsequence that keeps every
   * copy of the kept values and drops the others.
   */
  lemma {:induction false} FilterUnique<T>(r: seq<T>, s: seq<T>, keep: T -> bool)
    requires IsSubsequence(r, s)
    requires forall x :: multiset(r)[x] == if keep(x) then multiset(s)[x] else 0
    ensures r == Filter(s, keep)
    decreases |s|
  {
    if s == [] {
      assert r == [];
    } else {
      var h, t := s[0], s[1..];
      assert s == [h] + t;
      assert multiset(s)[h] == multiset(t)[h] + 1;
      if keep(h) {
        assert multiset(r)[h] > 0;
        assert r != [];
        if !(r[0] == h && IsSubsequence(r[1..], t)) {
          assert IsSubsequence(r, t);
          SubsequenceCounts(r, t);
          assert false;
        }
        assert r == [h] + r[1..];
        forall x
          ensures multiset(r[1..])[x] == if keep(x) then multiset(t)[x] else 0
        {
          assert multiset(r)[x] == multiset(r[1..])[x] + (if x == h then 1 else 0);
          assert multiset(s)[x] == multiset(t)[x] + (if x == h then 1 else 0);
        }
        FilterUnique(r[1..], t, keep);
      } else {
        assert multiset(r)[h] == 0;
        if r != [] {
          assert r == [r[0]] + r[1..];
          assert r[0] != h;
        }
        assert IsSubsequence(r, t);
        forall x
          ensures multiset(r)[x] == if keep(x) then multiset(t)[x] else 0
        {
          assert multiset(s)[x] == multiset(t)[x] + (if x == h then 1 else 0);
        }
        FilterUnique(r, t, keep);
      }
    }
  }

  /** Filtering a concatenation filters each part. */
  lemma {:induction false} FilterAppend<T>(a: seq<T>, b: seq<T>, keep: T -> bool)
    ensures Filter(a + b, keep) == Filter(a, keep) + Filter(b, keep)
  {
    if a == [] {
      assert a + b == b;
    } else {
      assert (a + b)[0] == a[0];
      assert (a + b)[1..] == a[1..] + b;
      FilterAppend(a[1..], b, keep);
    }
  }

  /** When every element is kept, `filter` returns its input. */
  lemma {:induction false} FilterKeepsAll<T>(s: seq<T>, keep: T -> bool)
    requires forall i :: 0 <= i < |s| ==> keep(s[i])
    ensures Filter(s, keep) == s
  {
    if s != [] {
      FilterKeepsAll(s[1..], keep);
      assert s == [s[0]] + s[1..];
    }
  }

  /** Two tests that agree on every element give the same result. */
  lemma {:induction false} FilterAgrees<T>(s: seq<T>, keep: T -> bool, keep': T -> bool)
    requires forall i :: 0 <= i < |s| ==> keep(s[i]) == keep'(s[i])
    ensures Filter(s, keep) == Filter(s, keep')
  {
    if s != [] {
      FilterAgrees(s[1..], keep, keep');
    }
  }

  /** Filtering twice with the same test changes nothing. */
  lemma FilterIdempotent<T>(s: seq<T>, keep: T -> bool)
    ensures Filter(Filter(s, keep), keep) == Filter(s, keep)
  {
    var r := Filter(s, keep);
    assert forall i :: 0 <= i < |r| ==> r[i] in r;
    FilterKeepsAll(r, keep);
  }
}
