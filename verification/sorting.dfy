/**
 * Python's `sorted(...)` / `list.sort(...)` (a stable sort under a key order) and
 * `sorted(set(...))` on integers, plus the median that numpy computes over a sorted list.
 * A sort order is given as a "comes no later than" relation `le`, which must be a total
 * preorder (total and transitive), exactly what comparing sort keys gives.
 */
module Sorting {

  ghost predicate TotalPreorder<T(!new)>(le: (T, T) -> bool) {
    (forall a, b :: le(a, b) || le(b, a)) &&
    (forall a, b, c :: le(a, b) && le(b, c) ==> le(a, c))
  }

  ghost predicate Sorted<T>(s: seq<T>, le: (T, T) -> bool) {
    forall i, j :: 0 <= i < j < |s| ==> le(s[i], s[j])
  }

  /** Stable insertion of `x` after every element that may come before it. */
  function Insert<T>(t: seq<T>, x: T, le: (T, T) -> bool): (r: seq<T>)
    ensures |r| == |t| + 1
    ensures multiset(r) == multiset(t) + multiset{x}
  {
    if t == [] then [x]
    else if le(t[|t| - 1], x) then t + [x]
    else
      var init := t[..|t| - 1];
      assert t == init + [t[|t| - 1]];
      Insert(init, x, le) + [t[|t| - 1]]
  }

  /** A stable sort: insertion of each element in input order. */
  function SortBy<T>(s: seq<T>, le: (T, T) -> bool): (r: seq<T>)
    ensures |r| == |s|
    ensures multiset(r) == multiset(s)
  {
    if s == [] then []
    else
      assert s == s[..|s| - 1] + [s[|s| - 1]];
      Insert(SortBy(s[..|s| - 1], le), s[|s| - 1], le)
  }

  lemma {:induction false} InsertSorted<T(!new)>(t: seq<T>, x: T, le: (T, T) -> bool)
    requires TotalPreorder(le) && Sorted(t, le)
    ensures Sorted(Insert(t, x, le), le)
    decreases |t|
  {
    if t != [] && !le(t[|t| - 1], x) {
      var init, last := t[..|t| - 1], t[|t| - 1];
      assert Sorted(init, le);
      InsertSorted(init, x, le);
      var m := Insert(init, x, le);
      assert forall k :: 0 <= k < |init| ==> le(init[k], last) by {
        forall k | 0 <= k < |init| ensures le(init[k], last) {
          assert init[k] == t[k];
        }
      }
      InsertBelow(init, x, last, le);
      SortedSnoc(m, last, le);
    }
  }

  /** Inserting an element that may come before `last` into a list whose every element may come
      before `last` keeps that so. */
  lemma InsertBelow<T>(init: seq<T>, x: T, last: T, le: (T, T) -> bool)
    requires le(x, last)
    requires forall k :: 0 <= k < |init| ==> le(init[k], last)
    ensures forall i :: 0 <= i < |Insert(init, x, le)| ==> le(Insert(init, x, le)[i], last)
  {
    var m := Insert(init, x, le);
    forall i | 0 <= i < |m| ensures le(m[i], last) {
      assert m[i] in multiset(init) + multiset{x};
      if m[i] in multiset(init) {
        var k :| 0 <= k < |init| && init[k] == m[i];
      }
    }
  }

  lemma SortedSnoc<T>(m: seq<T>, last: T, le: (T, T) -> bool)
    requires Sorted(m, le)
    requires forall i :: 0 <= i < |m| ==> le(m[i], last)
    ensures Sorted(m + [last], le)
  {
  }

  lemma {:induction false} SortBySorted<T(!new)>(s: seq<T>, le: (T, T) -> bool)
    requires TotalPreorder(le)
    ensures Sorted(SortBy(s, le), le)
    decreases |s|
  {
    if s != [] {
      SortBySorted(s[..|s| - 1], le);
      InsertSorted(SortBy(s[..|s| - 1], le), s[|s| - 1], le);
    }
  }

  /** The index of the first element that may come before every element. */
  function FirstLeast<T>(s: seq<T>, le: (T, T) -> bool): (r: nat)
    requires s != []
    ensures r < |s|
  {
    if |s| == 1 then 0
    else
      var i := FirstLeast(s[..|s| - 1], le);
      if le(s[i], s[|s| - 1]) then i else |s| - 1
  }

  lemma {:induction false} FirstLeastIsLeast<T(!new)>(s: seq<T>, le: (T, T) -> bool)
    requires TotalPreorder(le) && s != []
    ensures forall j :: 0 <= j < |s| ==> le(s[FirstLeast(s, le)], s[j])
    ensures forall k :: 0 <= k < FirstLeast(s, le) ==> !le(s[k], s[FirstLeast(s, le)])
    decreases |s|
  {
    if |s| > 1 {
      var init := s[..|s| - 1];
      FirstLeastIsLeast(init, le);
      var i := FirstLeast(init, le);
      assert forall j :: 0 <= j < |init| ==> init[j] == s[j];
    }
  }

  lemma {:induction false} InsertHead<T(!new)>(t: seq<T>, x: T, le: (T, T) -> bool)
    requires TotalPreorder(le) && Sorted(t, le)
    ensures Insert(t, x, le)[0] == if t != [] && le(t[0], x) then t[0] else x
    decreases |t|
  {
    if t != [] && !le(t[|t| - 1], x) {
      var init := t[..|t| - 1];
      assert Sorted(init, le);
      InsertHead(init, x, le);
      if init != [] {
        assert init[0] == t[0];
      }
    }
  }

  /** The sort puts first the earliest element among those that may come first. */
  lemma {:induction false} SortByHead<T(!new)>(s: seq<T>, le: (T, T) -> bool)
    requires TotalPreorder(le) && s != []
    ensures SortBy(s, le)[0] == s[FirstLeast(s, le)]
    decreases |s|
  {
    if |s| > 1 {
      var init := s[..|s| - 1];
      SortByHead(init, le);
      SortBySorted(init, le);
      InsertHead(SortBy(init, le), s[|s| - 1], le);
    }
  }

  // ---------------------------------------------------------------- sorted(set(xs))

  predicate StrictlyIncreasing(s: seq<int>) {
    forall i, j :: 0 <= i < j < |s| ==> s[i] < s[j]
  }

  function InsertUnique(t: seq<int>, x: int): (r: seq<int>)
    requires StrictlyIncreasing(t)
    ensures StrictlyIncreasing(r)
    ensures forall y :: y in r <==> y in t || y == x
  {
    if t == [] then [x]
    else if x < t[0] then [x] + t
    else if x == t[0] then t
    else
      var rest := InsertUnique(t[1..], x);
      assert forall k :: 0 <= k < |rest| ==> t[0] < rest[k] by {
        forall k | 0 <= k < |rest| ensures t[0] < rest[k] {
          assert rest[k] in rest;
        }
      }
      [t[0]] + rest
  }

  /** `sorted(set(xs))` */
  function SortedUnique(xs: seq<int>): (r: seq<int>)
    ensures StrictlyIncreasing(r)
    ensures forall y :: y in r <==> y in xs
    ensures |r| <= |xs|
  {
    if xs == [] then []
    else
      var t := SortedUnique(xs[..|xs| - 1]);
      assert xs == xs[..|xs| - 1] + [xs[|xs| - 1]];
      var r := InsertUnique(t, xs[|xs| - 1]);
      UniqueLength(r, xs);
      r
  }

  /** A duplicate-free list of values drawn from `xs` is no longer than `xs`. */
  lemma UniqueLength(r: seq<int>, xs: seq<int>)
    requires StrictlyIncreasing(r)
    requires forall y :: y in r ==> y in xs
    ensures |r| <= |xs|
  {
    var rs, xset := set y | y in r, set y | y in xs;
    forall y | y in rs ensures y in xset {
      assert y in r;
    }
    DistinctCard(r);
    SetCardBound(xs);
    assert xset == rs + (xset - rs);
    assert |xset| == |rs| + |xset - rs|;
  }

  lemma {:induction false} DistinctCard(r: seq<int>)
    requires StrictlyIncreasing(r)
    ensures |set y | y in r| == |r|
    decreases |r|
  {
    if r != [] {
      var tail := r[1..];
      DistinctCard(tail);
      assert (set y | y in r) == (set y | y in tail) + {r[0]};
      assert r[0] !in tail;
    }
  }

  lemma {:induction false} SetCardBound(xs: seq<int>)
    ensures |set y | y in xs| <= |xs|
    decreases |xs|
  {
    if xs != [] {
      var tail := xs[1..];
      SetCardBound(tail);
      assert (set y | y in xs) == (set y | y in tail) + {xs[0]};
    }
  }

  /** A list without repeated values keeps its length under `sorted(set(...))`. */
  lemma SortedUniqueDistinct(xs: seq<int>)
    requires forall i, j :: 0 <= i < j < |xs| ==> xs[i] != xs[j]
    ensures |SortedUnique(xs)| == |xs|
  {
    var r := SortedUnique(xs);
    DistinctCard(r);
    DistinctSetCard(xs);
    assert (set y | y in r) == (set y | y in xs);
  }

  lemma {:induction false} DistinctSetCard(xs: seq<int>)
    requires forall i, j :: 0 <= i < j < |xs| ==> xs[i] != xs[j]
    ensures |set y | y in xs| == |xs|
    decreases |xs|
  {
    if xs != [] {
      var tail := xs[1..];
      DistinctSetCard(tail);
      assert (set y | y in xs) == (set y | y in tail) + {xs[0]};
      assert xs[0] !in tail;
    }
  }

  // ---------------------------------------------------------------- numpy.median

  function RealLe(a: real, b: real): bool { a <= b }

  /** `numpy.median` of a non-empty list: the middle of the sorted list, or the mean of the
      two middle values for an even length. */
  function Median(xs: seq<real>): (m: real)
    requires xs != []
  {
    var s := SortBy(xs, RealLe);
    var n := |s|;
    if n % 2 == 1 then s[n / 2] else (s[n / 2 - 1] + s[n / 2]) / 2.0
  }

  /** The median lies within the bounds of the values. */
  lemma MedianWithin(xs: seq<real>, lo: real, hi: real)
    requires xs != []
    requires forall i :: 0 <= i < |xs| ==> lo < xs[i] < hi
    ensures lo < Median(xs) < hi
  {
    var s := SortBy(xs, RealLe);
    forall i | 0 <= i < |s| ensures lo < s[i] < hi {
      assert s[i] in multiset(xs);
    }
  }
}
