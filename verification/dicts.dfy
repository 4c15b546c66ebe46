/** Python dictionaries with string keys, as their items in insertion order. */
module Dicts {
  import opened Options

  type Dict<V> = seq<(string, V)>

  /** The position of the first item with key `k`, or -1. */
  function IndexOf<V>(d: Dict<V>, k: string): (r: int)
    ensures -1 <= r < |d|
    ensures r >= 0 ==> d[r].0 == k
    ensures forall j :: 0 <= j < |d| && (r < 0 || j < r) ==> d[j].0 != k
  {
    if d == [] then -1
    else if d[0].0 == k then 0
    else
      var i := IndexOf(d[1..], k);
      assert forall j :: 1 <= j < |d| ==> d[j] == d[1..][j - 1];
      if i < 0 then -1 else i + 1
  }

  /** The first position of a key is determined by the items before it. */
  lemma IndexOfIs<V>(d: Dict<V>, k: string, r: int)
    requires -1 <= r < |d| && (r >= 0 ==> d[r].0 == k)
    requires forall j :: 0 <= j < |d| && (r < 0 || j < r) ==> d[j].0 != k
    ensures IndexOf(d, k) == r
  {
  }

  /** `d.get(k)` */
  function Lookup<V>(d: Dict<V>, k: string): (r: Option<V>)
    ensures r.None? <==> forall i :: 0 <= i < |d| ==> d[i].0 != k
    ensures r.Some? ==> exists i :: 0 <= i < |d| && d[i] == (k, r.value)
  {
    var i := IndexOf(d, k);
    if i < 0 then None else Some(d[i].1)
  }

  predicate DistinctKeys<V>(d: Dict<V>) {
    forall i, j :: 0 <= i < j < |d| ==> d[i].0 != d[j].0
  }

  /** With distinct keys, every item is found by its key. */
  lemma LookupDistinct<V>(d: Dict<V>, i: nat)
    requires i < |d| && DistinctKeys(d)
    ensures Lookup(d, d[i].0) == Some(d[i].1)
  {
    IndexOfIs(d, d[i].0, i);
  }

  function Keys<V>(d: Dict<V>): (r: seq<string>)
    ensures |r| == |d| && forall i :: 0 <= i < |d| ==> r[i] == d[i].0
  {
    seq(|d|, i requires 0 <= i < |d| => d[i].0)
  }

  /** `list(d.values())` */
  function Values<V>(d: Dict<V>): (r: seq<V>)
    ensures |r| == |d| && forall i :: 0 <= i < |d| ==> r[i] == d[i].1
  {
    seq(|d|, i requires 0 <= i < |d| => d[i].1)
  }

  /** `d[k] = v`: an existing key keeps its place and takes the new value; a new key goes last. */
  function Put<V>(d: Dict<V>, k: string, v: V): (r: Dict<V>)
    ensures Lookup(d, k).None? ==> r == d + [(k, v)]
    ensures Lookup(d, k).Some? ==> |r| == |d| && Keys(r) == Keys(d)
  {
    var i := IndexOf(d, k);
    if i < 0 then d + [(k, v)] else d[i := (k, v)]
  }

  /** After `d[k] = v`, `k` maps to `v` and every other key keeps its value; keys stay distinct. */
  lemma PutLookup<V>(d: Dict<V>, k: string, v: V)
    ensures Lookup(Put(d, k, v), k) == Some(v)
    ensures forall k' :: k' != k ==> Lookup(Put(d, k, v), k') == Lookup(d, k')
    ensures DistinctKeys(d) ==> DistinctKeys(Put(d, k, v))
  {
    var r := Put(d, k, v);
    var i := IndexOf(d, k);
    IndexOfIs(r, k, if i < 0 then |d| else i);
    forall k' | k' != k ensures Lookup(r, k') == Lookup(d, k') {
      var j := IndexOf(d, k');
      IndexOfIs(r, k', j);
    }
  }
}
