/**
 * The module-level cache of rendered diagrams in `MermaidDiagram.tsx`: a
 * JavaScript `Map` from diagram key to `{svg, ts}`, kept in insertion order,
 * that `saveSvgCache` bounds to 40 entries by evicting the oldest.
 *
 * The map is a sequence of (key, entry) pairs in insertion order. The sort
 * the eviction uses is stable, so sorting by timestamp orders entries by
 * (timestamp, position in the map); `SortPositions` sorts positions by that
 * pair.
 */
module PositionSort {
  /*
   * A stable sort by timestamp orders positions by (timestamp, position).
   * `SortPositions` is the insertion sort of the positions 0 .. n-1 of a
   * sequence of timestamps by that order.
   */

  /** Position `p` sorts before position `q`: an older stamp, or the same stamp earlier in the map. */
  predicate Before(ts: seq<int>, p: nat, q: nat)
    requires p < |ts| && q < |ts|
  {
    ts[p] < ts[q] || (ts[p] == ts[q] && p < q)
  }

  ghost predicate InRange(s: seq<nat>, n: nat) {
    forall i :: 0 <= i < |s| ==> s[i] < n
  }

  ghost predicate SortedBy(ts: seq<int>, s: seq<nat>)
    requires InRange(s, |ts|)
  {
    forall i, j :: 0 <= i < j < |s| ==> Before(ts, s[i], s[j])
  }

  function Insert(ts: seq<int>, x: nat, s: seq<nat>): (r: seq<nat>)
    requires x < |ts| && InRange(s, |ts|)
    ensures InRange(r, |ts|) && |r| == |s| + 1
    ensures multiset(r) == multiset(s) + multiset{x}
  {
    if s == [] then [x]
    else if Before(ts, x, s[0]) then [x] + s
    else
      assert s == [s[0]] + s[1..];
      [s[0]] + Insert(ts, x, s[1..])
  }

  lemma {:induction false} InsertSorted(ts: seq<int>, x: nat, s: seq<nat>)
    requires x < |ts| && InRange(s, |ts|) && SortedBy(ts, s)
    requires x !in s
    ensures SortedBy(ts, Insert(ts, x, s))
    decreases |s|
  {
    if s != [] && !Before(ts, x, s[0]) {
      var rest := s[1..];
      assert forall i :: 0 <= i < |rest| ==> rest[i] == s[i + 1];
      InsertSorted(ts, x, rest);
      var r := Insert(ts, x, rest);
      forall k | 0 <= k < |r|
        ensures Before(ts, s[0], r[k])
      {
        InsertHas(ts, x, rest, r[k]);
        if r[k] != x {
          var j :| 0 <= j < |rest| && rest[j] == r[k];
          assert s[j + 1] == r[k];
        }
      }
      ConsSorted(ts, s[0], r);
    }
  }

  /** A position before every position of a sorted order can go in front of it. */
  lemma ConsSorted(ts: seq<int>, h: nat, r: seq<nat>)
    requires h < |ts| && InRange(r, |ts|) && SortedBy(ts, r)
    requires forall k :: 0 <= k < |r| ==> Before(ts, h, r[k])
    ensures InRange([h] + r, |ts|) && SortedBy(ts, [h] + r)
  {
  }

  /** The positions 0 .. n-1 sorted by `Before`: insertion sort, each later position after its equals. */
  function SortPositions(ts: seq<int>, n: nat): (r: seq<nat>)
    requires n <= |ts|
    ensures InRange(r, |ts|) && |r| == n
  {
    if n == 0 then [] else Insert(ts, n - 1, SortPositions(ts, n - 1))
  }

  lemma {:induction false} SortPositionsHas(ts: seq<int>, n: nat, x: nat)
    requires n <= |ts|
    ensures x in SortPositions(ts, n) <==> x < n
    decreases n
  {
    if n > 0 {
      var m: nat := n - 1;
      SortPositionsHas(ts, m, x);
      var s := SortPositions(ts, m);
      assert x in s <==> x < m;
      assert SortPositions(ts, n) == Insert(ts, m, s);
      InsertHas(ts, m, s, x);
    }
  }

  /** Inserting adds `x` and keeps everything else. */
  lemma InsertHas(ts: seq<int>, x: nat, s: seq<nat>, y: nat)
    requires x < |ts| && InRange(s, |ts|)
    ensures y in Insert(ts, x, s) <==> y in s || y == x
  {
    var r := Insert(ts, x, s);
    assert (y in r) == (y in multiset(r));
    assert (y in s) == (y in multiset(s));
  }

  lemma SortPositionsSpec(ts: seq<int>, n: nat)
    requires n <= |ts|
    ensures SortedBy(ts, SortPositions(ts, n))
    ensures forall x: nat :: x in SortPositions(ts, n) <==> x < n
  {
    forall x: nat
      ensures x in SortPositions(ts, n) <==> x < n
    {
      SortPositionsHas(ts, n, x);
    }
    SortPositionsSorted(ts, n);
  }

  lemma {:induction false} SortPositionsSorted(ts: seq<int>, n: nat)
    requires n <= |ts|
    ensures SortedBy(ts, SortPositions(ts, n))
    decreases n
  {
    if n > 0 {
      var m: nat := n - 1;
      SortPositionsSorted(ts, m);
      SortPositionsHas(ts, m, m);
      InsertSorted(ts, m, SortPositions(ts, m));
    }
  }

  /** A sorted order names each position once. */
  lemma SortedDistinct(ts: seq<int>, s: seq<nat>, i: nat)
    requires InRange(s, |ts|) && SortedBy(ts, s) && i < |s|
    ensures forall j :: 0 <= j < i ==> s[j] != s[i]
  {
  }
}

module SvgCache {
  import opened Common
  import opened PositionSort

  const MaxCacheEntries: nat := 40

  datatype CacheEntry = CacheEntry(svg: string, ts: int)

  type Item = (string, CacheEntry)

  ghost predicate DistinctKeys(items: seq<Item>) {
    forall i, j :: 0 <= i < j < |items| ==> items[i].0 != items[j].0
  }

  /** The position of `key` in the map, or -1. */
  function IndexOfKey(items: seq<Item>, key: string): (r: int)
    ensures -1 <= r < |items|
    ensures r >= 0 ==> items[r].0 == key
    ensures r < 0 ==> forall i :: 0 <= i < |items| ==> items[i].0 != key
  {
    if items == [] then -1
    else if items[0].0 == key then 0
    else
      var r := IndexOfKey(items[1..], key);
      if r < 0 then -1 else r + 1
  }

  /** `Map.get(key)?.svg`. */
  function Lookup(items: seq<Item>, key: string): (r: Option<string>)
    ensures r.Some? <==> exists i :: 0 <= i < |items| && items[i].0 == key
    ensures r.Some? ==> exists i :: 0 <= i < |items| && items[i] == (key, CacheEntry(r.value, items[i].1.ts))
  {
    var i := IndexOfKey(items, key);
    if i < 0 then None else Some(items[i].1.svg)
  }

  /** `Map.set`: a present key keeps its place and takes the new entry; a new key goes last. */
  function MapSet(items: seq<Item>, key: string, e: CacheEntry): (r: seq<Item>)
    ensures DistinctKeys(items) ==> DistinctKeys(r)
    ensures exists i :: 0 <= i < |r| && r[i] == (key, e)
    ensures forall i :: 0 <= i < |r| && r[i].0 != key ==> r[i] in items
    ensures forall i :: 0 <= i < |items| && items[i].0 != key ==> items[i] in r
  {
    var i := IndexOfKey(items, key);
    if i >= 0 then
      var r := items[i := (key, e)];
      assert r[i] == (key, e);
      assert forall j :: 0 <= j < |items| && j != i ==> r[j] == items[j];
      r
    else
      var r := items + [(key, e)];
      assert r[|items|] == (key, e);
      assert forall j :: 0 <= j < |items| ==> r[j] == items[j];
      r
  }

  /** `Map.delete(key)`. */
  function MapDelete(items: seq<Item>, key: string): (r: seq<Item>)
    ensures forall x :: x in r ==> x in items && x.0 != key
  {
    if items == [] then []
    else
      var n := |items| - 1;
      MapDelete(items[..n], key) + (if items[n].0 == key then [] else [items[n]])
  }

  /** The items whose positions are not in `gone`, in map order. */
  function KeepPositions(items: seq<Item>, gone: set<nat>): (r: seq<Item>)
    ensures forall x :: x in r ==> x in items
  {
    if items == [] then []
    else
      var n := |items| - 1;
      KeepPositions(items[..n], gone) + (if n in gone then [] else [items[n]])
  }

  function Stamps(items: seq<Item>): (ts: seq<int>)
    ensures |ts| == |items| && forall i :: 0 <= i < |items| ==> ts[i] == items[i].1.ts
  {
    seq(|items|, i requires 0 <= i < |items| => items[i].1.ts)
  }

  // ---------------------------------------------------------------------------
  // Eviction
  // ---------------------------------------------------------------------------

  /** How many entries the loop deletes. */
  function Excess(items: seq<Item>): nat {
    if |items| <= MaxCacheEntries then 0 else |items| - MaxCacheEntries
  }

  /** The positions deleted: the first `Excess` entries of the sorted order. */
  function Evicted(items: seq<Item>): set<nat> {
    var order := SortPositions(Stamps(items), |items|);
    set i | 0 <= i < Excess(items) :: order[i]
  }

  /** The map after the eviction step of `saveSvgCache`. */
  function Evict(items: seq<Item>): seq<Item> {
    KeepPositions(items, Evicted(items))
  }

  /** Every evicted entry is older than every kept one, or as old and earlier in the map. */
  lemma EvictsOldestFirst(items: seq<Item>, p: nat, q: nat)
    requires p < |items| && q < |items|
    requires p in Evicted(items) && q !in Evicted(items)
    ensures items[p].1.ts < items[q].1.ts || (items[p].1.ts == items[q].1.ts && p < q)
  {
    var ts := Stamps(items);
    var order := SortPositions(ts, |items|);
    SortPositionsSpec(ts, |items|);
    var i :| 0 <= i < Excess(items) && order[i] == p;
    assert q in order;
    var j :| 0 <= j < |order| && order[j] == q;
    assert i < j;
  }

  // Counting what eviction keeps.

  function CountBelow(s: set<nat>, n: nat): nat {
    if n == 0 then 0 else CountBelow(s, n - 1) + (if n - 1 in s then 1 else 0)
  }

  lemma {:induction false} KeepPositionsLength(items: seq<Item>, gone: set<nat>)
    ensures |KeepPositions(items, gone)| == |items| - CountBelow(gone, |items|)
    decreases |items|
  {
    if items != [] {
      KeepPositionsLength(items[..|items| - 1], gone);
    }
  }

  lemma {:induction false} CountBelowIsSize(s: set<nat>, n: nat)
    requires forall x :: x in s ==> x < n
    ensures CountBelow(s, n) == |s|
    decreases n
  {
    if n > 0 {
      var rest := s - {n - 1};
      CountBelowIsSize(rest, n - 1);
      CountBelowIgnores(s, n - 1);
      if n - 1 in s {
        assert s == rest + {n - 1};
      } else {
        assert s == rest;
      }
    }
  }

  /** Below `n`, only the members below `n` count. */
  lemma {:induction false} CountBelowIgnores(s: set<nat>, n: nat)
    ensures CountBelow(s, n) == CountBelow(s - {n}, n)
    decreases n
  {
    if n > 0 {
      CountBelowIgnores(s, n - 1);
      CountBelowIgnoresAbove(s, n, n - 1);
    }
  }

  lemma {:induction false} CountBelowIgnoresAbove(s: set<nat>, x: nat, n: nat)
    requires n <= x
    ensures CountBelow(s, n) == CountBelow(s - {x}, n)
    decreases n
  {
    if n > 0 {
      CountBelowIgnoresAbove(s, x, n - 1);
    }
  }

  lemma {:induction false} DistinctPrefixSize(order: seq<nat>, m: nat, ts: seq<int>)
    requires m <= |order| && InRange(order, |ts|) && SortedBy(ts, order)
    ensures |set i | 0 <= i < m :: order[i]| == m
    decreases m
  {
    if m > 0 {
      DistinctPrefixSize(order, m - 1, ts);
      var a := set i | 0 <= i < m - 1 :: order[i];
      var b := set i | 0 <= i < m :: order[i];
      assert b == a + {order[m - 1]};
      assert order[m - 1] !in a;
    }
  }

  /** After eviction the map holds at most 40 entries, and exactly 40 when it held more. */
  lemma EvictBound(items: seq<Item>)
    ensures |Evict(items)| == if |items| <= MaxCacheEntries then |items| else MaxCacheEntries
  {
    var ts := Stamps(items);
    var order := SortPositions(ts, |items|);
    SortPositionsSpec(ts, |items|);
    var gone := Evicted(items);
    DistinctPrefixSize(order, Excess(items), ts);
    CountBelowIsSize(gone, |items|);
    KeepPositionsLength(items, gone);
  }

  /** The kept entries are entries of the map, unchanged. */
  lemma EvictKeepsEntries(items: seq<Item>)
    ensures forall x :: x in Evict(items) ==> x in items
  {
  }

  // Deleting one key at a time is keeping the remaining positions.

  lemma {:induction false} MapDeleteAppend(a: seq<Item>, b: seq<Item>, key: string)
    ensures MapDelete(a + b, key) == MapDelete(a, key) + MapDelete(b, key)
    decreases |b|
  {
    if b == [] {
      assert a + b == a;
    } else {
      var n := |b| - 1;
      assert (a + b)[..|a + b| - 1] == a + b[..n];
      MapDeleteAppend(a, b[..n], key);
    }
  }

  lemma {:induction false} MapDeleteAbsent(items: seq<Item>, key: string)
    requires forall i :: 0 <= i < |items| ==> items[i].0 != key
    ensures MapDelete(items, key) == items
    decreases |items|
  {
    if items != [] {
      var n := |items| - 1;
      var front := items[..n];
      assert forall i :: 0 <= i < |front| ==> front[i] == items[i];
      MapDeleteAbsent(front, key);
      assert items == front + [items[n]];
    }
  }

  lemma {:induction false} KeepPositionsAbove(items: seq<Item>, gone: set<nat>, x: nat)
    requires |items| <= x
    ensures KeepPositions(items, gone + {x}) == KeepPositions(items, gone)
    decreases |items|
  {
    if items != [] {
      KeepPositionsAbove(items[..|items| - 1], gone, x);
    }
  }

  lemma {:induction false} KeepPositionsKeys(items: seq<Item>, gone: set<nat>, key: string)
    requires forall i :: 0 <= i < |items| ==> items[i].0 != key
    ensures forall i :: 0 <= i < |KeepPositions(items, gone)| ==> KeepPositions(items, gone)[i].0 != key
  {
    forall i | 0 <= i < |KeepPositions(items, gone)|
      ensures KeepPositions(items, gone)[i].0 != key
    {
      assert KeepPositions(items, gone)[i] in items;
    }
  }

  lemma {:induction false} DeleteIsKeep(items: seq<Item>, gone: set<nat>, p: nat)
    requires DistinctKeys(items) && p < |items| && p !in gone
    ensures MapDelete(KeepPositions(items, gone), items[p].0) == KeepPositions(items, gone + {p})
    decreases |items|
  {
    var n := |items| - 1;
    var front := items[..n];
    var key := items[p].0;
    var tail := if n in gone then [] else [items[n]];
    assert KeepPositions(items, gone) == KeepPositions(front, gone) + tail;
    MapDeleteAppend(KeepPositions(front, gone), tail, key);
    if p == n {
      DeleteLast(items, gone);
    } else {
      assert front[p] == items[p];
      DeleteIsKeep(front, gone, p);
      DeleteOther(items, gone, p);
    }
  }

  lemma DeleteLast(items: seq<Item>, gone: set<nat>)
    requires DistinctKeys(items) && |items| > 0 && |items| - 1 !in gone
    ensures var n := |items| - 1;
      MapDelete(KeepPositions(items[..n], gone), items[n].0) + MapDelete([items[n]], items[n].0)
        == KeepPositions(items, gone + {n})
  {
    var n := |items| - 1;
    var front := items[..n];
    var key := items[n].0;
    KeepPositionsKeys(front, gone, key);
    MapDeleteAbsent(KeepPositions(front, gone), key);
    KeepPositionsAbove(front, gone, n);
    assert [items[n]][..0] == [];
    assert MapDelete([items[n]], key) == [];
    assert KeepPositions(items, gone + {n}) == KeepPositions(front, gone + {n}) + [];
  }

  lemma DeleteOther(items: seq<Item>, gone: set<nat>, p: nat)
    requires DistinctKeys(items) && p < |items| - 1
    ensures var n := |items| - 1;
      MapDelete(if n in gone then [] else [items[n]], items[p].0)
        == if n in gone + {p} then [] else [items[n]]
  {
    var n := |items| - 1;
    assert [items[n]][..0] == [];
    assert items[n].0 != items[p].0;
  }

  // ---------------------------------------------------------------------------
  // The cache
  // ---------------------------------------------------------------------------

  class Cache {
    var items: seq<Item>

    ghost predicate Valid()
      reads this
    {
      DistinctKeys(items)
    }

    constructor()
      ensures Valid() && items == []
    {
      items := [];
    }

    /** `svgCache.get(key)?.svg`. */
    function Get(key: string): Option<string>
      reads this
    {
      Lookup(items, key)
    }

    /**
     * `saveSvgCache(key, svg)` at time `now`: set the entry, then, above 40
     * entries, delete the oldest ones in the order of a stable sort by time.
     */
    method Save(key: string, svg: string, now: int)
      modifies this
      requires Valid()
      ensures Valid()
      ensures items == Evict(MapSet(old(items), key, CacheEntry(svg, now)))
      ensures |items| <= MaxCacheEntries
    {
      var all := MapSet(items, key, CacheEntry(svg, now));
      items := EvictOldest(all);
      EvictBound(all);
      KeepDistinct(all, Evicted(all));
    }
  }

  /**
   * The eviction loop of `saveSvgCache`: while more than 40 entries remain,
   * delete the key at the next position of the stable sort by time.
   */
  method EvictOldest(all: seq<Item>) returns (kept: seq<Item>)
    requires DistinctKeys(all)
    ensures kept == Evict(all)
  {
    KeepNone(all);
    kept := all;
    if |all| <= MaxCacheEntries {
      return;
    }
    var order := SortPositions(Stamps(all), |all|);
    SortPositionsSpec(Stamps(all), |all|);
    var i := 0;
    assert PrefixSet(order, 0) == {};
    while i < |order| - MaxCacheEntries
      invariant 0 <= i <= |order| - MaxCacheEntries
      invariant kept == KeepPositions(all, PrefixSet(order, i))
    {
      SortedDistinct(Stamps(all), order, i);
      EvictStep(all, order, i);
      kept := MapDelete(kept, all[order[i]].0);
      i := i + 1;
    }
    assert PrefixSet(order, i) == Evicted(all);
  }

  /** The positions the loop has deleted after `i` rounds. */
  function PrefixSet(order: seq<nat>, i: nat): set<nat>
    requires i <= |order|
  {
    set j | 0 <= j < i :: order[j]
  }

  /** One round of the eviction loop deletes the next position of the sorted order. */
  lemma EvictStep(all: seq<Item>, order: seq<nat>, i: nat)
    requires DistinctKeys(all) && i < |order| && order[i] < |all|
    requires forall j :: 0 <= j < i ==> order[j] != order[i]
    ensures MapDelete(KeepPositions(all, PrefixSet(order, i)), all[order[i]].0)
      == KeepPositions(all, PrefixSet(order, i + 1))
  {
    var gone := PrefixSet(order, i);
    assert order[i] !in gone;
    DeleteIsKeep(all, gone, order[i]);
    assert PrefixSet(order, i + 1) == gone + {order[i]};
  }

  lemma {:induction false} KeepNone(items: seq<Item>)
    ensures KeepPositions(items, {}) == items
    ensures Evicted(items) == {} ==> Evict(items) == items
    decreases |items|
  {
    if items != [] {
      KeepNone(items[..|items| - 1]);
    }
  }

  lemma KeepDistinct(items: seq<Item>, gone: set<nat>)
    requires DistinctKeys(items)
    ensures DistinctKeys(KeepPositions(items, gone))
  {
    KeepSubsequence(items, gone);
  }

  lemma {:induction false} KeepSubsequence(items: seq<Item>, gone: set<nat>)
    requires DistinctKeys(items)
    ensures DistinctKeys(KeepPositions(items, gone))
    decreases |items|
  {
    if items != [] {
      var n := |items| - 1;
      KeepSubsequence(items[..n], gone);
      var front := KeepPositions(items[..n], gone);
      if n !in gone {
        forall i | 0 <= i < |front|
          ensures front[i].0 != items[n].0
        {
          assert front[i] in items[..n];
        }
      }
    }
  }
}
