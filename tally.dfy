/**
 * Counting in a JavaScript `Map` keyed by the counted value: one slot per
 * distinct key in the order keys first appear, holding the count and the
 * payload stored with the first occurrence (`map.get(k) || init`).
 */
module Tally {
  import opened Wrappers
  import opened Sorting

  datatype Slot<K, P> = Slot(key: K, first: P, count: nat)

  /** `map.has(k)` as a position: the slot holding `k`, or -1. */
  function SlotIndex<K(==), P>(t: seq<Slot<K, P>>, k: K): (i: int)
    ensures -1 <= i < |t|
    ensures i >= 0 ==> t[i].key == k
    ensures i == -1 ==> forall j :: 0 <= j < |t| ==> t[j].key != k
  {
    if t == [] then -1
    else if t[|t| - 1].key == k then |t| - 1
    else SlotIndex(t[..|t| - 1], k)
  }

  /** One `map.set(k, (map.get(k) || init) + 1)`. */
  function Bump<K(==), P>(t: seq<Slot<K, P>>, k: K, p: P): seq<Slot<K, P>> {
    var i := SlotIndex(t, k);
    if i == -1 then t + [Slot(k, p, 1)] else t[i := t[i].(count := t[i].count + 1)]
  }

  /** The map after counting every item in order. */
  function TallyOf<K(==), P>(items: seq<(K, P)>): seq<Slot<K, P>> {
    if items == [] then []
    else Bump(TallyOf(items[..|items| - 1]), items[|items| - 1].0, items[|items| - 1].1)
  }

  /** The number of items with key `k`. */
  function Count<K(==), P>(items: seq<(K, P)>, k: K): nat {
    if items == [] then 0 else Count(items[..|items| - 1], k) + (if items[|items| - 1].0 == k then 1 else 0)
  }

  /** The payload of the first item with key `k`. */
  function FirstOf<K(==), P>(items: seq<(K, P)>, k: K): Option<P> {
    if items == [] then None else if items[0].0 == k then Some(items[0].1) else FirstOf(items[1..], k)
  }



  function Total<K, P>(t: seq<Slot<K, P>>): nat {
    if t == [] then 0 else Total(t[..|t| - 1]) + t[|t| - 1].count
  }

  predicate DistinctKeys<K(==), P>(t: seq<Slot<K, P>>) {
    forall i, j :: 0 <= i < j < |t| ==> t[i].key != t[j].key
  }

  lemma {:induction false} FirstOfAppend<K(!new), P>(items: seq<(K, P)>, x: (K, P), k: K)
    ensures FirstOf(items + [x], k) == if FirstOf(items, k).Some? then FirstOf(items, k)
                                      else if x.0 == k then Some(x.1) else None
  {
    if items != [] {
      assert (items + [x])[1..] == items[1..] + [x];
      FirstOfAppend(items[1..], x, k);
    }
  }

  lemma {:induction false} TotalAppend<K, P>(t: seq<Slot<K, P>>, s: Slot<K, P>)
    ensures Total(t + [s]) == Total(t) + s.count
  {
    assert (t + [s])[..|t|] == t;
  }

  lemma {:induction false} TotalIncrement<K, P>(t: seq<Slot<K, P>>, i: nat)
    requires i < |t|
    ensures Total(t[i := t[i].(count := t[i].count + 1)]) == Total(t) + 1
  {
    var t' := t[i := t[i].(count := t[i].count + 1)];
    if i == |t| - 1 {
      assert t'[..|t'| - 1] == t[..|t| - 1];
    } else {
      var p := t[..|t| - 1];
      TotalIncrement(p, i);
      assert t'[..|t'| - 1] == p[i := p[i].(count := p[i].count + 1)];
    }
  }

  /** The invariant of the counting map over `items`. */
  ghost predicate Counts<K(!new), P>(t: seq<Slot<K, P>>, items: seq<(K, P)>) {
    && DistinctKeys(t)
    && (forall j :: 0 <= j < |t| ==> t[j].count == Count(items, t[j].key) && t[j].count > 0)
    && (forall j :: 0 <= j < |t| ==> FirstOf(items, t[j].key) == Some(t[j].first))
    && (forall k :: SlotIndex(t, k) >= 0 || Count(items, k) == 0)
    && Total(t) == |items|
  }

  lemma BumpCounts<K(!new), P>(t: seq<Slot<K, P>>, items: seq<(K, P)>, x: (K, P))
    requires Counts(t, items)
    ensures Counts(Bump(t, x.0, x.1), items + [x])
  {
    var all := items + [x];
    assert all[..|all| - 1] == items;
    forall k ensures FirstOf(all, k) == if FirstOf(items, k).Some? then FirstOf(items, k)
                                        else if x.0 == k then Some(x.1) else None {
      FirstOfAppend(items, x, k);
    }
    if SlotIndex(t, x.0) == -1 {
      BumpNew(t, items, x);
    } else {
      BumpExisting(t, items, x);
    }
  }

  lemma BumpNew<K(!new), P>(t: seq<Slot<K, P>>, items: seq<(K, P)>, x: (K, P))
    requires Counts(t, items) && SlotIndex(t, x.0) == -1
    requires (items + [x])[..|items|] == items
    requires forall k :: FirstOf(items + [x], k) == if FirstOf(items, k).Some? then FirstOf(items, k)
                                                    else if x.0 == k then Some(x.1) else None
    ensures Counts(Bump(t, x.0, x.1), items + [x])
  {
    var all := items + [x];
    var s := Slot(x.0, x.1, 1);
    var t' := t + [s];
    assert Bump(t, x.0, x.1) == t';
    CountAppend(items, x);
    TotalAppend(t, s);
    assert Count(items, x.0) == 0;
    assert FirstOf(items, x.0).None? by {
      if FirstOf(items, x.0).Some? {
        FirstOfCounted(items, x.0);
      }
    }
    AppendDistinct(t, s);
    forall k ensures SlotIndex(t', k) >= 0 || Count(all, k) == 0 {
      if k == x.0 {
        assert t'[|t|].key == k;
      } else {
        SlotIndexAppend(t, s, k);
      }
    }
    OldSlotsKept(t, items, x);
    forall j | 0 <= j < |t'| ensures t'[j].count == Count(all, t'[j].key) && t'[j].count > 0
                                     && FirstOf(all, t'[j].key) == Some(t'[j].first) {
      if j < |t| {
        assert t'[j] == t[j];
      }
    }
  }

  /** A new key leaves the count and the first payload of every key already in the map alone. */
  lemma OldSlotsKept<K(!new), P>(t: seq<Slot<K, P>>, items: seq<(K, P)>, x: (K, P))
    requires Counts(t, items) && SlotIndex(t, x.0) == -1
    requires (items + [x])[..|items|] == items
    requires forall k :: FirstOf(items + [x], k) == if FirstOf(items, k).Some? then FirstOf(items, k)
                                                    else if x.0 == k then Some(x.1) else None
    ensures forall j :: 0 <= j < |t| ==> t[j].count == Count(items + [x], t[j].key)
                                         && FirstOf(items + [x], t[j].key) == Some(t[j].first)
  {
    CountAppend(items, x);
  }

  lemma BumpExisting<K(!new), P>(t: seq<Slot<K, P>>, items: seq<(K, P)>, x: (K, P))
    requires Counts(t, items) && SlotIndex(t, x.0) >= 0
    requires (items + [x])[..|items|] == items
    requires forall k :: FirstOf(items + [x], k) == if FirstOf(items, k).Some? then FirstOf(items, k)
                                                    else if x.0 == k then Some(x.1) else None
    ensures Counts(Bump(t, x.0, x.1), items + [x])
  {
    var all := items + [x];
    var i := SlotIndex(t, x.0);
    var t' := t[i := t[i].(count := t[i].count + 1)];
    assert Bump(t, x.0, x.1) == t';
    CountAppend(items, x);
    TotalIncrement(t, i);
    assert DistinctKeys(t') by {
      forall a, b | 0 <= a < b < |t'| ensures t'[a].key != t'[b].key {
        assert t'[a].key == t[a].key && t'[b].key == t[b].key;
      }
    }
    forall k ensures SlotIndex(t', k) >= 0 || Count(all, k) == 0 {
      SlotIndexSameKeys(t, i, t[i].(count := t[i].count + 1), k);
    }
    forall j | 0 <= j < |t'| ensures t'[j].count == Count(all, t'[j].key) && t'[j].count > 0
                                     && FirstOf(all, t'[j].key) == Some(t'[j].first) {
      if j != i {
        assert t'[j] == t[j];
        assert t[j].key != x.0;
      }
    }
  }

  /** A slot whose key no slot has keeps the keys distinct. */
  lemma AppendDistinct<K(!new), P>(t: seq<Slot<K, P>>, s: Slot<K, P>)
    requires DistinctKeys(t) && forall j :: 0 <= j < |t| ==> t[j].key != s.key
    ensures DistinctKeys(t + [s])
  {
    var t' := t + [s];
    forall i, j | 0 <= i < j < |t'| ensures t'[i].key != t'[j].key {
      if j < |t| {
        assert t'[i] == t[i] && t'[j] == t[j];
      } else {
        assert t'[i] == t[i];
      }
    }
  }

  /** One more item adds one to the count of its key and leaves every other count alone. */
  lemma CountAppend<K(!new), P>(items: seq<(K, P)>, x: (K, P))
    requires (items + [x])[..|items|] == items
    ensures forall k :: Count(items + [x], k) == Count(items, k) + (if x.0 == k then 1 else 0)
  {
  }

  lemma {:induction false} FirstOfCounted<K(!new), P>(items: seq<(K, P)>, k: K)
    requires FirstOf(items, k).Some?
    ensures Count(items, k) > 0
  {
    if items[0].0 != k {
      FirstOfCounted(items[1..], k);
      CountFront(items, k);
    } else {
      CountFront(items, k);
    }
  }

  lemma {:induction false} CountFront<K(!new), P>(items: seq<(K, P)>, k: K)
    requires items != []
    ensures Count(items, k) == Count(items[1..], k) + (if items[0].0 == k then 1 else 0)
  {
    if |items| > 1 {
      var p := items[..|items| - 1];
      CountFront(p, k);
      assert p[1..] == items[1..][..|items[1..]| - 1];
    } else {
      assert items[..0] == [];
    }
  }

  lemma SlotIndexAppend<K(!new), P>(t: seq<Slot<K, P>>, s: Slot<K, P>, k: K)
    requires k != s.key
    ensures SlotIndex(t + [s], k) == SlotIndex(t, k)
  {
    assert (t + [s])[..|t|] == t;
  }

  lemma {:induction false} SlotIndexSameKeys<K(!new), P>(t: seq<Slot<K, P>>, i: nat, s: Slot<K, P>, k: K)
    requires i < |t| && s.key == t[i].key
    ensures SlotIndex(t[i := s], k) == SlotIndex(t, k)
  {
    var p := t[..|t| - 1];
    if i < |t| - 1 {
      assert t[i := s][..|t| - 1] == p[i := s];
      SlotIndexSameKeys(p, i, s, k);
    }
  }

  /** The counting map has one slot per key, with the number of items and the first payload of that key. */
  lemma {:induction false} TallyCorrect<K(!new), P>(items: seq<(K, P)>)
    ensures Counts(TallyOf(items), items)
  {
    if items != [] {
      var p := items[..|items| - 1];
      TallyCorrect(p);
      BumpCounts(TallyOf(p), p, items[|items| - 1]);
      assert p + [items[|items| - 1]] == items;
    }
  }

  /** Counting one more item is one more bump of the map. */
  lemma TallyAppend<K, P>(items: seq<(K, P)>, x: (K, P))
    ensures TallyOf(items + [x]) == Bump(TallyOf(items), x.0, x.1)
  {
    assert (items + [x])[..|items|] == items;
  }

  function CountKey<K, P>(s: Slot<K, P>): int {
    s.count
  }

  /** `Array.from(map.entries()).sort((a, b) => b.count - a.count).slice(0, n)`. */
  function TopSlots<K, P>(t: seq<Slot<K, P>>, n: nat): seq<Slot<K, P>> {
    var sorted := SortDesc(t, CountKey);
    if |sorted| <= n then sorted else sorted[..n]
  }

  /**
   * The top `n` slots: at most `n` of them, the most counted first, taken from
   * the map, and no slot left out has a larger count than one kept.
   */
  lemma TopSlotsCorrect<K, P>(t: seq<Slot<K, P>>, n: nat)
    ensures |TopSlots(t, n)| == if |t| <= n then |t| else n
    ensures SortedDesc(TopSlots(t, n), CountKey)
    ensures forall s :: s in TopSlots(t, n) ==> s in t
    ensures forall s, f :: s in t && s !in TopSlots(t, n) && f in TopSlots(t, n) ==> f.count >= s.count
  {
    var sorted := SortDesc(t, CountKey);
    SortDescCorrect(t, CountKey);
    var r := TopSlots(t, n);
    forall s | s in r ensures s in t {
      assert s in multiset(sorted);
    }
    forall s, f | s in t && s !in r && f in r ensures f.count >= s.count {
      assert s in multiset(sorted);
      var j :| 0 <= j < |sorted| && sorted[j] == s;
      var i :| 0 <= i < |r| && r[i] == f;
      assert sorted[i] == f;
    }
  }

  /** Every kept slot holds the number of items of its key, which is positive. */
  lemma TopCounts<K(!new), P>(items: seq<(K, P)>, n: nat)
    ensures forall s :: s in TopSlots(TallyOf(items), n) ==> s.count == Count(items, s.key) > 0
  {
    var t := TallyOf(items);
    TallyCorrect(items);
    TopSlotsCorrect(t, n);
    forall s | s in TopSlots(t, n) ensures s.count == Count(items, s.key) > 0 {
      assert s in t;
      var j :| 0 <= j < |t| && t[j] == s;
    }
  }

  /** The kept slots have distinct keys. */
  lemma TopKeysDistinct<K(!new), P>(items: seq<(K, P)>, n: nat)
    ensures forall i, j :: 0 <= i < j < |TopSlots(TallyOf(items), n)| ==>
              TopSlots(TallyOf(items), n)[i].key != TopSlots(TallyOf(items), n)[j].key
  {
    var t := TallyOf(items);
    TallyCorrect(items);
    var sorted := SortDesc(t, CountKey);
    SortDescCorrect(t, CountKey);
    DistinctKeysPermutation(t, sorted);
  }

  /** No key left out of the top `n` has more items than a kept slot. */
  lemma TopLeftOut<K(!new), P>(items: seq<(K, P)>, n: nat, e: K)
    requires forall j :: 0 <= j < |TopSlots(TallyOf(items), n)| ==> TopSlots(TallyOf(items), n)[j].key != e
    ensures forall f :: f in TopSlots(TallyOf(items), n) ==> Count(items, e) <= f.count
  {
    var t := TallyOf(items);
    var top := TopSlots(t, n);
    TallyCorrect(items);
    TopSlotsCorrect(t, n);
    if Count(items, e) > 0 {
      var s := t[SlotIndex(t, e)];
      assert s !in top;
    }
  }

  /** A permutation of a map with distinct keys has distinct keys. */
  lemma DistinctKeysPermutation<K, P>(t: seq<Slot<K, P>>, u: seq<Slot<K, P>>)
    requires DistinctKeys(t) && multiset(u) == multiset(t)
    ensures DistinctKeys(u)
  {
    forall i, j | 0 <= i < j < |u| ensures u[i].key != u[j].key {
      if u[i].key == u[j].key {
        assert u[i] in multiset(t) && u[j] in multiset(t);
        var a :| 0 <= a < |t| && t[a] == u[i];
        var b :| 0 <= b < |t| && t[b] == u[j];
        assert a == b;
        SameSlotTwice(u, i, j);
        OnceEach(t, u[i]);
        assert false;
      }
    }
  }

  /** A slot that appears twice is counted twice. */
  lemma SameSlotTwice<K, P>(u: seq<Slot<K, P>>, i: int, j: int)
    requires 0 <= i < j < |u| && u[i] == u[j]
    ensures multiset(u)[u[i]] >= 2
  {
    var x := u[i];
    assert u == u[..i] + [x] + u[i + 1..j] + [x] + u[j + 1..];
  }

  /** A slot of a map with distinct keys appears in it at most once. */
  lemma {:induction false} OnceEach<K, P>(t: seq<Slot<K, P>>, x: Slot<K, P>)
    requires DistinctKeys(t)
    ensures multiset(t)[x] <= 1
  {
    if t != [] {
      var p := t[..|t| - 1];
      assert t == p + [t[|t| - 1]];
      OnceEach(p, x);
      if x == t[|t| - 1] {
        forall k | 0 <= k < |p| ensures p[k] != x {
          assert t[k].key != t[|t| - 1].key;
        }
        assert x !in p;
      }
    }
  }
}
