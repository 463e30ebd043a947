/**
 * `Array.prototype.sort` with a comparator that orders by a numeric key,
 * largest first (`(a, b) => key(b) - key(a)`). The sort is stable, as
 * ECMAScript requires since 2019; this model inserts each element before the
 * first element of the sorted rest whose key is not larger.
 */
module Sorting {

  /** By key, largest first. */
  predicate SortedDesc<T>(xs: seq<T>, key: T -> int) {
    forall i, j :: 0 <= i < j < |xs| ==> key(xs[i]) >= key(xs[j])
  }

  function InsertDesc<T>(x: T, ys: seq<T>, key: T -> int): seq<T> {
    if ys == [] || key(x) >= key(ys[0]) then [x] + ys else [ys[0]] + InsertDesc(x, ys[1..], key)
  }

  /** The sorted copy of `xs`. */
  function SortDesc<T>(xs: seq<T>, key: T -> int): seq<T> {
    if xs == [] then [] else InsertDesc(xs[0], SortDesc(xs[1..], key), key)
  }

  lemma ConsSorted<T>(h: T, t: seq<T>, key: T -> int)
    requires SortedDesc(t, key)
    requires forall z :: z in t ==> key(z) <= key(h)
    ensures SortedDesc([h] + t, key)
  {
    forall i, j | 0 <= i < j < |[h] + t|
      ensures key(([h] + t)[i]) >= key(([h] + t)[j])
    {
      if i > 0 {
        assert ([h] + t)[i] == t[i - 1];
      }
      assert ([h] + t)[j] == t[j - 1];
      assert t[j - 1] in t;
    }
  }

  lemma {:induction false} InsertDescKeeps<T>(x: T, ys: seq<T>, key: T -> int)
    requires SortedDesc(ys, key)
    ensures SortedDesc(InsertDesc(x, ys, key), key)
    ensures multiset(InsertDesc(x, ys, key)) == multiset{x} + multiset(ys)
    ensures |InsertDesc(x, ys, key)| == |ys| + 1
  {
    if ys == [] || key(x) >= key(ys[0]) {
      forall z | z in ys ensures key(z) <= key(x) {
        var k :| 0 <= k < |ys| && ys[k] == z;
        assert key(ys[0]) >= key(ys[k]) || k == 0;
      }
      ConsSorted(x, ys, key);
    } else {
      var rest := InsertDesc(x, ys[1..], key);
      InsertDescKeeps(x, ys[1..], key);
      assert ys == [ys[0]] + ys[1..];
      forall z | z in rest ensures key(z) <= key(ys[0]) {
        assert z in multiset(rest);
        assert z == x || z in multiset(ys[1..]);
        if z != x {
          var k :| 0 <= k < |ys[1..]| && ys[1..][k] == z;
          assert ys[k + 1] == z;
        }
      }
      ConsSorted(ys[0], rest, key);
    }
  }

  /** The sorted copy is ordered by key, largest first, and holds exactly the elements of `xs`. */
  lemma {:induction false} SortDescCorrect<T>(xs: seq<T>, key: T -> int)
    ensures SortedDesc(SortDesc(xs, key), key)
    ensures multiset(SortDesc(xs, key)) == multiset(xs)
    ensures |SortDesc(xs, key)| == |xs|
  {
    if xs != [] {
      var rest := SortDesc(xs[1..], key);
      SortDescCorrect(xs[1..], key);
      InsertDescKeeps(xs[0], rest, key);
      assert SortDesc(xs, key) == InsertDesc(xs[0], rest, key);
      calc {
        multiset(xs);
        { assert xs == [xs[0]] + xs[1..]; }
        multiset{xs[0]} + multiset(xs[1..]);
      }
    }
  }

  /** The elements of `xs` whose key is `k`, in their order in `xs`. */
  function WithKey<T>(xs: seq<T>, key: T -> int, k: int): seq<T> {
    if xs == [] then [] else (if key(xs[0]) == k then [xs[0]] else []) + WithKey(xs[1..], key, k)
  }

  lemma WithKeyCons<T>(x: T, ys: seq<T>, key: T -> int, k: int)
    ensures WithKey([x] + ys, key, k) == (if key(x) == k then [x] else []) + WithKey(ys, key, k)
  {
    assert ([x] + ys)[1..] == ys;
  }

  /** Inserting puts `x` ahead of every element with its key, so among one key it comes first. */
  lemma {:induction false} InsertDescWithKey<T>(x: T, ys: seq<T>, key: T -> int, k: int)
    ensures WithKey(InsertDesc(x, ys, key), key, k) == (if key(x) == k then [x] else []) + WithKey(ys, key, k)
  {
    if ys == [] || key(x) >= key(ys[0]) {
      WithKeyCons(x, ys, key, k);
    } else {
      InsertDescWithKey(x, ys[1..], key, k);
      WithKeyCons(ys[0], InsertDesc(x, ys[1..], key), key, k);
      WithKeyCons(ys[0], ys[1..], key, k);
      assert [ys[0]] + ys[1..] == ys;
    }
  }

  /**
   * The sort is stable: the elements with any one key come out in the order
   * they had in `xs`.
   */
  lemma {:induction false} SortDescStable<T>(xs: seq<T>, key: T -> int, k: int)
    ensures WithKey(SortDesc(xs, key), key, k) == WithKey(xs, key, k)
  {
    if xs != [] {
      SortDescStable(xs[1..], key, k);
      InsertDescWithKey(xs[0], SortDesc(xs[1..], key), key, k);
    }
  }
}
