/** The store's read-path sort, `items.sort((a, b) => a.order - b.order)`:
    a stable sort by the `order` field (stability is guaranteed by the
    language since ES2019). */
module OrderSort {
  import opened TodoTypes

  /** Items appear in non-decreasing `order`. */
  predicate SortedByOrder<I>(s: seq<Item<I>>) {
    forall i, j :: 0 <= i < j < |s| ==> s[i].order <= s[j].order
  }

  /** The items whose `order` is `k`, in their relative order. */
  function WithOrder<I>(s: seq<Item<I>>, k: int): seq<Item<I>>
    decreases |s|
  {
    if |s| == 0 then []
    else (if s[0].order == k then [s[0]] else []) + WithOrder(s[1..], k)
  }

  /** Putting an item no later than the head in front of a sorted sequence
      keeps it sorted. */
  lemma ConsSorted<I>(h: Item<I>, t: seq<Item<I>>)
    ensures SortedByOrder(t) && (|t| > 0 ==> h.order <= t[0].order) ==> SortedByOrder([h] + t)
  {
    if SortedByOrder(t) && (|t| > 0 ==> h.order <= t[0].order) {
      var r := [h] + t;
      forall i, j | 0 <= i < j < |r|
        ensures r[i].order <= r[j].order
      {
        if i == 0 {
          assert r[j] == t[j - 1];
          assert t[0].order <= t[j - 1].order || j == 1;
        }
      }
    }
  }

  /** Inserts `x` before the first item whose order is not smaller, so `x`
      stays ahead of items with an equal order. */
  function InsertByOrder<I(==)>(x: Item<I>, s: seq<Item<I>>): (r: seq<Item<I>>)
    ensures |r| == |s| + 1
    ensures multiset(r) == multiset(s) + multiset{x}
    ensures r[0] == x || (|s| > 0 && r[0] == s[0])
    ensures SortedByOrder(s) ==> SortedByOrder(r)
    decreases |s|
  {
    if |s| == 0 || x.order <= s[0].order then
      ConsSorted(x, s);
      [x] + s
    else
      var t := InsertByOrder(x, s[1..]);
      InsertStep(x, s, t);
      [s[0]] + t
  }

  /** The recursive case of `InsertByOrder`: keeping the head in front of the
      insertion into the tail. */
  lemma InsertStep<I>(x: Item<I>, s: seq<Item<I>>, t: seq<Item<I>>)
    requires |s| > 0 && s[0].order < x.order
    requires |t| == |s| && multiset(t) == multiset(s[1..]) + multiset{x}
    requires t[0] == x || (|s| > 1 && t[0] == s[1])
    requires SortedByOrder(s[1..]) ==> SortedByOrder(t)
    ensures multiset([s[0]] + t) == multiset(s) + multiset{x}
    ensures SortedByOrder(s) ==> SortedByOrder([s[0]] + t)
  {
    assert s == [s[0]] + s[1..];
    if SortedByOrder(s) {
      assert SortedByOrder(s[1..]);
      if t[0] != x {
        assert s[0].order <= s[1].order;
      }
      ConsSorted(s[0], t);
    }
  }

  /** The sorted copy: a permutation of the items in non-decreasing `order`. */
  function SortByOrder<I(==)>(s: seq<Item<I>>): (r: seq<Item<I>>)
    ensures |r| == |s|
    ensures multiset(r) == multiset(s)
    ensures SortedByOrder(r)
    decreases |s|
  {
    if |s| == 0 then []
    else
      assert s == [s[0]] + s[1..];
      InsertByOrder(s[0], SortByOrder(s[1..]))
  }

  /** `WithOrder` takes the head first, then the tail. */
  lemma WithOrderCons<I>(h: Item<I>, t: seq<Item<I>>, k: int)
    ensures WithOrder([h] + t, k) == (if h.order == k then [h] else []) + WithOrder(t, k)
  {
    assert ([h] + t)[1..] == t;
  }

  /** Inserting `x` adds it in front of the items of its own order. */
  lemma {:induction false} InsertWithOrder<I>(x: Item<I>, s: seq<Item<I>>, k: int)
    ensures WithOrder(InsertByOrder(x, s), k) == (if x.order == k then [x] else []) + WithOrder(s, k)
    decreases |s|
  {
    if |s| == 0 || x.order <= s[0].order {
      WithOrderCons(x, s, k);
    } else {
      var t := InsertByOrder(x, s[1..]);
      InsertWithOrder(x, s[1..], k);
      KeepHeadWithOrder(s[0], x, t, s[1..], k);
      assert [s[0]] + s[1..] == s;
    }
  }

  /** An item ordered strictly before `x` can go in front on either side of
      the `WithOrder` equation for inserting `x`. */
  lemma KeepHeadWithOrder<I>(h: Item<I>, x: Item<I>, t: seq<Item<I>>, rest: seq<Item<I>>, k: int)
    requires h.order < x.order
    requires WithOrder(t, k) == (if x.order == k then [x] else []) + WithOrder(rest, k)
    ensures WithOrder([h] + t, k) == (if x.order == k then [x] else []) + WithOrder([h] + rest, k)
  {
    WithOrderCons(h, t, k);
    WithOrderCons(h, rest, k);
    var a := if h.order == k then [h] else [];
    var b := if x.order == k then [x] else [];
    assert a == [] || b == [];
    assert a + (b + WithOrder(rest, k)) == b + (a + WithOrder(rest, k));
  }

  /** Stability: for every order value, the items carrying it appear in the
      sorted copy in the same relative order as in the input. */
  lemma {:induction false} SortIsStable<I>(s: seq<Item<I>>, k: int)
    ensures WithOrder(SortByOrder(s), k) == WithOrder(s, k)
    decreases |s|
  {
    if |s| > 0 {
      SortIsStable(s[1..], k);
      InsertWithOrder(s[0], SortByOrder(s[1..]), k);
    }
  }

  /** Sorting an already sorted sequence changes nothing, so a second read of
      the store returns what the first returned. */
  lemma {:induction false} SortSortedIsIdentity<I>(s: seq<Item<I>>)
    requires SortedByOrder(s)
    ensures SortByOrder(s) == s
    decreases |s|
  {
    if |s| > 0 {
      assert SortedByOrder(s[1..]);
      SortSortedIsIdentity(s[1..]);
      if |s| > 1 {
        assert s[0].order <= s[1..][0].order;
      }
      assert [s[0]] + s[1..] == s;
    }
  }
}
