/** The move primitive and the per-list reorder built on it. */
module ArrayUtils {
  import opened Wrappers
  import opened TodoTypes
  import Splice
  import Seqs

  /** The position the moved element occupies after `arrayMove(a, from, to)`
      on an array of length `len`: `to` clamped to the last index, or a
      negative `to` counted back from the end of the shortened array. */
  function MoveTarget(len: nat, to: int): (k: nat)
    requires len > 0
    ensures k < len
    ensures 0 <= to ==> k == if to < len then to else len - 1
    ensures to < 0 ==> k == if len - 1 + to < 0 then 0 else len - 1 + to
  {
    Splice.StartIndex(to, len - 1)
  }

  /** The facts about a splice-out/splice-in pair that `ArrayMove` promises,
      stated on the underlying splices. */
  lemma SpliceMoveFacts<T>(a: seq<T>, from: nat, to: int)
    requires from < |a|
    ensures var r := Splice.Insert(Splice.Delete(a, from), to, a[from]);
      && multiset(r) == multiset(a)
      && r[MoveTarget(|a|, to)] == a[from]
      && Splice.Delete(r, MoveTarget(|a|, to)) == Splice.Delete(a, from)
  {
    Splice.DeleteInserted(Splice.Delete(a, from), to, a[from]);
  }

  /** `arrayMove(array, from, to)`: on a copy, takes out the element at `from`
      and splices it back in at `to`. The result is a rearrangement of the
      input in which the moved element sits at `MoveTarget(|a|, to)` and all
      other elements keep their relative order. */
  function ArrayMove<T>(a: seq<T>, from: int, to: int): (r: seq<T>)
    requires 0 <= from < |a|
    ensures |r| == |a|
    ensures multiset(r) == multiset(a)
    ensures r[MoveTarget(|a|, to)] == a[from]
    ensures Splice.Delete(r, MoveTarget(|a|, to)) == Splice.Delete(a, from)
  {
    SpliceMoveFacts(a, from, to);
    Splice.Insert(Splice.Delete(a, from), to, a[from])
  }

  /** An independent, position-by-position description of a move: the index
      of the input element that lands at position `i` when the element at
      `from` is moved to position `k`. */
  function MovedIndex(from: nat, k: nat, i: nat): nat {
    if i == k then from
    else if from < k && from <= i < k then i + 1
    else if k < from && k < i <= from then i - 1
    else i
  }

  /** One position of the splice-out/splice-in pair, by case analysis. */
  lemma SpliceMoveAt<T>(a: seq<T>, from: nat, to: int, i: nat)
    requires from < |a| && i < |a|
    ensures MovedIndex(from, MoveTarget(|a|, to), i) < |a|
    ensures Splice.Insert(Splice.Delete(a, from), to, a[from])[i] == a[MovedIndex(from, MoveTarget(|a|, to), i)]
  {
    var rest := Splice.Delete(a, from);
    var r := Splice.Insert(rest, to, a[from]);
    var k := MoveTarget(|a|, to);
    assert k == Splice.StartIndex(to, |rest|);
    Splice.InsertAt(rest, to, a[from], i);
    if i == k {
      assert MovedIndex(from, k, i) == from;
      assert r[i] == a[from];
    } else if i < k && i < from {
      assert MovedIndex(from, k, i) == i;
      Splice.DeleteAt(a, from, i);
      assert r[i] == a[i];
    } else if i < k {
      assert MovedIndex(from, k, i) == i + 1;
      Splice.DeleteAt(a, from, i);
      assert r[i] == a[i + 1];
    } else if i <= from {
      assert MovedIndex(from, k, i) == i - 1;
      Splice.DeleteAt(a, from, i - 1);
      assert r[i] == a[i - 1];
    } else {
      assert MovedIndex(from, k, i) == i;
      Splice.DeleteAt(a, from, i - 1);
      assert r[i] == a[i];
    }
  }

  /** `arrayMove` agrees with the position-by-position description. */
  lemma ArrayMoveElementwise<T>(a: seq<T>, from: nat, to: int)
    requires from < |a|
    ensures forall i :: 0 <= i < |a| ==>
      MovedIndex(from, MoveTarget(|a|, to), i) < |a| &&
      ArrayMove(a, from, to)[i] == a[MovedIndex(from, MoveTarget(|a|, to), i)]
  {
    forall i | 0 <= i < |a|
      ensures MovedIndex(from, MoveTarget(|a|, to), i) < |a|
      ensures ArrayMove(a, from, to)[i] == a[MovedIndex(from, MoveTarget(|a|, to), i)]
    {
      SpliceMoveAt(a, from, to, i);
    }
  }

  /** A move whose target is its own source changes nothing; in particular
      `arrayMove(a, i, i) == a`. */
  lemma ArrayMoveInPlace<T>(a: seq<T>, from: nat, to: int)
    requires from < |a| && MoveTarget(|a|, to) == from
    ensures ArrayMove(a, from, to) == a
  {
    Splice.InsertDeleted(a, from);
  }

  /** Moving the element back from where it landed to where it came from
      restores the input. */
  lemma ArrayMoveUndo<T>(a: seq<T>, from: nat, to: int)
    requires from < |a|
    ensures ArrayMove(ArrayMove(a, from, to), MoveTarget(|a|, to), from) == a
  {
    var r := ArrayMove(a, from, to);
    var k := MoveTarget(|a|, to);
    assert Splice.Delete(r, k) == Splice.Delete(a, from);
    Splice.InsertDeleted(a, from);
  }

  /** Moving commutes with projecting each element through `f`. */
  lemma ArrayMoveMap<T, U>(a: seq<T>, b: seq<U>, f: T -> U, from: nat, to: int)
    requires |b| == |a| && from < |a|
    requires forall j :: 0 <= j < |a| ==> b[j] == f(a[j])
    ensures ArrayMove(b, from, to) == seq(|a|, j requires 0 <= j < |a| => f(ArrayMove(a, from, to)[j]))
  {
    ArrayMoveElementwise(a, from, to);
    ArrayMoveElementwise(b, from, to);
  }

  /** The unit-test cases of `arrayMove`, including a move onto itself. */
  lemma ArrayMoveExamples()
    ensures ArrayMove([1, 2, 3, 4, 5], 0, 2) == [2, 3, 1, 4, 5]
    ensures ArrayMove([1, 2, 3, 4, 5], 3, 1) == [1, 4, 2, 3, 5]
    ensures ArrayMove([1, 2, 3, 4, 5], 1, 4) == [1, 3, 4, 5, 2]
    ensures ArrayMove([1, 2, 3, 4, 5], 4, 0) == [5, 1, 2, 3, 4]
    ensures ArrayMove([1, 2, 3, 4, 5], 2, 2) == [1, 2, 3, 4, 5]
    ensures ArrayMove([1, 2, 3], 0, 2) == [2, 3, 1]
  {
    ArrayMoveExample0To2();
    ArrayMoveExample3To1();
    ArrayMoveExample1To4();
    ArrayMoveExample4To0();
    ArrayMoveExampleShort0To2();
    ArrayMoveInPlace([1, 2, 3, 4, 5], 2, 2);
  }

  lemma ArrayMoveExample0To2()
    ensures ArrayMove([1, 2, 3, 4, 5], 0, 2) == [2, 3, 1, 4, 5]
  {
    SpliceOutExample0To2();
    SpliceInExample0To2();
  }

  lemma SpliceOutExample0To2()
    ensures Splice.Delete([1, 2, 3, 4, 5], 0) == [2, 3, 4, 5]
  {
    assert [1, 2, 3, 4, 5][..0] == [];
    assert [1, 2, 3, 4, 5][1..] == [2, 3, 4, 5];
  }

  lemma SpliceInExample0To2()
    ensures Splice.Insert([2, 3, 4, 5], 2, 1) == [2, 3, 1, 4, 5]
  {
    assert Splice.StartIndex(2, 4) == 2;
    assert [2, 3, 4, 5][..2] == [2, 3];
    assert [2, 3, 4, 5][2..] == [4, 5];
  }

  lemma ArrayMoveExample3To1()
    ensures ArrayMove([1, 2, 3, 4, 5], 3, 1) == [1, 4, 2, 3, 5]
  {
    SpliceOutExample3To1();
    SpliceInExample3To1();
  }

  lemma SpliceOutExample3To1()
    ensures Splice.Delete([1, 2, 3, 4, 5], 3) == [1, 2, 3, 5]
  {
    assert [1, 2, 3, 4, 5][..3] == [1, 2, 3];
    assert [1, 2, 3, 4, 5][4..] == [5];
  }

  lemma SpliceInExample3To1()
    ensures Splice.Insert([1, 2, 3, 5], 1, 4) == [1, 4, 2, 3, 5]
  {
    assert Splice.StartIndex(1, 4) == 1;
    assert [1, 2, 3, 5][..1] == [1];
    assert [1, 2, 3, 5][1..] == [2, 3, 5];
  }

  lemma ArrayMoveExample1To4()
    ensures ArrayMove([1, 2, 3, 4, 5], 1, 4) == [1, 3, 4, 5, 2]
  {
    SpliceOutExample1To4();
    SpliceInExample1To4();
  }

  lemma SpliceOutExample1To4()
    ensures Splice.Delete([1, 2, 3, 4, 5], 1) == [1, 3, 4, 5]
  {
    assert [1, 2, 3, 4, 5][..1] == [1];
    assert [1, 2, 3, 4, 5][2..] == [3, 4, 5];
  }

  lemma SpliceInExample1To4()
    ensures Splice.Insert([1, 3, 4, 5], 4, 2) == [1, 3, 4, 5, 2]
  {
    assert Splice.StartIndex(4, 4) == 4;
    assert [1, 3, 4, 5][..4] == [1, 3, 4, 5];
    assert [1, 3, 4, 5][4..] == [];
  }

  lemma ArrayMoveExample4To0()
    ensures ArrayMove([1, 2, 3, 4, 5], 4, 0) == [5, 1, 2, 3, 4]
  {
    SpliceOutExample4To0();
    SpliceInExample4To0();
  }

  lemma SpliceOutExample4To0()
    ensures Splice.Delete([1, 2, 3, 4, 5], 4) == [1, 2, 3, 4]
  {
    assert [1, 2, 3, 4, 5][..4] == [1, 2, 3, 4];
    assert [1, 2, 3, 4, 5][5..] == [];
  }

  lemma SpliceInExample4To0()
    ensures Splice.Insert([1, 2, 3, 4], 0, 5) == [5, 1, 2, 3, 4]
  {
    assert Splice.StartIndex(0, 4) == 0;
    assert [1, 2, 3, 4][..0] == [];
    assert [1, 2, 3, 4][0..] == [1, 2, 3, 4];
  }

  lemma ArrayMoveExampleShort0To2()
    ensures ArrayMove([1, 2, 3], 0, 2) == [2, 3, 1]
  {
    SpliceOutExampleShort0To2();
    SpliceInExampleShort0To2();
  }

  lemma SpliceOutExampleShort0To2()
    ensures Splice.Delete([1, 2, 3], 0) == [2, 3]
  {
    assert [1, 2, 3][..0] == [];
    assert [1, 2, 3][1..] == [2, 3];
  }

  lemma SpliceInExampleShort0To2()
    ensures Splice.Insert([2, 3], 2, 1) == [2, 3, 1]
  {
    assert Splice.StartIndex(2, 2) == 2;
    assert [2, 3][..2] == [2, 3];
    assert [2, 3][2..] == [];
  }

  /** The reorder applied to one list: when an item carries `itemId`, the first
      such item is moved to `newOrder`; otherwise the list is returned as is. */
  function MoveItem(list: ClientList, itemId: Id, newOrder: int): (r: ClientList)
    ensures r.id == list.id && r.name == list.name
    ensures multiset(r.todoItems) == multiset(list.todoItems)
    ensures itemId !in ItemIds(list.todoItems) ==> r == list
    ensures itemId in ItemIds(list.todoItems) ==>
      r.todoItems == ArrayMove(list.todoItems, IndexOfItem(list.todoItems, itemId).value, newOrder)
  {
    match IndexOfItem(list.todoItems, itemId)
    case None => list
    case Some(k) => list.(todoItems := ArrayMove(list.todoItems, k, newOrder))
  }

  /** `reorderItemInList(lists, listId, itemId, newOrder)`. */
  function ReorderItemInList(lists: seq<ClientList>, listId: Id, itemId: Id, newOrder: int): (r: seq<ClientList>)
    ensures |r| == |lists|
    ensures forall j :: 0 <= j < |lists| ==> r[j].id == lists[j].id && r[j].name == lists[j].name
    ensures forall j :: 0 <= j < |lists| && lists[j].id != listId ==> r[j] == lists[j]
    ensures forall j :: 0 <= j < |lists| ==> multiset(r[j].todoItems) == multiset(lists[j].todoItems)
    ensures forall j :: 0 <= j < |lists| && lists[j].id == listId ==>
      match IndexOfItem(lists[j].todoItems, itemId)
      case None => r[j] == lists[j]
      case Some(k) => r[j].todoItems == ArrayMove(lists[j].todoItems, k, newOrder)
    ensures (forall j :: 0 <= j < |lists| ==> lists[j].id != listId) ==> r == lists
  {
    var r := Seqs.MapWhere(lists, (l: ClientList) => l.id == listId,
                           (l: ClientList) => MoveItem(l, itemId, newOrder));
    assert forall j :: 0 <= j < |lists| ==>
      r[j] == if lists[j].id == listId then MoveItem(lists[j], itemId, newOrder) else lists[j];
    r
  }

  /** In a list whose item ids are unique, moving the `itemId` item to
      `newOrder` a second time finds it where the first move put it and leaves
      it there. */
  lemma MoveItemIdempotent(list: ClientList, itemId: Id, newOrder: int)
    requires UniqueItemIds(list.todoItems)
    ensures MoveItem(MoveItem(list, itemId, newOrder), itemId, newOrder) == MoveItem(list, itemId, newOrder)
  {
    match IndexOfItem(list.todoItems, itemId)
    case None =>
    case Some(k) =>
      var b := ArrayMove(list.todoItems, k, newOrder);
      var t := MoveTarget(|list.todoItems|, newOrder);
      MovedItemFoundAtTarget(list.todoItems, k, newOrder);
      ArrayMoveInPlace(b, t, newOrder);
  }

  /** With unique ids, the moved item is the first one carrying its id in
      the result, at the move's target. */
  lemma MovedItemFoundAtTarget(a: seq<ClientItem>, k: nat, to: int)
    requires k < |a| && UniqueItemIds(a)
    ensures IndexOfItem(ArrayMove(a, k, to), a[k].id) == Some(MoveTarget(|a|, to))
  {
    var b := ArrayMove(a, k, to);
    var t := MoveTarget(|a|, to);
    var rest := Splice.Delete(a, k);
    assert Splice.Delete(b, t) == rest;
    forall j | 0 <= j < t
      ensures b[j].id != a[k].id
    {
      assert b[j] == rest[j];
      assert rest[j] == if j < k then a[j] else a[j + 1];
    }
    FirstItemAt(b, a[k].id, t);
  }

  /** `reorderItemInList` is idempotent when the item ids of the target list(s)
      are unique: re-applying it to its own result changes nothing. */
  lemma ReorderIdempotent(lists: seq<ClientList>, listId: Id, itemId: Id, newOrder: int)
    requires forall j :: 0 <= j < |lists| && lists[j].id == listId ==> UniqueItemIds(lists[j].todoItems)
    ensures ReorderItemInList(ReorderItemInList(lists, listId, itemId, newOrder), listId, itemId, newOrder)
         == ReorderItemInList(lists, listId, itemId, newOrder)
  {
    var r1 := ReorderItemInList(lists, listId, itemId, newOrder);
    var r2 := ReorderItemInList(r1, listId, itemId, newOrder);
    forall j | 0 <= j < |lists|
      ensures r2[j] == r1[j]
    {
      ReorderTwiceAt(lists, listId, itemId, newOrder, j);
    }
  }

  /** One list of `ReorderIdempotent`. */
  lemma ReorderTwiceAt(lists: seq<ClientList>, listId: Id, itemId: Id, newOrder: int, j: nat)
    requires j < |lists|
    requires lists[j].id == listId ==> UniqueItemIds(lists[j].todoItems)
    ensures var r1 := ReorderItemInList(lists, listId, itemId, newOrder);
      ReorderItemInList(r1, listId, itemId, newOrder)[j] == r1[j]
  {
    var r1 := ReorderItemInList(lists, listId, itemId, newOrder);
    ReorderAt(lists, listId, itemId, newOrder, j);
    ReorderAt(r1, listId, itemId, newOrder, j);
    if lists[j].id == listId {
      MoveItemIdempotent(lists[j], itemId, newOrder);
    }
  }

  /** Position `j` of a reorder: the moved list when it matches, else as is. */
  lemma ReorderAt(lists: seq<ClientList>, listId: Id, itemId: Id, newOrder: int, j: nat)
    requires j < |lists|
    ensures ReorderItemInList(lists, listId, itemId, newOrder)[j]
         == if lists[j].id == listId then MoveItem(lists[j], itemId, newOrder) else lists[j]
  {
  }

  /** The ids of a moved list are the moved ids: a reorder permutes the id
      sequence exactly as it permutes the items. */
  lemma MoveItemIds(items: seq<ClientItem>, from: nat, to: int)
    requires from < |items|
    ensures ItemIds(ArrayMove(items, from, to)) == ArrayMove(ItemIds(items), from, to)
  {
    ArrayMoveMap(items, ItemIds(items), (x: ClientItem) => x.id, from, to);
  }

  /** When no list carrying `listId` holds an item with `itemId`, the
      reorder returns its input unchanged. */
  lemma ReorderMissingItemIsIdentity(lists: seq<ClientList>, listId: Id, itemId: Id, newOrder: int)
    requires forall j :: 0 <= j < |lists| && lists[j].id == listId ==> itemId !in ItemIds(lists[j].todoItems)
    ensures ReorderItemInList(lists, listId, itemId, newOrder) == lists
  {
    var r := ReorderItemInList(lists, listId, itemId, newOrder);
    forall j | 0 <= j < |lists|
      ensures r[j] == lists[j]
    {
      if lists[j].id == listId {
        var items := lists[j].todoItems;
        assert forall i :: 0 <= i < |items| ==> items[i].id == ItemIds(items)[i] != itemId;
      }
    }
  }

  /** The two lists of the `reorderItemInList` unit tests. */
  const TestLists: seq<ClientList> := [
    TodoList(Real(1), "List 1", [Item(Real(10), "Item 1", None, false, 0), Item(Real(11), "Item 2", None, false, 1)]),
    TodoList(Real(2), "List 2", [Item(Real(20), "Item A", None, false, 0), Item(Real(21), "Item B", None, false, 1)])
  ]

  /** Moving item 10 of list 1 to index 1 swaps the two items, which keep
      their `order` values 0 and 1 (so the first item now carries order 1;
      the unit test expects the orders renumbered), and list 2 is untouched. */
  lemma ReorderTestCase()
    ensures var r := ReorderItemInList(TestLists, Real(1), Real(10), 1);
      && |r| == 2
      && r[0] == TodoList(Real(1), "List 1", [Item(Real(11), "Item 2", None, false, 1), Item(Real(10), "Item 1", None, false, 0)])
      && r[1] == TestLists[1]
  {
    var items := TestLists[0].todoItems;
    assert IndexOfItem(items, Real(10)) == Some(0);
    TestCaseMove(items);
  }

  lemma TestCaseMove(items: seq<ClientItem>)
    requires items == TestLists[0].todoItems
    ensures ArrayMove(items, 0, 1) == [items[1], items[0]]
  {
    assert |items| == 2;
    var rest := Splice.Delete(items, 0);
    Splice.DeleteAt(items, 0, 0);
    assert rest == [items[1]];
    var r := Splice.Insert(rest, 1, items[0]);
    Splice.InsertAt(rest, 1, items[0], 0);
    Splice.InsertAt(rest, 1, items[0], 1);
    assert r == [items[1], items[0]];
  }

  /** Reordering never touches `order` fields: the set of orders in every
      list is unchanged, so a list with dense orders keeps dense orders. */
  lemma ReorderKeepsOrderSet(lists: seq<ClientList>, listId: Id, itemId: Id, newOrder: int, j: nat)
    requires j < |lists|
    ensures OrderSet(ReorderItemInList(lists, listId, itemId, newOrder)[j].todoItems) == OrderSet(lists[j].todoItems)
  {
    var a := lists[j].todoItems;
    var b := ReorderItemInList(lists, listId, itemId, newOrder)[j].todoItems;
    assert multiset(a) == multiset(b);
    forall o | o in OrderSet(a) ensures o in OrderSet(b) {
      var i :| 0 <= i < |a| && a[i].order == o;
      assert a[i] in multiset(b);
    }
    forall o | o in OrderSet(b) ensures o in OrderSet(a) {
      var i :| 0 <= i < |b| && b[i].order == o;
      assert b[i] in multiset(a);
    }
  }
}
