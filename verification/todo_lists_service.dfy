/** The server's in-memory store of todo lists: every operation takes the
    current state and returns the next state with its reply, or a NotFound
    error when a referenced list or item does not exist. */
module TodoListsService {
  import opened Wrappers
  import opened TodoTypes
  import opened DecimalOrder
  import opened OrderSort
  import Splice

  /** The two exceptions the store throws, with the id it could not find. */
  datatype NotFound = ListNotFound(listId: int) | ItemNotFound(itemId: int)

  /** The store's state: the lists in insertion order. */
  datatype Store = Store(todolists: seq<ServerList>)

  /** An operation's next state together with what it returns. */
  datatype Reply<T> = Reply(store: Store, value: T)

  /** `assertTodoListExists`: the position of the first list carrying `id`,
      failing exactly when no list carries it. */
  function AssertTodoListExists(s: Store, id: int): (r: Result<nat, NotFound>)
    ensures r.Success? ==> r.value < |s.todolists| && s.todolists[r.value].id == id
    ensures r.Success? ==> forall j :: 0 <= j < r.value ==> s.todolists[j].id != id
    ensures r.Failure? <==> id !in ListIds(s.todolists)
    ensures r.Failure? ==> r.error == ListNotFound(id)
    ensures r.Success? ==> IndexOfList(s.todolists, id) == Some(r.value)
  {
    match IndexOfList(s.todolists, id)
    case None => Failure(ListNotFound(id))
    case Some(k) => Success(k)
  }

  /** `assertTodoItemExists`: the position of the first item of `list`
      carrying `itemId`, failing exactly when no item carries it. */
  function AssertTodoItemExists(list: ServerList, itemId: int): (r: Result<nat, NotFound>)
    ensures r.Success? ==> r.value < |list.todoItems| && list.todoItems[r.value].id == itemId
    ensures r.Success? ==> forall j :: 0 <= j < r.value ==> list.todoItems[j].id != itemId
    ensures r.Failure? <==> itemId !in ItemIds(list.todoItems)
    ensures r.Failure? ==> r.error == ItemNotFound(itemId)
    ensures r.Success? ==> IndexOfItem(list.todoItems, itemId) == Some(r.value)
  {
    match IndexOfItem(list.todoItems, itemId)
    case None => Failure(ItemNotFound(itemId))
    case Some(k) => Success(k)
  }

  /** A list whose items have been sorted by `order` (in place: in the
      TypeScript code the sort rewrites the stored array). */
  function SortedList(l: ServerList): (r: ServerList)
    ensures r.id == l.id && r.name == l.name
    ensures multiset(r.todoItems) == multiset(l.todoItems)
    ensures SortedByOrder(r.todoItems)
  {
    l.(todoItems := SortByOrder(l.todoItems))
  }

  /** The in-place sort is stable: for every order value, the items carrying
      it keep their relative order. */
  lemma SortedListStable(l: ServerList, k: int)
    ensures WithOrder(SortedList(l).todoItems, k) == WithOrder(l.todoItems, k)
  {
    SortIsStable(l.todoItems, k);
  }

  /** `findAll`: every list, in stored order, with its items sorted; the sort
      is also written back to the store. */
  function FindAll(s: Store): (r: Reply<seq<ServerList>>)
    ensures |r.value| == |s.todolists|
    ensures r.store.todolists == r.value
    ensures forall j :: 0 <= j < |s.todolists| ==>
      && r.value[j].id == s.todolists[j].id
      && r.value[j].name == s.todolists[j].name
      && multiset(r.value[j].todoItems) == multiset(s.todolists[j].todoItems)
      && SortedByOrder(r.value[j].todoItems)
  {
    var lists := seq(|s.todolists|, j requires 0 <= j < |s.todolists| => SortedList(s.todolists[j]));
    Reply(Store(lists), lists)
  }

  /** `findOne`: the first list with `id`, items sorted (also in the store). */
  function FindOne(s: Store, id: int): (r: Result<Reply<ServerList>, NotFound>)
    ensures r.Failure? <==> id !in ListIds(s.todolists)
    ensures r.Failure? ==> r.error == ListNotFound(id)
    ensures r.Success? ==>
      var k := IndexOfList(s.todolists, id).value;
      && r.value.value.id == id
      && r.value.value.name == s.todolists[k].name
      && multiset(r.value.value.todoItems) == multiset(s.todolists[k].todoItems)
      && SortedByOrder(r.value.value.todoItems)
      && r.value.store == Store(s.todolists[k := r.value.value])
  {
    var k :- AssertTodoListExists(s, id);
    var list := SortedList(s.todolists[k]);
    Success(Reply(Store(s.todolists[k := list]), list))
  }

  /** `create`: appends a new, empty list named `dto.name` under the id
      `nextId` picks; the lists already stored are untouched. */
  function Create(s: Store, dto: CreateListInput): (r: Reply<ServerList>)
    ensures r.value.id == NextId(ListIds(s.todolists))
    ensures r.value.name == dto.name && r.value.todoItems == []
    ensures |r.store.todolists| == |s.todolists| + 1
    ensures r.store.todolists[..|s.todolists|] == s.todolists
    ensures r.store.todolists[|s.todolists|] == r.value
  {
    var list := TodoList(NextId(ListIds(s.todolists)), dto.name, []);
    Reply(Store(s.todolists + [list]), list)
  }

  /** `update`: renames the first list with `id`; nothing else changes. */
  function Update(s: Store, id: int, dto: UpdateListInput): (r: Result<Reply<ServerList>, NotFound>)
    ensures r.Failure? <==> id !in ListIds(s.todolists)
    ensures r.Failure? ==> r.error == ListNotFound(id)
    ensures r.Success? ==>
      var k := IndexOfList(s.todolists, id).value;
      && r.value.value == s.todolists[k].(name := dto.name)
      && |r.value.store.todolists| == |s.todolists|
      && r.value.store.todolists[k] == r.value.value
      && forall j :: 0 <= j < |s.todolists| && j != k ==> r.value.store.todolists[j] == s.todolists[j]
  {
    var k :- AssertTodoListExists(s, id);
    var list := s.todolists[k].(name := dto.name);
    Success(Reply(Store(s.todolists[k := list]), list))
  }

  /** `delete`: removes the first list with `id`, together with its items;
      the other lists keep their relative order. */
  function Delete(s: Store, id: int): (r: Result<Store, NotFound>)
    ensures r.Failure? <==> id !in ListIds(s.todolists)
    ensures r.Failure? ==> r.error == ListNotFound(id)
    ensures r.Success? ==>
      var k := IndexOfList(s.todolists, id).value;
      r.value.todolists == Splice.Delete(s.todolists, k)
  {
    var k :- AssertTodoListExists(s, id);
    Success(Store(Splice.Delete(s.todolists, k)))
  }

  /** `Math.max(-1, ...orders)`: the largest order of the items, or -1. */
  function MaxOrder<I>(items: seq<Item<I>>): (m: int)
    ensures m >= -1
    ensures forall j :: 0 <= j < |items| ==> items[j].order <= m
    ensures m == -1 || m in OrderSet(items)
    decreases |items|
  {
    if |items| == 0 then -1
    else
      var m := MaxOrder(items[1..]);
      if items[0].order > m then items[0].order
      else
        assert m != -1 ==> m in OrderSet(items) by {
          if m != -1 {
            var j :| 0 <= j < |items[1..]| && items[1..][j].order == m;
            assert items[j + 1].order == m;
          }
        }
        m
  }

  /** The order `addTodoItem` gives a new item: one past every existing order
      and never negative, and the smallest such value, since it is 0 or
      immediately follows an existing order. */
  function NextOrder<I>(items: seq<Item<I>>): (o: int)
    ensures o >= 0
    ensures forall j :: 0 <= j < |items| ==> items[j].order < o
    ensures o == 0 || o - 1 in OrderSet(items)
    ensures |items| == 0 ==> o == 0
  {
    MaxOrder(items) + 1
  }

  /** `addTodoItem`: appends a not-done item to the first list with
      `listId`, with the next id of that list's own id scope and the next
      order. */
  function AddTodoItem(s: Store, listId: int, dto: CreateItemInput): (r: Result<Reply<ServerItem>, NotFound>)
    ensures r.Failure? <==> listId !in ListIds(s.todolists)
    ensures r.Failure? ==> r.error == ListNotFound(listId)
    ensures r.Success? ==>
      var k := IndexOfList(s.todolists, listId).value;
      var old_items := s.todolists[k].todoItems;
      var item := r.value.value;
      && item.id == NextId(ItemIds(old_items))
      && item.name == dto.name && item.description == dto.description && !item.done
      && item.order == NextOrder(old_items)
      && item.order >= 0
      && (forall j :: 0 <= j < |old_items| ==> old_items[j].order < item.order)
      && r.value.store == Store(s.todolists[k := s.todolists[k].(todoItems := old_items + [item])])
  {
    var k :- AssertTodoListExists(s, listId);
    var list := s.todolists[k];
    var item := Item(NextId(ItemIds(list.todoItems)), dto.name, dto.description, false, NextOrder(list.todoItems));
    Success(Reply(Store(s.todolists[k := list.(todoItems := list.todoItems + [item])]), item))
  }

  /** `findAllTodoItems`: the items of the first list with `listId`, sorted
      by order (the sort is written back to the store). */
  function FindAllTodoItems(s: Store, listId: int): (r: Result<Reply<seq<ServerItem>>, NotFound>)
    ensures r.Failure? <==> listId !in ListIds(s.todolists)
    ensures r.Failure? ==> r.error == ListNotFound(listId)
    ensures r.Success? ==>
      var k := IndexOfList(s.todolists, listId).value;
      && multiset(r.value.value) == multiset(s.todolists[k].todoItems)
      && SortedByOrder(r.value.value)
      && r.value.store == Store(s.todolists[k := s.todolists[k].(todoItems := r.value.value)])
  {
    var k :- AssertTodoListExists(s, listId);
    var list := SortedList(s.todolists[k]);
    Success(Reply(Store(s.todolists[k := list]), list.todoItems))
  }

  /** `findOneTodoItem`: the first item with `itemId` in the first list with
      `listId`; the store is unchanged. */
  function FindOneTodoItem(s: Store, listId: int, itemId: int): (r: Result<ServerItem, NotFound>)
    ensures listId !in ListIds(s.todolists) ==> r == Failure(ListNotFound(listId))
    ensures listId in ListIds(s.todolists) ==>
      var list := s.todolists[IndexOfList(s.todolists, listId).value];
      && (r.Failure? <==> itemId !in ItemIds(list.todoItems))
      && (r.Failure? ==> r.error == ItemNotFound(itemId))
      && (r.Success? ==> r.value in list.todoItems && r.value.id == itemId)
      && (r.Success? ==> r.value == list.todoItems[IndexOfItem(list.todoItems, itemId).value])
  {
    var k :- AssertTodoListExists(s, listId);
    var i :- AssertTodoItemExists(s.todolists[k], itemId);
    Success(s.todolists[k].todoItems[i])
  }

  /** `updateTodoItem`: patches the fields the patch defines on the first
      matching item; every other item and every other list is unchanged. */
  function UpdateTodoItem(s: Store, listId: int, itemId: int, patch: ItemPatch): (r: Result<Reply<ServerItem>, NotFound>)
    ensures listId !in ListIds(s.todolists) ==> r == Failure(ListNotFound(listId))
    ensures listId in ListIds(s.todolists) ==>
      var k := IndexOfList(s.todolists, listId).value;
      var items := s.todolists[k].todoItems;
      && (r.Failure? <==> itemId !in ItemIds(items))
      && (r.Failure? ==> r.error == ItemNotFound(itemId))
      && (r.Success? ==>
            var i := IndexOfItem(items, itemId).value;
            && r.value.value == ApplyPatch(items[i], patch)
            && r.value.value.id == itemId
            && r.value.store == Store(s.todolists[k := s.todolists[k].(todoItems := items[i := r.value.value])]))
  {
    var k :- AssertTodoListExists(s, listId);
    var list := s.todolists[k];
    var i :- AssertTodoItemExists(list, itemId);
    var item := ApplyPatch(list.todoItems[i], patch);
    Success(Reply(Store(s.todolists[k := list.(todoItems := list.todoItems[i := item])]), item))
  }

  /** `removeTodoItem`: takes the first matching item out of its list; the
      remaining items keep their relative order and their `order` values. */
  function RemoveTodoItem(s: Store, listId: int, itemId: int): (r: Result<Store, NotFound>)
    ensures listId !in ListIds(s.todolists) ==> r == Failure(ListNotFound(listId))
    ensures listId in ListIds(s.todolists) ==>
      var k := IndexOfList(s.todolists, listId).value;
      var items := s.todolists[k].todoItems;
      && (r.Failure? <==> itemId !in ItemIds(items))
      && (r.Failure? ==> r.error == ItemNotFound(itemId))
      && (r.Success? ==>
            var i := IndexOfItem(items, itemId).value;
            && |r.value.todolists| == |s.todolists|
            && |r.value.todolists[k].todoItems| == |items| - 1
            && r.value.todolists[k].todoItems == Splice.Delete(items, i)
            && r.value.todolists[k] == s.todolists[k].(todoItems := Splice.Delete(items, i))
            && forall j :: 0 <= j < |s.todolists| && j != k ==> r.value.todolists[j] == s.todolists[j])
  {
    var k :- AssertTodoListExists(s, listId);
    var list := s.todolists[k];
    var i :- AssertTodoItemExists(list, itemId);
    Success(Store(s.todolists[k := list.(todoItems := Splice.Delete(list.todoItems, i))]))
  }

  /** With dense orders 0..n-1 the next order is n, which is also the order
      the client's optimistic create assumes (the item count). */
  lemma DenseNextOrder<I>(items: seq<Item<I>>)
    requires DenseOrders(items)
    ensures NextOrder(items) == |items|
  {
    var n := |items|;
    var m := MaxOrder(items);
    if n > 0 {
      assert n - 1 in Positions(n);
      var j :| 0 <= j < n && items[j].order == n - 1;
      assert m >= n - 1;
      if m != -1 {
        assert m in Positions(n);
      }
    }
  }

  /** Appending an item whose order is the item count keeps orders dense. */
  lemma AppendKeepsDense(items: seq<ServerItem>, item: ServerItem)
    requires DenseOrders(items) && item.order == |items|
    ensures DenseOrders(items + [item])
  {
    var t := items + [item];
    assert OrderSet(t) == OrderSet(items) + {item.order} by {
      forall o | o in OrderSet(t) ensures o in OrderSet(items) + {item.order} {
        var j :| 0 <= j < |t| && t[j].order == o;
        if j < |items| {
          assert items[j].order == o;
        }
      }
      forall o | o in OrderSet(items) ensures o in OrderSet(t) {
        var j :| 0 <= j < |items| && items[j].order == o;
        assert t[j].order == o;
      }
      assert t[|items|].order == item.order;
    }
  }

  /** `addTodoItem` on a list with orders 0..n-1 gives the new item order n,
      so the list's orders become 0..n. */
  lemma AddTodoItemKeepsDense(s: Store, listId: int, dto: CreateItemInput)
    requires listId in ListIds(s.todolists)
    requires DenseOrders(s.todolists[IndexOfList(s.todolists, listId).value].todoItems)
    ensures AddTodoItem(s, listId, dto).Success?
    ensures var k := IndexOfList(s.todolists, listId).value;
      var r := AddTodoItem(s, listId, dto).value;
      && r.value.order == |s.todolists[k].todoItems|
      && DenseOrders(r.store.todolists[k].todoItems)
  {
    var k := IndexOfList(s.todolists, listId).value;
    var items := s.todolists[k].todoItems;
    DenseNextOrder(items);
    var r := AddTodoItem(s, listId, dto).value;
    AppendKeepsDense(items, r.value);
  }

  /** No two lists share an id. */
  predicate UniqueListIds(s: Store) {
    forall i, j :: 0 <= i < j < |s.todolists| ==> s.todolists[i].id != s.todolists[j].id
  }

  /** When list ids are unique, a deleted list can no longer be found. */
  lemma DeleteThenNotFound(s: Store, id: int)
    requires UniqueListIds(s)
    requires id in ListIds(s.todolists)
    ensures Delete(s, id).Success?
    ensures FindOne(Delete(s, id).value, id) == Failure(ListNotFound(id))
  {
    var k := IndexOfList(s.todolists, id).value;
    var rest := Delete(s, id).value.todolists;
    forall j | 0 <= j < |rest|
      ensures rest[j].id != id
    {
      if j < k {
        assert rest[j] == s.todolists[j];
      } else {
        assert rest[j] == s.todolists[j + 1];
      }
    }
  }

  /** Reading twice gives what reading once gave: the first read has already
      written the sorted order back to the store. */
  lemma FindAllTwice(s: Store)
    ensures FindAll(FindAll(s).store) == FindAll(s)
  {
    var once := FindAll(s);
    var twice := FindAll(once.store);
    forall j | 0 <= j < |once.value|
      ensures twice.value[j] == once.value[j]
    {
      SortSortedIsIdentity(once.value[j].todoItems);
    }
    assert twice.value == once.value;
  }

  /** While every list id is a single digit, `create` picks the numeric
      maximum plus one, an id no stored list carries. */
  lemma CreateFreshWhileSingleDigit(s: Store, dto: CreateListInput)
    requires forall x :: x in ListIds(s.todolists) ==> 0 <= x <= 9
    ensures Create(s, dto).value.id == NumericNextId(ListIds(s.todolists))
    ensures Create(s, dto).value.id !in ListIds(s.todolists)
  {
    NextIdSingleDigits(ListIds(s.todolists));
  }

  /** A list created under a fresh id is what `findOne` then returns. */
  lemma CreateThenFindOne(s: Store, dto: CreateListInput)
    requires NextId(ListIds(s.todolists)) !in ListIds(s.todolists)
    ensures var c := Create(s, dto);
      var f := FindOne(c.store, c.value.id);
      f.Success? && f.value.value == TodoList(c.value.id, dto.name, [])
  {
    var id := NextId(ListIds(s.todolists));
    var after := s.todolists + [TodoList(id, dto.name, [])];
    var n := |s.todolists|;
    forall j | 0 <= j < n
      ensures after[j].id != id
    {
      assert after[j].id == ListIds(s.todolists)[j];
    }
    FirstListAt(after, id, n);
    assert Create(s, dto).store.todolists == after;
  }

  /** Once list ids 9 and 10 are both taken (all ids within 1..89), `create`
      hands out 10 again, and `findOne(10)` keeps answering with the older
      list: the new list cannot be reached by its id. */
  lemma CreateAfterTenIsShadowed(s: Store, dto: CreateListInput)
    requires 9 in ListIds(s.todolists) && 10 in ListIds(s.todolists)
    requires forall x :: x in ListIds(s.todolists) ==> 1 <= x <= 89
    ensures Create(s, dto).value.id == 10
    ensures var k := IndexOfList(s.todolists, 10).value;
      FindOne(Create(s, dto).store, 10).value.value.name == s.todolists[k].name
  {
    NextIdStuckAtTen(ListIds(s.todolists));
    var after := s.todolists + [TodoList(10, dto.name, [])];
    assert Create(s, dto).store.todolists == after;
    var k := IndexOfList(s.todolists, 10).value;
    assert forall j :: 0 <= j <= k ==> after[j] == s.todolists[j];
    FirstListAt(after, 10, k);
  }

  /** After `updateTodoItem`, `findOneTodoItem` returns the patched item. */
  lemma UpdateThenFindItem(s: Store, listId: int, itemId: int, patch: ItemPatch)
    requires listId in ListIds(s.todolists)
    requires itemId in ItemIds(s.todolists[IndexOfList(s.todolists, listId).value].todoItems)
    ensures var u := UpdateTodoItem(s, listId, itemId, patch);
      u.Success? && FindOneTodoItem(u.value.store, listId, itemId) == Success(u.value.value)
  {
    var k := IndexOfList(s.todolists, listId).value;
    var list := s.todolists[k];
    var i := IndexOfItem(list.todoItems, itemId).value;
    var item := ApplyPatch(list.todoItems[i], patch);
    var items' := list.todoItems[i := item];
    var after := s.todolists[k := list.(todoItems := items')];
    assert UpdateTodoItem(s, listId, itemId, patch) == Success(Reply(Store(after), item));
    ReplaceListKeepsIndex(s.todolists, listId, k, list.(todoItems := items'));
    ReplaceItemKeepsIndex(list.todoItems, itemId, i, item);
  }

  /** When a list's item ids are unique, a removed item can no longer be
      found in it. */
  lemma RemoveThenItemNotFound(s: Store, listId: int, itemId: int)
    requires listId in ListIds(s.todolists)
    requires UniqueItemIds(s.todolists[IndexOfList(s.todolists, listId).value].todoItems)
    requires itemId in ItemIds(s.todolists[IndexOfList(s.todolists, listId).value].todoItems)
    ensures RemoveTodoItem(s, listId, itemId).Success?
    ensures FindOneTodoItem(RemoveTodoItem(s, listId, itemId).value, listId, itemId) == Failure(ItemNotFound(itemId))
  {
    var k := IndexOfList(s.todolists, listId).value;
    var list := s.todolists[k];
    var i := IndexOfItem(list.todoItems, itemId).value;
    var rest := Splice.Delete(list.todoItems, i);
    var after := s.todolists[k := list.(todoItems := rest)];
    assert RemoveTodoItem(s, listId, itemId) == Success(Store(after));
    ReplaceListKeepsIndex(s.todolists, listId, k, list.(todoItems := rest));
    RemovedIdGone(list.todoItems, itemId, i);
  }

  /** With unique ids, deleting the item carrying `id` leaves none. */
  lemma RemovedIdGone(items: seq<ServerItem>, id: int, i: nat)
    requires i < |items| && items[i].id == id && UniqueItemIds(items)
    ensures IndexOfItem(Splice.Delete(items, i), id) == None
  {
    var rest := Splice.Delete(items, i);
    forall j | 0 <= j < |rest|
      ensures rest[j].id != id
    {
      if j < i {
        assert rest[j] == items[j];
      } else {
        assert rest[j] == items[j + 1];
      }
    }
  }
}
