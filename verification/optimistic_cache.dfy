/** The client's optimistic mirror of the todo lists: for each mutation,
    the cache update applied before the server answers, the snapshot taken
    before it, and the rollback to that snapshot when the mutation fails. */
module OptimisticCache {
  import opened Wrappers
  import opened TodoTypes
  import Seqs
  import Splice
  import ArrayUtils
  import TodoListsService

  /** The cached `['todo-lists']` query; `None` while nothing is cached. */
  type Cache = Option<seq<ClientList>>

  /** `createList` update: the cached lists (or none) followed by a new empty
      list under the placeholder id. */
  function CreateListUpdate(cached: Cache, input: CreateListInput): (r: Cache)
    ensures r.Some?
    ensures |r.value| == |cached.GetOr([])| + 1
    ensures r.value[..|cached.GetOr([])|] == cached.GetOr([])
    ensures r.value[|cached.GetOr([])|] == TodoList(Temp, input.name, [])
  {
    Some(cached.GetOr([]) + [TodoList(Temp, input.name, [])])
  }

  /** `updateList` update: every list with the id is renamed, every other list
      is kept; an empty cache stays empty. */
  function UpdateListUpdate(cached: Cache, id: Id, input: UpdateListInput): (r: Cache)
    ensures r.Some? <==> cached.Some?
    ensures cached.Some? ==> |r.value| == |cached.value|
    ensures cached.Some? ==> forall j :: 0 <= j < |cached.value| ==>
      r.value[j] == if cached.value[j].id == id then cached.value[j].(name := input.name) else cached.value[j]
  {
    match cached
    case None => None
    case Some(lists) =>
      Some(Seqs.MapWhere(lists, (l: ClientList) => l.id == id,
                         (l: ClientList) => l.(name := input.name)))
  }

  /** The list filter: drops every list with the id. */
  function DropLists(lists: seq<ClientList>, id: Id): seq<ClientList> {
    Seqs.FilterOut(lists, (l: ClientList) => l.id == id)
  }

  /** `deleteList` update: drops every list with the id and keeps the others
      in their relative order; an empty cache stays empty. */
  function DeleteListUpdate(cached: Cache, id: Id): (r: Cache)
    ensures r.Some? <==> cached.Some?
    ensures cached.Some? ==> r.value == DropLists(cached.value, id)
    ensures cached.Some? && id !in ListIds(cached.value) ==> r == cached
    ensures cached.Some? ==> forall j :: 0 <= j < |r.value| ==> r.value[j].id != id && r.value[j] in cached.value
    ensures cached.Some? ==> forall j :: 0 <= j < |cached.value| && cached.value[j].id != id ==> cached.value[j] in r.value
  {
    match cached
    case None => None
    case Some(lists) => Some(DropLists(lists, id))
  }

  /** `deleteItem` on a list holding the item once removes exactly that item:
      the others keep their relative order. */
  lemma DeleteItemRemovesOne(lists: seq<ClientList>, listId: Id, itemId: Id, j: nat, i: nat)
    requires j < |lists| && lists[j].id == listId
    requires i < |lists[j].todoItems| && lists[j].todoItems[i].id == itemId
    requires forall m :: 0 <= m < |lists[j].todoItems| && m != i ==> lists[j].todoItems[m].id != itemId
    ensures DeleteItemUpdate(Some(lists), listId, itemId).value[j].todoItems == Splice.Delete(lists[j].todoItems, i)
  {
    Seqs.FilterOutSingle(lists[j].todoItems, (x: ClientItem) => x.id == itemId, i);
  }

  /** With one cached list carrying the id, `deleteList` removes exactly that
      list and the others keep their relative order. */
  lemma DeleteListRemovesOne(lists: seq<ClientList>, id: Id, k: nat)
    requires k < |lists| && lists[k].id == id
    requires forall j :: 0 <= j < |lists| && j != k ==> lists[j].id != id
    ensures DeleteListUpdate(Some(lists), id) == Some(Splice.Delete(lists, k))
  {
    Seqs.FilterOutSingle(lists, (l: ClientList) => l.id == id, k);
  }

  /** The placeholder item `createItem` appends to a list with `n` items. */
  function TempItem(input: CreateItemInput, n: nat): ClientItem {
    Item(Temp, input.name, None, false, n)
  }

  /** `createItem` update: every list with the id gets a placeholder item
      appended (name from the input, not done, order equal to the previous
      item count); every other list is kept; an empty cache stays empty. */
  function CreateItemUpdate(cached: Cache, listId: Id, input: CreateItemInput): (r: Cache)
    ensures r.Some? <==> cached.Some?
    ensures cached.Some? ==> |r.value| == |cached.value|
    ensures cached.Some? ==> forall j :: 0 <= j < |cached.value| && cached.value[j].id != listId ==> r.value[j] == cached.value[j]
    ensures cached.Some? ==> forall j :: 0 <= j < |cached.value| && cached.value[j].id == listId ==>
      var items := cached.value[j].todoItems;
      && r.value[j].id == cached.value[j].id && r.value[j].name == cached.value[j].name
      && |r.value[j].todoItems| == |items| + 1
      && r.value[j].todoItems[..|items|] == items
      && r.value[j].todoItems[|items|] == Item(Temp, input.name, None, false, |items|)
  {
    match cached
    case None => None
    case Some(lists) =>
      Some(Seqs.MapWhere(lists, (l: ClientList) => l.id == listId,
                         (l: ClientList) => l.(todoItems := l.todoItems + [TempItem(input, |l.todoItems|)])))
  }

  /** The patch merge applied to one list's items. */
  function PatchItems(items: seq<ClientItem>, itemId: Id, patch: ItemPatch): seq<ClientItem> {
    Seqs.MapWhere(items, (x: ClientItem) => x.id == itemId, (x: ClientItem) => ApplyPatch(x, patch))
  }

  /** `updateItem` update: in every list with `listId`, every item with
      `itemId` is merged with the patch; every other item and list is kept. */
  function UpdateItemUpdate(cached: Cache, listId: Id, itemId: Id, patch: ItemPatch): (r: Cache)
    ensures r.Some? <==> cached.Some?
    ensures cached.Some? ==> |r.value| == |cached.value|
    ensures cached.Some? ==> forall j :: 0 <= j < |cached.value| && cached.value[j].id != listId ==> r.value[j] == cached.value[j]
    ensures cached.Some? ==> forall j :: 0 <= j < |cached.value| && cached.value[j].id == listId ==>
      var items := cached.value[j].todoItems;
      && r.value[j].id == cached.value[j].id && r.value[j].name == cached.value[j].name
      && |r.value[j].todoItems| == |items|
      && forall i :: 0 <= i < |items| ==>
           r.value[j].todoItems[i] == if items[i].id == itemId then ApplyPatch(items[i], patch) else items[i]
  {
    match cached
    case None => None
    case Some(lists) =>
      Some(Seqs.MapWhere(lists, (l: ClientList) => l.id == listId,
                         (l: ClientList) => l.(todoItems := PatchItems(l.todoItems, itemId, patch))))
  }

  /** The item filter applied to one list's items. */
  function DropItems(items: seq<ClientItem>, itemId: Id): seq<ClientItem> {
    Seqs.FilterOut(items, (x: ClientItem) => x.id == itemId)
  }

  /** `deleteItem` update: in every list with `listId`, the items with
      `itemId` are dropped and the others keep their relative order; every
      other list is kept. */
  function DeleteItemUpdate(cached: Cache, listId: Id, itemId: Id): (r: Cache)
    ensures r.Some? <==> cached.Some?
    ensures cached.Some? ==> |r.value| == |cached.value|
    ensures cached.Some? ==> forall j :: 0 <= j < |cached.value| && cached.value[j].id != listId ==> r.value[j] == cached.value[j]
    ensures cached.Some? ==> forall j :: 0 <= j < |cached.value| && cached.value[j].id == listId ==>
      var items := cached.value[j].todoItems;
      && r.value[j].id == cached.value[j].id && r.value[j].name == cached.value[j].name
      && r.value[j].todoItems == DropItems(items, itemId)
      && (forall i :: 0 <= i < |r.value[j].todoItems| ==>
            r.value[j].todoItems[i].id != itemId && r.value[j].todoItems[i] in items)
      && (forall i :: 0 <= i < |items| && items[i].id != itemId ==> items[i] in r.value[j].todoItems)
  {
    match cached
    case None => None
    case Some(lists) =>
      Some(Seqs.MapWhere(lists, (l: ClientList) => l.id == listId,
                         (l: ClientList) => l.(todoItems := DropItems(l.todoItems, itemId))))
  }

  /** `reorderItem` update: `reorderItemInList` over the cached lists (or
      none); unlike the other updates it always leaves a cache behind. */
  function ReorderUpdate(cached: Cache, listId: Id, itemId: Id, newOrder: int): (r: Cache)
    ensures r.Some?
    ensures r.value == ArrayUtils.ReorderItemInList(cached.GetOr([]), listId, itemId, newOrder)
    ensures |r.value| == |cached.GetOr([])|
    ensures ListIds(r.value) == ListIds(cached.GetOr([]))
    ensures forall j :: 0 <= j < |r.value| && cached.GetOr([])[j].id != listId ==> r.value[j] == cached.GetOr([])[j]
  {
    var lists := ArrayUtils.ReorderItemInList(cached.GetOr([]), listId, itemId, newOrder);
    assert ListIds(lists) == ListIds(cached.GetOr([]));
    Some(lists)
  }

  /** The seven mutations of the hook. */
  datatype Mutation =
    | CreateList(input: CreateListInput)
    | UpdateList(id: Id, listInput: UpdateListInput)
    | DeleteList(id: Id)
    | CreateItem(listId: Id, itemInput: CreateItemInput)
    | UpdateItem(listId: Id, itemId: Id, patch: ItemPatch)
    | DeleteItem(listId: Id, itemId: Id)
    | ReorderItem(listId: Id, itemId: Id, newOrder: int)

  /** The optimistic cache update `onMutate` applies for a mutation. */
  function OnMutate(m: Mutation, cached: Cache): (r: Cache)
    ensures cached.Some? ==> r.Some?
    ensures cached.None? ==> (r.Some? <==> m.CreateList? || m.ReorderItem?)
  {
    match m
    case CreateList(input) => CreateListUpdate(cached, input)
    case UpdateList(id, input) => UpdateListUpdate(cached, id, input)
    case DeleteList(id) => DeleteListUpdate(cached, id)
    case CreateItem(listId, input) => CreateItemUpdate(cached, listId, input)
    case UpdateItem(listId, itemId, patch) => UpdateItemUpdate(cached, listId, itemId, patch)
    case DeleteItem(listId, itemId) => DeleteItemUpdate(cached, listId, itemId)
    case ReorderItem(listId, itemId, newOrder) => ReorderUpdate(cached, listId, itemId, newOrder)
  }

  /** Why the reorder `mutationFn` gives up before calling the server. */
  datatype ReorderError = ListNotFound

  /** Two list sequences with the same ids find every id at the same index. */
  lemma SameIdsSameIndex(a: seq<ClientList>, b: seq<ClientList>, id: Id)
    requires ListIds(a) == ListIds(b)
    ensures IndexOfList(a, id) == IndexOfList(b, id)
  {
    assert forall j :: 0 <= j < |a| ==> a[j].id == ListIds(a)[j] == ListIds(b)[j] == b[j].id;
  }

  /** `reorderItemInList` keeps every list where it was. */
  lemma ReorderKeepsIndex(lists: seq<ClientList>, listId: Id, itemId: Id, newOrder: int, id: Id)
    ensures var r := ArrayUtils.ReorderItemInList(lists, listId, itemId, newOrder);
      ListIds(r) == ListIds(lists) && IndexOfList(r, id) == IndexOfList(lists, id)
  {
    var r := ArrayUtils.ReorderItemInList(lists, listId, itemId, newOrder);
    assert ListIds(r) == ListIds(lists);
    SameIdsSameIndex(r, lists, id);
  }

  /** The reorder `mutationFn`'s payload, computed from the cache it reads:
      `reorderItemInList` applied again, then the item ids of the list. */
  function ReorderPayload(cache: Cache, listId: Id, itemId: Id, newOrder: int): (r: Result<seq<Id>, ReorderError>)
    ensures r.Failure? <==> listId !in ListIds(cache.GetOr([]))
    ensures r.Success? ==>
      var k := IndexOfList(cache.GetOr([]), listId).value;
      && r.value == ItemIds(ArrayUtils.ReorderItemInList(cache.GetOr([]), listId, itemId, newOrder)[k].todoItems)
      && |r.value| == |cache.GetOr([])[k].todoItems|
  {
    var lists := ArrayUtils.ReorderItemInList(cache.GetOr([]), listId, itemId, newOrder);
    ReorderKeepsIndex(cache.GetOr([]), listId, itemId, newOrder, listId);
    match IndexOfList(lists, listId)
    case None => Failure(ListNotFound)
    case Some(k) => Success(ItemIds(lists[k].todoItems))
  }

  /** The item ids of every list carrying `listId` are unique. */
  predicate UniqueInList(lists: seq<ClientList>, listId: Id) {
    forall j :: 0 <= j < |lists| && lists[j].id == listId ==> UniqueItemIds(lists[j].todoItems)
  }

  /** Because `onMutate` runs first, the payload is read from the optimistic
      cache; re-applying the reorder there changes nothing (it is idempotent
      on lists with unique item ids), so the ids sent are exactly the item ids
      of the optimistically reordered list, a permutation of the ids before. */
  lemma PayloadMatchesOptimisticList(prev: Cache, listId: Id, itemId: Id, newOrder: int)
    requires UniqueInList(prev.GetOr([]), listId)
    requires listId in ListIds(prev.GetOr([]))
    ensures var opt := ReorderUpdate(prev, listId, itemId, newOrder).value;
      var k := IndexOfList(opt, listId).value;
      var p := ReorderPayload(Some(opt), listId, itemId, newOrder);
      && p == Success(ItemIds(opt[k].todoItems))
      && multiset(p.value) == multiset(ItemIds(prev.GetOr([])[k].todoItems))
  {
    var lists := prev.GetOr([]);
    var opt := ArrayUtils.ReorderItemInList(lists, listId, itemId, newOrder);
    assert opt == ReorderUpdate(prev, listId, itemId, newOrder).value;
    ReorderKeepsIndex(lists, listId, itemId, newOrder, listId);
    ArrayUtils.ReorderIdempotent(lists, listId, itemId, newOrder);
    var k := IndexOfList(lists, listId).value;
    PayloadIsItemIds(opt, listId, itemId, newOrder, k);
    ArrayUtils.ReorderAt(lists, listId, itemId, newOrder, k);
    MoveKeepsIdMultiset(lists[k], itemId, newOrder);
  }

  /** The payload read from a cache where the list sits at position `k`: the
      item ids of that list after the reorder. */
  lemma PayloadIsItemIds(cached: seq<ClientList>, listId: Id, itemId: Id, newOrder: int, k: nat)
    requires IndexOfList(cached, listId) == Some(k)
    ensures ReorderPayload(Some(cached), listId, itemId, newOrder)
         == Success(ItemIds(ArrayUtils.ReorderItemInList(cached, listId, itemId, newOrder)[k].todoItems))
  {
    ReorderKeepsIndex(cached, listId, itemId, newOrder, listId);
  }

  /** A moved list carries the same item ids, as a multiset. */
  lemma MoveKeepsIdMultiset(list: ClientList, itemId: Id, newOrder: int)
    ensures multiset(ItemIds(ArrayUtils.MoveItem(list, itemId, newOrder).todoItems)) == multiset(ItemIds(list.todoItems))
  {
    match IndexOfItem(list.todoItems, itemId)
    case None =>
    case Some(i) =>
      ArrayUtils.MoveItemIds(list.todoItems, i, newOrder);
  }

  /** The life of one mutation: dispatched with its snapshot and optimistic
      cache, then either confirmed or rolled back. */
  datatype Intent =
    | Dispatched(mutation: Mutation, prev: Cache, optimistic: Cache)
    | Confirmed(mutation: Mutation, cache: Cache)
    | RolledBack(mutation: Mutation, cache: Cache)

  /** The cache as the intent leaves it. */
  function CacheOf(i: Intent): Cache {
    match i
    case Dispatched(_, _, optimistic) => optimistic
    case Confirmed(_, cache) => cache
    case RolledBack(_, cache) => cache
  }

  /** `onMutate`: snapshot the cache, then apply the optimistic update. */
  function Dispatch(m: Mutation, cache: Cache): (i: Intent)
    ensures i.Dispatched? && i.mutation == m && i.prev == cache
    ensures CacheOf(i) == OnMutate(m, cache)
  {
    Dispatched(m, cache, OnMutate(m, cache))
  }

  /** Whether the remote call succeeds: the server's answer, except that the
      reorder `mutationFn` throws without calling it when the list is missing
      from the cache it reads. */
  function RemoteSucceeds(i: Intent, serverAccepts: bool): (ok: bool)
    requires i.Dispatched?
    ensures ok ==> serverAccepts
    ensures !i.mutation.ReorderItem? ==> ok == serverAccepts
    ensures i.mutation.ReorderItem? ==>
      (ok <==> serverAccepts && i.mutation.listId in ListIds(i.optimistic.GetOr([])))
  {
    match i.mutation
    case ReorderItem(listId, itemId, newOrder) =>
      serverAccepts && ReorderPayload(i.optimistic, listId, itemId, newOrder).Success?
    case _ => serverAccepts
  }

  /** `queryClient.setQueryData(queryKey, data)` with a plain value: React
      Query ignores `undefined`, so writing it leaves the cache as it is. */
  function SetQueryData(current: Cache, data: Cache): Cache {
    if data.None? then current else data
  }

  /** `onSuccess` / `onError`: keep the optimistic cache, or write back the
      snapshot this intent captured. A snapshot of an unloaded cache is
      `undefined`, and writing it changes nothing, so the optimistic cache
      stays. */
  function Settle(i: Intent, serverAccepts: bool): (j: Intent)
    requires i.Dispatched?
    ensures j.mutation == i.mutation
    ensures j.Confirmed? <==> RemoteSucceeds(i, serverAccepts)
    ensures j.RolledBack? <==> !RemoteSucceeds(i, serverAccepts)
    ensures j.RolledBack? && i.prev.Some? ==> CacheOf(j) == i.prev
    ensures j.RolledBack? && i.prev.None? ==> CacheOf(j) == i.optimistic
    ensures j.Confirmed? ==> CacheOf(j) == i.optimistic
  {
    if RemoteSucceeds(i, serverAccepts) then Confirmed(i.mutation, i.optimistic)
    else RolledBack(i.mutation, SetQueryData(i.optimistic, i.prev))
  }

  /** Whatever the mutation, a failure on a loaded cache leaves it exactly as
      it was before dispatch; on an unloaded cache the optimistic cache stays.
      A success leaves the optimistic cache. */
  lemma FailureRestoresSnapshot(m: Mutation, cache: Cache, serverAccepts: bool)
    ensures var j := Settle(Dispatch(m, cache), serverAccepts);
      && (j.RolledBack? && cache.Some? ==> CacheOf(j) == cache)
      && (j.RolledBack? && cache.None? ==> CacheOf(j) == OnMutate(m, cache))
      && (j.Confirmed? ==> CacheOf(j) == OnMutate(m, cache))
      && (!serverAccepts ==> j.RolledBack?)
  {
  }

  /** A reorder of a list missing from the cache never reaches the server and
      always rolls back: to the snapshot when the cache was loaded, and to the
      optimistic empty list when it was not. */
  lemma ReorderOfMissingListRollsBack(cache: Cache, listId: Id, itemId: Id, newOrder: int, serverAccepts: bool)
    requires listId !in ListIds(cache.GetOr([]))
    ensures Settle(Dispatch(ReorderItem(listId, itemId, newOrder), cache), serverAccepts)
         == RolledBack(ReorderItem(listId, itemId, newOrder), if cache.Some? then cache else Some([]))
  {
    var opt := ReorderUpdate(cache, listId, itemId, newOrder);
    assert ListIds(opt.value) == ListIds(cache.GetOr([]));
  }

  /** A list created before the cache has loaded survives its own failure:
      the rollback writes `undefined`, which changes nothing, so the
      placeholder list stays until the next refetch. */
  lemma UnloadedCreateKeepsPlaceholder(input: CreateListInput)
    ensures CacheOf(Settle(Dispatch(CreateList(input), None), false)) == Some([TodoList(Temp, input.name, [])])
  {
  }

  /** Deleting with the placeholder id drops every pending list at once and
      keeps every list the server has numbered. */
  lemma DeletePendingDropsAllPending(lists: seq<ClientList>)
    ensures forall j :: 0 <= j < |DeleteListUpdate(Some(lists), Temp).value| ==>
      DeleteListUpdate(Some(lists), Temp).value[j].id.Real?
    ensures forall j :: 0 <= j < |lists| && lists[j].id.Real? ==> lists[j] in DeleteListUpdate(Some(lists), Temp).value
  {
  }

  /** On a list whose orders are dense, the placeholder item's order (the item
      count) is the order the server will assign to the item it creates. */
  lemma TempOrderMatchesServer(items: seq<ClientItem>)
    requires DenseOrders(items)
    ensures |items| == TodoListsService.NextOrder(items)
  {
    TodoListsService.DenseNextOrder(items);
  }
}
