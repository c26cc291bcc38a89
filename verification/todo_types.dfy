/** The data shapes shared by the server entities and the client types: an
    item, a list owning its items, and the inputs of the create and update
    operations. Both sides use the same record shape; they differ only in the
    type of identifiers. */
module TodoTypes {
  import opened Wrappers
  import Seqs

  /** A client-side identifier: a server-issued number, or the `'temp'`
      placeholder an optimistic create gives an entity before the server has
      answered. The placeholder never equals a real identifier. */
  datatype Id = Real(n: int) | Temp

  /** A todo item; `description` is optional, `order` is its drag-and-drop
      position hint. */
  datatype Item<I> = Item(id: I, name: string, description: Option<string>, done: bool, order: int)

  /** A todo list owning an ordered sequence of items. */
  datatype TodoList<I> = TodoList(id: I, name: string, todoItems: seq<Item<I>>)

  type ServerItem = Item<int>
  type ServerList = TodoList<int>
  type ClientItem = Item<Id>
  type ClientList = TodoList<Id>

  datatype CreateListInput = CreateListInput(name: string)
  datatype UpdateListInput = UpdateListInput(name: string)
  datatype CreateItemInput = CreateItemInput(name: string, description: Option<string>)

  /** An item update in which every field is optional; `None` leaves the field
      as it is. */
  datatype ItemPatch = ItemPatch(name: Option<string>, description: Option<Option<string>>,
                                 done: Option<bool>, order: Option<int>)

  /** Field-by-field update: each field the patch defines replaces the item's,
      every other field (the id always) is kept. */
  function ApplyPatch<I>(item: Item<I>, p: ItemPatch): (r: Item<I>)
    ensures r.id == item.id
    ensures r.name == (if p.name.Some? then p.name.value else item.name)
    ensures r.description == (if p.description.Some? then p.description.value else item.description)
    ensures r.done == (if p.done.Some? then p.done.value else item.done)
    ensures r.order == (if p.order.Some? then p.order.value else item.order)
  {
    Item(item.id, p.name.GetOr(item.name), p.description.GetOr(item.description),
         p.done.GetOr(item.done), p.order.GetOr(item.order))
  }

  /** The identifiers of a sequence of items, in order. */
  function ItemIds<I>(items: seq<Item<I>>): (r: seq<I>)
    ensures |r| == |items|
    ensures forall j :: 0 <= j < |items| ==> r[j] == items[j].id
  {
    seq(|items|, j requires 0 <= j < |items| => items[j].id)
  }

  /** The identifiers of a sequence of lists, in order. */
  function ListIds<I>(lists: seq<TodoList<I>>): (r: seq<I>)
    ensures |r| == |lists|
    ensures forall j :: 0 <= j < |lists| ==> r[j] == lists[j].id
  {
    seq(|lists|, j requires 0 <= j < |lists| => lists[j].id)
  }

  /** `items.findIndex(x => x.id === id)`: the first item carrying `id`. */
  function IndexOfItem<I(==)>(items: seq<Item<I>>, id: I): (r: Option<nat>)
    ensures r.Some? ==> r.value < |items| && items[r.value].id == id
    ensures r.Some? ==> forall j :: 0 <= j < r.value ==> items[j].id != id
    ensures r.None? <==> forall j :: 0 <= j < |items| ==> items[j].id != id
  {
    Seqs.FirstIndex(items, (x: Item<I>) => x.id == id)
  }

  /** `lists.findIndex(x => x.id === id)`: the first list carrying `id`. */
  function IndexOfList<I(==)>(lists: seq<TodoList<I>>, id: I): (r: Option<nat>)
    ensures r.Some? ==> r.value < |lists| && lists[r.value].id == id
    ensures r.Some? ==> forall j :: 0 <= j < r.value ==> lists[j].id != id
    ensures r.None? <==> forall j :: 0 <= j < |lists| ==> lists[j].id != id
  {
    Seqs.FirstIndex(lists, (x: TodoList<I>) => x.id == id)
  }

  /** A list carrying `id` with no earlier list carrying it is the one
      `IndexOfList` finds. */
  lemma FirstListAt<I>(lists: seq<TodoList<I>>, id: I, k: nat)
    requires k < |lists| && lists[k].id == id
    requires forall j :: 0 <= j < k ==> lists[j].id != id
    ensures IndexOfList(lists, id) == Some(k)
  {
  }

  /** An item carrying `id` with no earlier item carrying it is the one
      `IndexOfItem` finds. */
  lemma FirstItemAt<I>(items: seq<Item<I>>, id: I, k: nat)
    requires k < |items| && items[k].id == id
    requires forall j :: 0 <= j < k ==> items[j].id != id
    ensures IndexOfItem(items, id) == Some(k)
  {
  }

  /** Replacing the list `IndexOfList` found by one with the same id keeps
      the lookup where it was. */
  lemma ReplaceListKeepsIndex<I>(lists: seq<TodoList<I>>, id: I, k: nat, l: TodoList<I>)
    requires IndexOfList(lists, id) == Some(k) && l.id == id
    ensures IndexOfList(lists[k := l], id) == Some(k)
  {
    FirstListAt(lists[k := l], id, k);
  }

  /** Replacing the item `IndexOfItem` found by one with the same id keeps
      the lookup where it was. */
  lemma ReplaceItemKeepsIndex<I>(items: seq<Item<I>>, id: I, i: nat, x: Item<I>)
    requires IndexOfItem(items, id) == Some(i) && x.id == id
    ensures IndexOfItem(items[i := x], id) == Some(i)
  {
    FirstItemAt(items[i := x], id, i);
  }

  /** No two items of the sequence share an identifier. */
  predicate UniqueItemIds<I(==)>(items: seq<Item<I>>) {
    forall i, j :: 0 <= i < j < |items| ==> items[i].id != items[j].id
  }

  /** The set of `order` values carried by the items. */
  function OrderSet<I>(items: seq<Item<I>>): set<int> {
    set j | 0 <= j < |items| :: items[j].order
  }

  /** The set {0, 1, ..., n-1}. */
  function Positions(n: nat): (r: set<int>)
    ensures forall k :: k in r <==> 0 <= k < n
  {
    if n == 0 then {} else Positions(n - 1) + {n - 1}
  }

  /** The at-rest invariant of a list: its `order` values are exactly
      0, 1, ..., n-1 for its n items. */
  predicate DenseOrders<I>(items: seq<Item<I>>) {
    OrderSet(items) == Positions(|items|)
  }

  /** An empty patch changes nothing, and applying a patch twice is the same as
      applying it once. */
  lemma PatchLaws<I>(item: Item<I>, p: ItemPatch)
    ensures ApplyPatch(item, ItemPatch(None, None, None, None)) == item
    ensures ApplyPatch(ApplyPatch(item, p), p) == ApplyPatch(item, p)
  {
  }
}
