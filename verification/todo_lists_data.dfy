/** The store's initial contents: three lists whose item ids are scoped per
    list. */
module TodoListsData {
  import opened Wrappers
  import opened TodoTypes
  import opened DecimalOrder
  import opened TodoListsService

  const Seed: Store := Store([
    TodoList(1, "Groceries", [
      Item(1, "Buy milk", Some("Buy a gallon of milk from store"), false, 0),
      Item(2, "Buy eggs", Some("Buy a dozen eggs"), false, 1),
      Item(3, "Buy bread", Some("Buy a loaf of whole grain bread"), false, 2),
      Item(4, "Buy fruits", Some("Buy apples and bananas"), true, 3)
    ]),
    TodoList(2, "Chores", [
      Item(1, "Clean house", Some("Vacuum and dust all rooms"), false, 0),
      Item(2, "Wash dishes", Some("Clean all dirty dishes in sink"), false, 1),
      Item(3, "Do laundry", Some("Wash and fold clothes"), true, 2),
      Item(4, "Take out trash", Some("Take out trash to curb"), false, 3)
    ]),
    TodoList(3, "Assignments", [
      Item(1, "Math homework", Some("Complete algebra exercises"), true, 0),
      Item(2, "Science project", Some("Prepare presentation on solar system"), false, 1)
    ])
  ])

  /** Every item's order is its position. */
  predicate OrdersArePositions(items: seq<ServerItem>) {
    forall j :: 0 <= j < |items| ==> items[j].order == j
  }

  /** Orders equal to positions are dense. */
  lemma PositionsAreDense(items: seq<ServerItem>)
    requires OrdersArePositions(items)
    ensures DenseOrders(items)
  {
    forall o | o in Positions(|items|) ensures o in OrderSet(items) {
      assert items[o].order == o;
    }
  }

  /** The seed's list ids are 1, 2 and 3, pairwise distinct. */
  lemma SeedListIds()
    ensures ListIds(Seed.todolists) == [1, 2, 3]
    ensures UniqueListIds(Seed)
  {
  }

  /** In every seed list each item's order is its position, so the orders
      are exactly 0..n-1. */
  lemma SeedOrdersDense()
    ensures forall k :: 0 <= k < |Seed.todolists| ==> OrdersArePositions(Seed.todolists[k].todoItems)
    ensures forall k :: 0 <= k < |Seed.todolists| ==> DenseOrders(Seed.todolists[k].todoItems)
  {
    forall k | 0 <= k < |Seed.todolists|
      ensures DenseOrders(Seed.todolists[k].todoItems)
    {
      PositionsAreDense(Seed.todolists[k].todoItems);
    }
  }

  /** Item ids are unique inside each seed list but repeat across lists:
      item ids are scoped per list. */
  lemma SeedItemIdsScoped()
    ensures forall k :: 0 <= k < |Seed.todolists| ==> UniqueItemIds(Seed.todolists[k].todoItems)
    ensures ItemIds(Seed.todolists[0].todoItems) == [1, 2, 3, 4]
    ensures ItemIds(Seed.todolists[1].todoItems) == [1, 2, 3, 4]
    ensures ItemIds(Seed.todolists[2].todoItems) == [1, 2]
  {
  }

  /** Creating a list on the seed assigns id 4. */
  lemma SeedCreateAssignsFour(dto: CreateListInput)
    ensures Create(Seed, dto).value.id == 4
  {
    SeedListIds();
    CreateFreshWhileSingleDigit(Seed, dto);
    var m := MaxId([1, 2, 3]);
    assert m == 3;
  }

  /** The next item id in seed list 1 is 5. */
  lemma GroceriesNextItemId()
    ensures NextId(ItemIds(Seed.todolists[0].todoItems)) == 5
  {
    SeedItemIdsScoped();
    NextIdOneToFour();
  }

  /** The ids 1 to 4 give next id 5. */
  lemma NextIdOneToFour()
    ensures NextId([1, 2, 3, 4]) == 5
  {
    NextIdSingleDigits([1, 2, 3, 4]);
    MaxOneToFour();
  }

  /** The numeric maximum of the ids 1 to 4. */
  lemma MaxOneToFour()
    ensures MaxId([1, 2, 3, 4]) == 4
  {
    var ids := [1, 2, 3, 4];
    assert ids[1..] == [2, 3, 4] && ids[1..][1..] == [3, 4] && ids[1..][1..][1..] == [4];
    assert MaxId([4]) == 4;
    assert MaxId([3, 4]) == 4;
    assert MaxId([2, 3, 4]) == 4;
  }

  /** Adding an item to seed list 1 assigns item id 5 and order 4, and the
      list's orders stay dense. */
  lemma SeedAddItemToGroceries(dto: CreateItemInput)
    ensures AddTodoItem(Seed, 1, dto).Success?
    ensures AddTodoItem(Seed, 1, dto).value.value.id == 5
    ensures AddTodoItem(Seed, 1, dto).value.value.order == 4
    ensures DenseOrders(AddTodoItem(Seed, 1, dto).value.store.todolists[0].todoItems)
  {
    SeedListIds();
    SeedOrdersDense();
    assert IndexOfList(Seed.todolists, 1) == Some(0);
    AddTodoItemKeepsDense(Seed, 1, dto);
    GroceriesNextItemId();
  }
}
