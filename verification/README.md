# Todo-list ordering model

A Dafny model of the ordering core of a todo-list manager. The backend is an
in-memory NestJS store of lists and items. The frontend is a React client that
reorders items by drag and drop and mirrors every mutation optimistically in
its query cache. The model covers:

- **The move primitive** `arrayMove` and the per-list reorder
  `reorderItemInList` (`ArrayUtils`). The JavaScript `splice` index rules they
  rely on are modelled in `Splice`: a start past the end clamps to the end, and
  a negative start counts back from the end.
- **The generic list updaters** of the `useList` hook: `push`, `removeAt`,
  `insertAt`, `updateAt` and `clear` (`ListOps`).
- **The server store** `TodoListsService` (`TodoListsService`).
  - The store is an immutable `Store` value. Each operation takes one and
    returns the next state with its reply, or a `NotFound` error.
  - The read paths sort items in place, so the model writes the sorted items
    back to the store.
  - The sort is a stable sort by `order` (`OrderSort`).
- **Id assignment** `nextId`, modelled as written (`DecimalOrder`). It calls
  `.sort()` with no comparator, so ids are compared as decimal strings.
- **The seed contents** of the store (`TodoListsData`).
- **The optimistic cache of `useTodoLists`** (`OptimisticCache`): the
  `onMutate` update for each of the seven mutations, the reorder
  `mutationFn`'s payload, and the `onError` write-back of the captured
  snapshot, which React Query ignores when that snapshot is `undefined`.
  Each mutation is an intent that is `Dispatched` with its snapshot, then
  `Confirmed` or `RolledBack`.

Entities are generic in their id type (`TodoTypes`). The server uses `int`.
The client uses `Id = Real(int) | Temp`, because the optimistic creates store
the placeholder `'temp'` where a number is expected. Mutations carry `Id`s too.
The UI passes the list id and, except for a reorder, the item id as it finds
them in the cache. That id is `Temp` for anything not yet refetched, and a
`Temp` id matches every pending entity at once. The dragged item's id goes
through `Number()` first, so a reorder never carries `Temp` as its item id.

In four places the code does not do what its callers, its tests or its names
lead one to expect. The model follows the code each time:

- **`nextId` is not "maximum plus one".** It agrees with that while every id is
  a single digit (`DecimalOrder.NextIdSingleDigits`). Once ids 9 and 10 exist it
  keeps answering 10 (`DecimalOrder.NextIdStuckAtTen`), which is an id already
  in use. A list created that way cannot be reached by `findOne`, because the
  older list with id 10 comes first (`TodoListsService.CreateAfterTenIsShadowed`).
- **The store has no `reorderItems` operation.** The controller calls one on
  the service, but the service does not define it.
- **The client never renumbers `order` when it reorders.** `reorderItemInList`
  moves items but carries their `order` fields along unchanged
  (`ArrayUtils.ReorderKeepsOrderSet`, `ArrayUtils.ReorderTestCase`). The unit
  tests at `frontend/src/shared/utils/arrayUtils.test.ts` lines 73-76 and
  103-109 expect renumbered orders.
- **A rollback writes back the whole cache** captured by that mutation's
  `onMutate`, not only that mutation's own change. When the cache had not
  loaded, the captured snapshot is `undefined`. React Query ignores that
  write, so the optimistic change stays
  (`OptimisticCache.UnloadedCreateKeepsPlaceholder`).

The reorder `mutationFn` calls `api.reorderItems`. `services/api.ts` defines
only `reorderItem`, so as shipped the remote call fails. The model keeps the
server's answer as the parameter `serverAccepts` of `OptimisticCache.Settle`.
With `serverAccepts` false, `OptimisticCache.FailureRestoresSnapshot` shows
that every such reorder rolls back.

## Model

| member | source | states |
|---|---|---|
| Splice.StartIndex | frontend/src/shared/utils/arrayUtils.ts:11 | the splice start used: within the array it is the given index; past the end it clamps to the length; a negative start counts back from the end, clamped at 0; the result is always a valid insertion point |
| Splice.Insert | frontend/src/shared/utils/arrayUtils.ts:11 | inserting at a start index grows the array by one, puts the value at the resolved index, shifts only the suffix, and adds exactly that value to the multiset |
| Splice.Delete | frontend/src/shared/utils/arrayUtils.ts:10 | removing one index shrinks the array by one, keeps every other element in relative order, and removes exactly that element from the multiset |
| Splice.InsertDeleted | frontend/src/shared/utils/arrayUtils.ts:10-11 | re-inserting a removed element at its old index restores the array |
| Splice.DeleteInserted | frontend/src/shared/utils/arrayUtils.ts:10-11 | removing what was just inserted, at its resolved index, restores the array |
| Seqs.FirstIndex | frontend/src/shared/utils/arrayUtils.ts:48 | `findIndex`: the first matching position, with no match before it; none exactly when nothing matches |
| Seqs.MapWhere | frontend/src/shared/utils/arrayUtils.ts:45-55 | a conditional `map`: matching elements are replaced by their image, all others are kept, and the length is unchanged |
| Seqs.FilterOut | frontend/src/app/todo-lists/hooks/useTodoLists.ts:52 | a negated `filter`: every kept element came from the input and does not match; every non-matching input element is kept; with no match the input is returned |
| Seqs.FilterOutAppend | frontend/src/app/todo-lists/hooks/useTodoLists.ts:52 | filtering a concatenation is the concatenation of the filtered parts, so survivors keep their relative order and their multiplicity |
| Seqs.FilterOutUnit | frontend/src/app/todo-lists/hooks/useTodoLists.ts:52 | a single element is dropped exactly when it matches; with `FilterOutAppend` this determines the filter on every input |
| Seqs.FilterOutSingle | frontend/src/app/todo-lists/hooks/useTodoLists.ts:52 | with exactly one matching element, filtering it out equals deleting its index |
| ListOps.Push | frontend/src/shared/hooks/useList.tsx:10-12 | the previous list followed by the value |
| ListOps.RemoveAt | frontend/src/shared/hooks/useList.tsx:14-16 | an in-range index is deleted and nothing else changes; an out-of-range index leaves the list unchanged |
| ListOps.InsertAt | frontend/src/shared/hooks/useList.tsx:18-20 | the length grows by one; for a non-negative index the value goes in front of position min(index, length); for a negative one in front of position max(0, length + index) |
| ListOps.UpdateAt | frontend/src/shared/hooks/useList.tsx:22-24 | the length is kept, only the given index changes, and it receives the value |
| ListOps.Clear | frontend/src/shared/hooks/useList.tsx:26-28 | the next list is empty |
| ListOps.UpdateAtOutOfRange | frontend/src/shared/hooks/useList.tsx:22-24 | an out-of-range update leaves the list unchanged |
| ListOps.RemoveThenInsertRestores | frontend/src/shared/hooks/useList.tsx:14-20 | `insertAt(i, old[i])` after `removeAt(i)` restores the list |
| ListOps.UpdateThenRestore | frontend/src/shared/hooks/useList.tsx:22-24 | writing back the old value undoes an update |
| ListOps.PushThenRemoveLast | frontend/src/shared/hooks/useList.tsx:10-16 | removing the last position undoes a push |
| TodoTypes.ApplyPatch | backend/src/todo-lists/todo-lists.service.ts:108-111 | each field the patch defines replaces the item's field; every undefined field, and the id, is kept |
| TodoTypes.PatchLaws | backend/src/todo-lists/todo-lists.service.ts:108-111 | the empty patch changes nothing, and applying a patch twice equals applying it once |
| TodoTypes.ItemIds | frontend/src/app/todo-lists/hooks/useTodoLists.ts:136 | the ids of the items, position by position |
| TodoTypes.IndexOfItem | backend/src/todo-lists/todo-lists.service.ts:152-154 | the first item carrying the id; none exactly when no item carries it |
| TodoTypes.IndexOfList | backend/src/todo-lists/todo-lists.service.ts:139 | the first list carrying the id; none exactly when no list carries it |
| TodoTypes.Positions | backend/src/todo-lists/todo-lists.service.ts:71 | the set of positions 0..n-1 that dense orders must equal |
| ArrayUtils.MoveTarget | frontend/src/shared/utils/arrayUtils.ts:11 | where the moved element lands: always a valid index: min(to, length-1) for a non-negative target, max(0, length-1+to) for a negative one |
| ArrayUtils.ArrayMove | frontend/src/shared/utils/arrayUtils.ts:8-13 | same length, a permutation of the input, the moved element at its target, and removing it there gives the input without `from` (others keep their relative order) |
| ArrayUtils.ArrayMoveElementwise | frontend/src/shared/utils/arrayUtils.ts:8-13 | agrees at every position with an independent index formula for a move |
| ArrayUtils.ArrayMoveInPlace | frontend/src/shared/utils/arrayUtils.test.ts:25-28 | a move onto its own position returns the array unchanged |
| ArrayUtils.ArrayMoveUndo | frontend/src/shared/utils/arrayUtils.ts:8-13 | moving the element back from its target to `from` restores the input |
| ArrayUtils.ArrayMoveMap | frontend/src/shared/utils/arrayUtils.ts:8-13 | moving commutes with mapping every element through a function |
| ArrayUtils.ArrayMoveExamples | frontend/src/shared/utils/arrayUtils.test.ts:5-47 | the unit-test moves give the expected arrays, including the move onto itself and the three-element case |
| ArrayUtils.MoveItem | frontend/src/shared/utils/arrayUtils.ts:46-54 | a list keeps its id and name, and its items keep their multiset; with the item absent the list is returned as is, otherwise its items become `arrayMove` from the item's first index to `newOrder` |
| ArrayUtils.ReorderItemInList | frontend/src/shared/utils/arrayUtils.ts:39-56 | lists keep their number, ids and names; other lists are unchanged; in a matching list the items become `arrayMove` from the item's first index, or stay as they were when the item is absent; with no matching list the input is returned |
| ArrayUtils.MoveItemIdempotent | frontend/src/app/todo-lists/hooks/useTodoLists.ts:131-133 | with unique item ids, moving the same item to the same target twice equals moving it once |
| ArrayUtils.ReorderIdempotent | frontend/src/app/todo-lists/hooks/useTodoLists.ts:131-133 | with unique item ids in the target list, re-applying the reorder to its own result changes nothing |
| ArrayUtils.MoveItemIds | frontend/src/app/todo-lists/hooks/useTodoLists.ts:136 | the ids of the moved items are the moved ids |
| ArrayUtils.ReorderMissingItemIsIdentity | frontend/src/shared/utils/arrayUtils.test.ts:93-96 | when no matching list holds the item, the lists are returned unchanged |
| ArrayUtils.ReorderTestCase | frontend/src/shared/utils/arrayUtils.test.ts:71-85 | the test reorder swaps the two items of list 1, which keep their order values, and leaves list 2 unchanged |
| ArrayUtils.ReorderKeepsOrderSet | frontend/src/shared/utils/arrayUtils.ts:51-54 | a reorder never changes the set of `order` values of any list |
| DecimalOrder.Digit | backend/src/todo-lists/todo-lists.service.ts:132 | a digit value becomes the character of that digit |
| DecimalOrder.Digits | backend/src/todo-lists/todo-lists.service.ts:132 | the decimal digits of a natural, at least one, all digit characters, a single one exactly below 10, no leading zero for a positive number, ending in the digit of `n % 10` |
| DecimalOrder.Decimal | backend/src/todo-lists/todo-lists.service.ts:132 | `String(n)`: non-empty, starting with '-' exactly for negatives, digits after the first character |
| DecimalOrder.LexLeq | backend/src/todo-lists/todo-lists.service.ts:132 | JavaScript's `<=` on strings: a prefix sorts first, otherwise the first differing character decides |
| DecimalOrder.SortsBefore | backend/src/todo-lists/todo-lists.service.ts:132 | `x` sorts no later than `g` when both are converted to strings |
| DecimalOrder.SortsLast | backend/src/todo-lists/todo-lists.service.ts:131-133 | `g` is an id that no other id sorts after: what `.sort().reverse()[0]` picks |
| DecimalOrder.LexLeqTotal | backend/src/todo-lists/todo-lists.service.ts:132 | any two strings are comparable in the default sort order |
| DecimalOrder.LexLeqTransitive | backend/src/todo-lists/todo-lists.service.ts:132 | the default sort order is transitive |
| DecimalOrder.LexLeqAntisymmetric | backend/src/todo-lists/todo-lists.service.ts:132 | strings ordered both ways are equal |
| DecimalOrder.LexLeqReflexive | backend/src/todo-lists/todo-lists.service.ts:132 | every string is ordered before itself |
| DecimalOrder.DigitsInjective | backend/src/todo-lists/todo-lists.service.ts:132 | distinct naturals have distinct digit strings |
| DecimalOrder.DecimalSign | backend/src/todo-lists/todo-lists.service.ts:132 | a decimal string starts with a minus sign exactly when the number is negative |
| DecimalOrder.DecimalInjective | backend/src/todo-lists/todo-lists.service.ts:132 | distinct numbers have distinct decimal strings |
| DecimalOrder.LastInSortOrder | backend/src/todo-lists/todo-lists.service.ts:130-133 | the id that sorts last as a string: it is in the list and no id sorts after it |
| DecimalOrder.SortsLastUnique | backend/src/todo-lists/todo-lists.service.ts:130-133 | only one id can sort last |
| DecimalOrder.NextId | backend/src/todo-lists/todo-lists.service.ts:129-136 | 1 for an empty scope; otherwise one past the id that sorts last as a string, or 1 when that id is 0 |
| DecimalOrder.MaxId | backend/src/todo-lists/todo-lists.service.ts:129-136 | the numeric maximum, used as the reference for the intended id |
| DecimalOrder.NumericNextId | backend/src/todo-lists/todo-lists.service.ts:129-136 | the intended id: 1 when empty, otherwise the numeric maximum plus one, which is larger than every id |
| DecimalOrder.SingleDigitOrder | backend/src/todo-lists/todo-lists.service.ts:132 | on single digits, string order and numeric order agree |
| DecimalOrder.NextIdSingleDigits | backend/src/todo-lists/todo-lists.service.ts:129-136 | with ids in 0..9, `nextId` is the numeric maximum plus one and is fresh |
| DecimalOrder.SortsBeforeNine | backend/src/todo-lists/todo-lists.service.ts:132 | every number from 1 to 89 sorts no later than 9 |
| DecimalOrder.NextIdStuckAtTen | backend/src/todo-lists/todo-lists.service.ts:129-136 | once 9 is taken and every id is within 1..89, `nextId` is 10 |
| DecimalOrder.NextIdRepeatsTen | backend/src/todo-lists/todo-lists.service.ts:129-136 | for ids 1..10, `nextId` returns 10, an id already in use |
| OrderSort.InsertByOrder | backend/src/todo-lists/todo-lists.service.ts:21 | inserting one item grows the sequence by it and keeps a sorted sequence sorted |
| OrderSort.SortByOrder | backend/src/todo-lists/todo-lists.service.ts:21 | the sorted copy is a permutation of the items, non-decreasing in `order` |
| OrderSort.SortIsStable | backend/src/todo-lists/todo-lists.service.ts:21 | items sharing an order value keep their relative order |
| OrderSort.SortSortedIsIdentity | backend/src/todo-lists/todo-lists.service.ts:21 | sorting already sorted items changes nothing |
| TodoListsService.AssertTodoListExists | backend/src/todo-lists/todo-lists.service.ts:138-146 | the first list with the id; fails with that list's NotFound exactly when no list carries it |
| TodoListsService.AssertTodoItemExists | backend/src/todo-lists/todo-lists.service.ts:148-161 | the first item with the id; fails with that item's NotFound exactly when no item carries it |
| TodoListsService.SortedList | backend/src/todo-lists/todo-lists.service.ts:19-22 | a list keeps its id, name and items, and its items become sorted by order |
| TodoListsService.SortedListStable | backend/src/todo-lists/todo-lists.service.ts:19-22 | the in-place sort is stable: the items with any one order value keep their relative order |
| TodoListsService.FindAll | backend/src/todo-lists/todo-lists.service.ts:18-23 | one entry per stored list, in stored order, with the same id and name; items are permuted into order and written back |
| TodoListsService.FindOne | backend/src/todo-lists/todo-lists.service.ts:25-31 | fails exactly for an absent id; otherwise returns that list with its items sorted, also written back |
| TodoListsService.Create | backend/src/todo-lists/todo-lists.service.ts:33-44 | appends an empty list with `nextId` and the given name; existing lists are unchanged |
| TodoListsService.Update | backend/src/todo-lists/todo-lists.service.ts:46-53 | fails exactly for an absent id; otherwise renames that list only |
| TodoListsService.Delete | backend/src/todo-lists/todo-lists.service.ts:55-60 | fails exactly for an absent id; otherwise removes that list only |
| TodoListsService.MaxOrder | backend/src/todo-lists/todo-lists.service.ts:71 | at least -1, no smaller than any order, and either -1 or an existing order |
| TodoListsService.NextOrder | backend/src/todo-lists/todo-lists.service.ts:71 | non-negative, larger than every order, and 0 or one past an existing order; 0 on an empty list |
| TodoListsService.AddTodoItem | backend/src/todo-lists/todo-lists.service.ts:68-85 | fails exactly for an absent list; otherwise appends a not-done item with the list's `nextId`, the input's fields and order `Math.max(-1, ...orders) + 1` (`NextOrder`: 0 on an empty list, above all others) |
| TodoListsService.FindAllTodoItems | backend/src/todo-lists/todo-lists.service.ts:87-91 | fails exactly for an absent list; otherwise returns the list's items sorted by order, also written back |
| TodoListsService.FindOneTodoItem | backend/src/todo-lists/todo-lists.service.ts:93-97 | the list's NotFound first, then the item's NotFound, each exactly when that id is absent; otherwise the first item of that list with that id, as `findIndex` picks it |
| TodoListsService.UpdateTodoItem | backend/src/todo-lists/todo-lists.service.ts:99-114 | the same failures; otherwise patches only that item of that list, keeping its id |
| TodoListsService.RemoveTodoItem | backend/src/todo-lists/todo-lists.service.ts:116-122 | the same failures; otherwise deletes the first item with that id, with the count down by one; the list keeps its id and name, the other items keep their orders, and other lists are unchanged |
| TodoListsService.DenseNextOrder | backend/src/todo-lists/todo-lists.service.ts:71 | on a list whose orders are 0..n-1, the next order is n |
| TodoListsService.AppendKeepsDense | backend/src/todo-lists/todo-lists.service.ts:82 | appending an item of order n to dense orders 0..n-1 gives dense orders 0..n |
| TodoListsService.AddTodoItemKeepsDense | backend/src/todo-lists/todo-lists.service.ts:68-85 | adding an item turns orders 0..n-1 into 0..n |
| TodoListsService.DeleteThenNotFound | backend/src/todo-lists/todo-lists.service.ts:55-60 | with unique list ids, a deleted list is no longer found |
| TodoListsService.FindAllTwice | backend/src/todo-lists/todo-lists.service.ts:18-23 | reading all lists twice returns what the first read returned |
| TodoListsService.CreateFreshWhileSingleDigit | backend/src/todo-lists/todo-lists.service.ts:33-44 | while list ids are single digits, `create` picks the numeric maximum plus one, a fresh id |
| TodoListsService.CreateThenFindOne | backend/src/todo-lists/todo-lists.service.ts:33-44 | a list created under a fresh id is what `findOne` returns for it |
| TodoListsService.CreateAfterTenIsShadowed | backend/src/todo-lists/todo-lists.service.ts:33-44 | with ids 9 and 10 taken, `create` reuses 10 and `findOne(10)` still returns the older list |
| TodoListsService.UpdateThenFindItem | backend/src/todo-lists/todo-lists.service.ts:99-114 | after an item update, looking the item up returns the patched item |
| TodoListsService.RemoveThenItemNotFound | backend/src/todo-lists/todo-lists.service.ts:116-122 | with unique item ids, a removed item is no longer found |
| TodoListsData.SeedListIds | backend/src/todo-lists/data/todo-lists.data.ts:3-92 | the seed list ids are 1, 2 and 3, pairwise distinct |
| TodoListsData.SeedOrdersDense | backend/src/todo-lists/data/todo-lists.data.ts:4-91 | in every seed list each order equals its position, so the orders are 0..n-1 |
| TodoListsData.SeedItemIdsScoped | backend/src/todo-lists/data/todo-lists.data.ts:4-91 | item ids are 1..4, 1..4 and 1..2: unique within each list, repeated across lists |
| TodoListsData.SeedCreateAssignsFour | backend/src/todo-lists/data/todo-lists.data.ts:3-92 | creating a list on the seed assigns id 4 |
| TodoListsData.GroceriesNextItemId | backend/src/todo-lists/data/todo-lists.data.ts:4-37 | the next item id in seed list 1 is 5 |
| TodoListsData.SeedAddItemToGroceries | backend/src/todo-lists/data/todo-lists.data.ts:3-92 | adding an item to seed list 1 assigns id 5 and order 4, and the orders stay dense |
| OptimisticCache.CreateListUpdate | frontend/src/app/todo-lists/hooks/useTodoLists.ts:22-25 | the cached lists, or none, followed by one empty `Temp` list with the input name |
| OptimisticCache.TempItem | frontend/src/app/todo-lists/hooks/useTodoLists.ts:72 | the placeholder item: `Temp` id, the input name, no description, not done, order equal to the item count |
| OptimisticCache.UpdateListUpdate | frontend/src/app/todo-lists/hooks/useTodoLists.ts:37-39 | renames every list with the id and keeps the others; an empty cache stays empty |
| OptimisticCache.DeleteListUpdate | frontend/src/app/todo-lists/hooks/useTodoLists.ts:51-53 | the cached lists filtered by `DropLists` (so, by `Seqs.FilterOutAppend`, the kept lists stay in their relative order); no matching list leaves the cache unchanged; an empty cache stays empty |
| OptimisticCache.DeleteListRemovesOne | frontend/src/app/todo-lists/hooks/useTodoLists.ts:51-53 | when one list carries the id, exactly that list is removed and the rest keep their order |
| OptimisticCache.CreateItemUpdate | frontend/src/app/todo-lists/hooks/useTodoLists.ts:65-77 | appends a not-done `Temp` item with the input name, no description and order equal to the previous count, to matching lists only |
| OptimisticCache.UpdateItemUpdate | frontend/src/app/todo-lists/hooks/useTodoLists.ts:90-101 | merges the patch into matching items of matching lists only |
| OptimisticCache.DeleteItemUpdate | frontend/src/app/todo-lists/hooks/useTodoLists.ts:113-122 | in matching lists only, the items become their `filter` by id (`DropItems`): every other item is kept, in relative order; other lists are unchanged |
| OptimisticCache.DeleteItemRemovesOne | frontend/src/app/todo-lists/hooks/useTodoLists.ts:113-122 | when a matching list holds the item once, exactly that item is removed and the others keep their order |
| OptimisticCache.ReorderUpdate | frontend/src/app/todo-lists/hooks/useTodoLists.ts:143-145 | always leaves a cache, equal to `reorderItemInList` over the cached lists or none, with list ids kept and non-matching lists unchanged |
| OptimisticCache.ReorderKeepsIndex | frontend/src/app/todo-lists/hooks/useTodoLists.ts:132-133 | a reorder keeps every list where it was, so the lookup by id finds the same position |
| OptimisticCache.ReorderPayload | frontend/src/app/todo-lists/hooks/useTodoLists.ts:129-138 | fails exactly when the list is absent from the cache read; otherwise the item ids of that list after `reorderItemInList`, one per item |
| OptimisticCache.PayloadMatchesOptimisticList | frontend/src/app/todo-lists/hooks/useTodoLists.ts:131-137 | read after `onMutate`, the payload is the optimistic list's item ids, a permutation of the ids before the reorder |
| OptimisticCache.Dispatch | frontend/src/app/todo-lists/hooks/useTodoLists.ts:139-147 | snapshots the cache, then applies the mutation's optimistic update |
| OptimisticCache.OnMutate | frontend/src/app/todo-lists/hooks/useTodoLists.ts:17-147 | picks each mutation's optimistic update; a loaded cache stays loaded, and an unloaded one becomes loaded only for `createList` and `reorderItem` |
| OptimisticCache.RemoteSucceeds | frontend/src/app/todo-lists/hooks/useTodoLists.ts:129-137 | the server's answer, except that a reorder whose list is missing from the cache it reads throws 'List not found' before any request |
| OptimisticCache.Settle | frontend/src/app/todo-lists/hooks/useTodoLists.ts:148-149 | confirms exactly when the remote call succeeds, keeping the optimistic cache; otherwise writes back the intent's own snapshot, which restores a loaded cache and leaves the optimistic cache when the snapshot is `undefined` |
| OptimisticCache.FailureRestoresSnapshot | frontend/src/app/todo-lists/hooks/useTodoLists.ts:21-28 | for every mutation, a failure on a loaded cache leaves exactly the pre-dispatch cache, and on an unloaded cache leaves the optimistic one; a success leaves the optimistic one |
| OptimisticCache.ReorderOfMissingListRollsBack | frontend/src/app/todo-lists/hooks/useTodoLists.ts:131-134 | a reorder of a list missing from the cache always rolls back: to the snapshot when the cache was loaded, to the optimistic `[]` when it was not |
| OptimisticCache.UnloadedCreateKeepsPlaceholder | frontend/src/app/todo-lists/hooks/useTodoLists.ts:21-28 | a list created before the cache loads stays after its own failure, because the rollback writes `undefined` |
| OptimisticCache.DeletePendingDropsAllPending | frontend/src/app/todo-lists/hooks/useTodoLists.ts:51-53 | deleting with the placeholder id drops every pending list and keeps every list with a server id |
| OptimisticCache.TempOrderMatchesServer | frontend/src/app/todo-lists/hooks/useTodoLists.ts:72 | on dense orders, the placeholder's order equals the order the server assigns |

## Left out

- **Server `reorderItems`:** the controller calls it at `backend/src/todo-lists/todo-lists.controller.ts` line 181. The service does not define it, so it has no behaviour to model.
- **Client `api.reorderItems`:** it is called at `useTodoLists.ts` line 137 but `services/api.ts` does not define it. The remote result is the `serverAccepts` parameter.
- **Several mutations in flight:** the model follows one intent from dispatch to confirm or rollback. The code's rollback writes back a whole-cache snapshot, so a failed earlier intent can also erase a later pending change until the next refetch.
- **React Query machinery:** `cancelQueries`, `invalidateQueries`, refetching, hook lifecycles and the async ordering of callbacks are left out. The model assumes only that `onMutate` runs before `mutationFn`, and that `setQueryData` ignores `undefined`, as React Query does from version 4 on (`OptimisticCache.SetQueryData`). A refetch replacing `Temp` ids with server ids is part of this.
- **`deleteItem` has no `onSettled`:** the missing refetch after `deleteItem` is not modelled, since refetching is not modelled at all.
- **Transport and validation:** the HTTP controller, validation pipes, the axios client, and the `Number(id)` coercion of route parameters are left out. Ids arrive as integers.
- **DTO classes:** `create-todo-list.dto.ts`, `update-todo-list.dto.ts` and `add-todo-item.dto.ts` are not part of this model. Their shapes are taken from the client types and the item entity.
- **`useList` `set`:** it hands its argument to React's state setter unchanged, and nothing about that setter is modelled.
- **UI components:** drag sensors, timers, toasts, scrolling and theming are left out. The drop index the UI computes can be -1, so negative targets are modelled.
- **OptimisticCache.ReorderUpdate:** the drag handler passes `Number(active.id)` as the item id (`frontend/src/app/todo-lists/components/TodoList.tsx` line 63). A pending item's `'temp'` therefore arrives as `NaN`, which matches no item, so the list is returned unchanged. In the model that input is a `Real` id absent from the list (`ArrayUtils.ReorderMissingItemIsIdentity`). `Temp` as a reorder `itemId` is unreachable from the UI, so what the model does with it describes no run of the program.
- **Non-integer numbers:** `order` and ids are unbounded integers. Fractional values, NaN, and the 2^53 precision limit of JavaScript numbers are left out.
- **ArrayUtils.ArrayMove:** requires `from` to be a valid index. With `from` at or past the end, the source would splice `undefined` into the array, which has no counterpart in a typed sequence. A negative `from` counts back from the end in JavaScript (-1 removes the last element) and is not modelled. The only caller passes a `findIndex` result it has already checked against -1 (`frontend/src/shared/utils/arrayUtils.ts` lines 48-53), so neither case is reachable.
- **ArrayUtils.ArrayMove:** the source copies its input before splicing. Dafny sequences are values, so the input is unchanged by construction and no contract states it.
- **OptimisticCache.UpdateItemUpdate:** merges with the same "defined fields override" rule as the server. In the source, an explicitly `undefined` key in the client's object spread clears the field, while the server skips it.
- **Duplicate `arrayMove`:** it is declared twice in `arrayUtils.ts` with identical bodies, and is modelled once.
