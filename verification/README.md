# Eisenhower-matrix task board (daytoday): store, quadrant display and grid handlers

This project models the core of a single-page task board that sorts tasks
into the four quadrants of the Eisenhower matrix: 1 urgent and important,
2 important and not urgent, 3 urgent and not important, 4 neither.

- **Types** (`types.dfy`) holds the `Task` record, the quadrant domain
  `QuadrantId` (1..4) and `TaskDraft`. A draft is a task without `id` and
  `position`; it is what the editor hands to the store.
- **TaskLists** (`task_lists.dfy`) holds the array operations the store uses:
  - `filter`, written as `Filter` with a `Selector`;
  - `find`, written as `FindIndex`;
  - the id and position views of a list;
  - the predicates the properties are stated with. `UniqueIds` says no id occurs twice. `PositionsAreIndices` says the positions are 0..k-1 in stored order. `Contiguous` says the positions are 0..k-1 in some order.
- **TaskContext** (`task_context.dfy`) is the store. Each of its five operations is first a function on the list: `Added`, `Updated`, `Deleted`, `Reordered` and `Moved`. The class `TaskProvider` holds the list in the field `tasks`. Its methods change that field as the provider's `setTasks` does, and each method is proved to produce its function's result. The two `forEach` loops of the source are the methods `AssignPositions` and `BumpPositions`, each proved against a specification function.
- **QuadrantView** (`quadrant.dfy`) is what one quadrant shows:
  - the comparator of the display sort;
  - the stable sort, written as an insertion sort;
  - the index each rendered task reports to the drag-and-drop library.
- **GridHandlers** (`quadrant_grid.dfy`) models the grid's handlers in two parts:
  - pure functions that decide which store call each handler makes (`DragEndCall`, `TaskCompleteCall`, `SaveTaskCall`), plus `Apply`, which carries a call out on a list;
  - the class `QuadrantGrid`, which holds the modal state (`isModalOpen`, `selectedTask`, `selectedQuadrant`) next to a `TaskProvider`.
  The module also holds the reorder the drag indices call for, `ReorderedByDisplay`, and the worked example of the finding below.
- **Scenarios** (`scenarios.dfy`) works small boards through the operations. Each one shows the positions the code produces.

Only the store generates ids. A fresh id is passed in as a parameter (`newId`), and the callers are required to pass one that no task has. The store's invariant is that ids are unique. Every operation keeps it: `ApplyKeepsUniqueIds`, and `Valid()` on both classes.

## Model

| member | source | states |
|---|---|---|
| Types.WithIdentity | src/types/index.ts:1-8 | a task built from a draft carries the given id and position, and its other fields are the draft's |
| Types.TaskIsDraftPlusIdentity | src/types/index.ts:16-18 | a task is exactly its draft part plus its id and position, so the `Omit<Task, 'id' \| 'position'>` type loses nothing else |
| TaskLists.Filter | src/context/TaskContext.tsx:26 | the filtered list holds exactly the tasks of the input the selector keeps, and is no longer than the input |
| TaskLists.FindIndex | src/context/TaskContext.tsx:64-65 | `find` returns nothing exactly when no task has the id; otherwise it returns the first task with that id |
| TaskLists.FilterIdCount | src/context/TaskContext.tsx:42 | filtering out an id removes as many tasks as that id has occurrences, and keeps every other id's count |
| TaskLists.FilterSingleId | src/context/TaskContext.tsx:67 | when an id occurs once, the filtered list's ids are the old ids minus that one |
| TaskLists.QuadrantSplit | src/context/TaskContext.tsx:46-50 | a quadrant's tasks and the tasks outside it together have the whole list's length and ids: the split loses and adds none |
| TaskContext.Added | src/context/TaskContext.tsx:25-33 | adding appends one task, with the fresh id and the draft's fields, and keeps every earlier task in place |
| TaskContext.AddAppendsToQuadrant | src/context/TaskContext.tsx:26-32 | the new task's position is the number of tasks already in its quadrant; it ends that quadrant's stored list; other quadrants are unchanged; stored order and contiguity of every quadrant are kept |
| TaskContext.AddKeepsUniqueIds | src/context/TaskContext.tsx:29-32 | a fresh id keeps ids unique; the ids grow by exactly the new id |
| TaskContext.TaskProvider.AddTask | src/context/TaskContext.tsx:25-33 | the store's list becomes `Added` of the old list, and stays id-unique |
| TaskContext.Updated | src/context/TaskContext.tsx:35-39 | every task with the updated id is replaced by the update; every other task and the length are kept |
| TaskContext.UpdateKeepsIds | src/context/TaskContext.tsx:35-39 | an update keeps the id sequence and uniqueness, and changes nothing when no task has the id |
| TaskContext.FilterUpdated | src/context/TaskContext.tsx:36-38 | when the update keeps quadrant and position, updating commutes with taking a quadrant |
| TaskContext.UpdateInPlaceKeepsPositions | src/context/TaskContext.tsx:36-38 | an update that keeps quadrant and position leaves every quadrant's ids and positions as they were |
| TaskContext.TaskProvider.UpdateTask | src/context/TaskContext.tsx:35-39 | the store's list becomes `Updated` of the old list, and stays id-unique |
| TaskContext.Deleted | src/context/TaskContext.tsx:41-43 | the result holds exactly the tasks without the id, and the id is gone |
| TaskContext.DeleteRemovesExactly | src/context/TaskContext.tsx:41-43 | deleting removes as many tasks as the id has occurrences; keeps uniqueness; is a no-op for an absent id; distributes over concatenation (relative order kept) |
| TaskContext.TaskProvider.DeleteTask | src/context/TaskContext.tsx:41-43 | the store's list becomes `Deleted` of the old list, and stays id-unique |
| TaskContext.MoveElement | src/context/TaskContext.tsx:47-48 | the two splices put the element at `from` at index `to`, and the other elements keep their relative order |
| TaskContext.MoveElementPermutes | src/context/TaskContext.tsx:47-48 | the splices keep the multiset of ids |
| TaskContext.MoveElementKeepsTasks | src/context/TaskContext.tsx:47-48 | the splices keep the multiset of tasks |
| TaskContext.MoveElementInPlace | src/context/TaskContext.tsx:47-48 | moving an element onto its own index changes nothing |
| TaskContext.SpliceStart | src/context/TaskContext.tsx:48 | `splice(endIndex, 0, x)` on a list of `n` elements inserts at `endIndex` when that is at most `n`, and at `n` (the end) otherwise |
| TaskContext.TargetIndex | src/context/TaskContext.tsx:47-48 | in a quadrant of `count` tasks the moved task ends at an index below `count`: the end index when it is in range, the last index otherwise |
| TaskContext.Renumbered | src/context/TaskContext.tsx:51-53 | renumbering sets each task's position to its index, and keeps the ids and every other field |
| TaskContext.Reordered | src/context/TaskContext.tsx:45-56 | a reorder keeps the list's length; what it does to the quadrant, to the other quadrants and to the ids is stated by `ReorderRenumbersQuadrant`, `ReorderKeepsOtherQuadrants` and `ReorderPermutesIds` |
| TaskContext.AssignPositions | src/context/TaskContext.tsx:51-53 | the `forEach` loop produces `Renumbered` of its input |
| TaskContext.ReorderRenumbersQuadrant | src/context/TaskContext.tsx:45-56 | after a reorder, the quadrant's stored list is its old stored list with `from` moved to `to`, numbered 0..k-1 in that order (contiguous) |
| TaskContext.ReorderKeepsOtherQuadrants | src/context/TaskContext.tsx:50-55 | a reorder leaves every other quadrant's list unchanged |
| TaskContext.ReorderPermutesIds | src/context/TaskContext.tsx:50-55 | a reorder keeps the length and the multiset of ids, and keeps ids unique; the other quadrants' tasks come first, in their old order |
| TaskContext.ReorderSameIndex | src/context/TaskContext.tsx:45-56 | `reorderTasks(q, i, i)` renumbers the quadrant in stored order, which keeps its list as it was when its positions already equal its indices |
| TaskContext.SpliceMove | src/context/TaskContext.tsx:47-48 | the two splices move the element at the start index to the end index, or to the end of the list when the end index is past it |
| TaskContext.TaskProvider.ReorderTasks | src/context/TaskContext.tsx:45-56 | the store's list becomes `Reordered` of the old list, with an end index past the quadrant's last task read as that last index, and stays id-unique |
| TaskContext.Bump | src/context/TaskContext.tsx:74-78 | one loop step changes only the position, by at most one, and changes it exactly for a destination task at or after the index |
| TaskContext.Bumped | src/context/TaskContext.tsx:74-78 | each destination task at or after the index moves one position down; nothing else changes |
| TaskContext.Landed | src/context/TaskContext.tsx:70-78 | the moved task keeps its id, title, description and status and takes the destination quadrant; from another quadrant it takes the dropped index, and within its own quadrant it is bumped by the loop like the tasks it shares the list with |
| TaskContext.BumpPositions | src/context/TaskContext.tsx:74-78 | the `forEach` loop produces `Bumped` of its input |
| TaskContext.Moved | src/context/TaskContext.tsx:58-81 | an unknown id leaves the list unchanged; otherwise the moved task ends the list, in the destination |
| TaskContext.MoveLandsLast | src/context/TaskContext.tsx:64-80 | the length is kept; the last task is the moved one with the destination quadrant, and position `index` when it came from another quadrant or `index + 1` when it was already there |
| TaskContext.DestinationKeepsItsTasks | src/context/TaskContext.tsx:67-68 | removing a task from another quadrant leaves the destination's tasks unchanged |
| TaskContext.FilterBumped | src/context/TaskContext.tsx:68-78 | bumping commutes with taking a quadrant |
| TaskContext.MoveIntoDestination | src/context/TaskContext.tsx:67-80 | from another quadrant, the destination's list becomes its bumped old list followed by the task at position `index` |
| TaskContext.MoveKeepsOtherQuadrants | src/context/TaskContext.tsx:67-80 | every quadrant other than the destination only loses the moved task; no position in it changes, so the source keeps a gap |
| TaskContext.BumpAndAppendContiguous | src/context/TaskContext.tsx:70-78 | a contiguous list, bumped at an index no larger than its length and followed by a task at that index, is contiguous |
| TaskContext.MoveKeepsDestinationContiguous | src/context/TaskContext.tsx:58-81 | a move from another quadrant keeps a contiguous destination contiguous, for any in-range index |
| TaskContext.MoveKeepsStoredOrderIffDroppedLast | src/context/TaskContext.tsx:58-81 | the destination's stored order still matches its positions after the move exactly when the task was dropped at its end |
| TaskContext.MoveKeepsUniqueIds | src/context/TaskContext.tsx:64-80 | a move keeps the length, the multiset of ids and uniqueness |
| TaskContext.TaskProvider.MoveTask | src/context/TaskContext.tsx:58-81 | the store's list becomes `Moved` of the old list, and stays id-unique |
| TaskContext.TaskProvider.constructor | src/context/TaskContext.tsx:16-19 | the store starts from the saved list, or from the empty list when nothing was saved |
| QuadrantView.Compare | src/components/Quadrant.tsx:38-44 | the comparator is negative exactly when `a` is incomplete and `b` completed or both share a status and `a` has the smaller position; zero exactly on equal status and position; positive in the mirrored cases |
| QuadrantView.CompareIsTotalPreorder | src/components/Quadrant.tsx:38-44 | the comparator is antisymmetric and transitive; it orders by (completed, position), and is zero exactly on equal keys |
| QuadrantView.InsertAddsTask | src/components/Quadrant.tsx:38 | inserting adds exactly the task |
| QuadrantView.InsertKeepsOrder | src/components/Quadrant.tsx:38-44 | inserting into a list in display order keeps it in display order |
| QuadrantView.SortedTasks | src/components/Quadrant.tsx:38-44 | the sort keeps the length; that it is a permutation in display order and stable is stated by `SortedIsOrderedPermutation`, `SortedDisplayOrder` and `SortedIsStable` |
| QuadrantView.SortedIsOrderedPermutation | src/components/Quadrant.tsx:38-44 | the sort returns a permutation of the quadrant's tasks, in display order |
| QuadrantView.SortedDisplayOrder | src/components/Quadrant.tsx:39-43 | incomplete tasks come before completed ones, and tasks of one status come in ascending position |
| QuadrantView.SortedOfOrderedIsIdentity | src/components/Quadrant.tsx:38-44 | a list already in display order is shown as stored (the sort is stable) |
| QuadrantView.SortedIsStable | src/components/Quadrant.tsx:38-44 | for every completion status and position, the tasks with that key come out of the sort in their input order: the sort is stable |
| QuadrantView.DisplayIsStoredWhenIndexed | src/components/Quadrant.tsx:38-44 | when positions equal indices and all tasks share one status, display order is stored order |
| QuadrantView.Display | src/components/Quadrant.tsx:38-44 | the quadrant shows exactly its own tasks, as a multiset |
| QuadrantView.DisplayOfIndexedQuadrant | src/components/Quadrant.tsx:38-44 | an indexed quadrant of one status is shown as stored |
| QuadrantView.Draggables | src/components/Quadrant.tsx:62-66 | one draggable per task of the quadrant, each for a task of that quadrant |
| QuadrantView.DraggableIndexIsDisplayIndex | src/components/Quadrant.tsx:62-66 | each draggable's index is its task's index in the sorted display, and every task of the quadrant is rendered exactly once |
| GridHandlers.Apply | src/components/QuadrantGrid.tsx:18 | no call keeps the list; an add appends one task after the unchanged list; an update or a reorder keeps the length; a move of an unknown id keeps the list |
| GridHandlers.ApplyKeepsUniqueIds | src/components/QuadrantGrid.tsx:18 | every store call the grid can make keeps ids unique (an add given a fresh id) |
| GridHandlers.DragEndCall | src/components/QuadrantGrid.tsx:23-40 | no call exactly when dropped outside; a reorder exactly when source and destination quadrants are equal, with the two indices; otherwise a move of the dragged id to the destination at its index, with source different from destination |
| GridHandlers.DropWithinIsReorder | src/components/QuadrantGrid.tsx:33-35 | a drop in the quadrant it came from is the store's reorder of that quadrant from the source index to the destination index, read as the last index when it is past the end |
| GridHandlers.DropWithinQuadrant | src/components/QuadrantGrid.tsx:33-35 | after such a drop, the quadrant's stored list is its old one with the task at the source index moved to the destination index (the end for an index past it), numbered 0..k-1 |
| GridHandlers.DropWithinKeepsOtherQuadrants | src/components/QuadrantGrid.tsx:33-35 | such a drop leaves every other quadrant's list unchanged |
| GridHandlers.DropIntoOtherQuadrant | src/components/QuadrantGrid.tsx:36-39 | a drop in another quadrant puts the task last, in the destination at exactly the dropped index (never bumped itself), bumps the destination's later tasks, and removes it from the source |
| GridHandlers.QuadrantGrid.HandleDragEnd | src/components/QuadrantGrid.tsx:23-40 | the store's list becomes `Apply` of the call `DragEndCall` decides |
| GridHandlers.QuadrantGrid.HandleTaskClick | src/components/QuadrantGrid.tsx:42-45 | the modal opens on the clicked task; the quadrant for new tasks is kept |
| GridHandlers.TaskCompleteCall | src/components/QuadrantGrid.tsx:47-52 | no call exactly when no task has the id; otherwise an update of a task with that id, with only `isCompleted` replaced |
| GridHandlers.ToggleChangesOnlyCompletion | src/components/QuadrantGrid.tsx:47-52 | toggling replaces only that task's completion; every quadrant keeps its ids and positions |
| GridHandlers.QuadrantGrid.HandleTaskComplete | src/components/QuadrantGrid.tsx:47-52 | the store's list becomes `Apply` of the call `TaskCompleteCall` decides |
| GridHandlers.QuadrantGrid.HandleQuadrantDoubleClick | src/components/QuadrantGrid.tsx:54-58 | the modal opens for a new task in the double-clicked quadrant |
| GridHandlers.QuadrantGrid.HandleAddTaskClick | src/components/QuadrantGrid.tsx:81-90 | the "Add Task" button opens the modal for a new task in quadrant 1 |
| GridHandlers.QuadrantGrid.HandleModalClose | src/components/QuadrantGrid.tsx:111-114 | closing the modal clears the selection and keeps the quadrant for new tasks |
| GridHandlers.QuadrantGrid.HandleDeleteSelected | src/components/TaskModal.tsx:92-97 | the dialog's Delete button, shown only for a selected task, makes the store's list `Deleted` of the old list by that task's id (the grid passes `deleteTask` as `onDelete`), then closes the modal and clears the selection |
| GridHandlers.SaveTaskCall | src/components/QuadrantGrid.tsx:60-65 | editing updates the selected task's id and position with the modal's fields; adding uses the modal's fields with the selected quadrant |
| GridHandlers.SaveNewTaskAppends | src/components/QuadrantGrid.tsx:63-65 | saving a new task appends it to the selected quadrant, at position equal to that quadrant's count |
| GridHandlers.EditIntoOtherQuadrantKeepsPosition | src/components/QuadrantGrid.tsx:61-62 | editing a task into another quadrant keeps its old position, so two destination tasks can share a position |
| GridHandlers.QuadrantGrid.HandleSaveTask | src/components/QuadrantGrid.tsx:60-68 | the store's list becomes `Apply` of the call `SaveTaskCall` decides; the modal closes, the selection clears, and the quadrant is kept |
| GridHandlers.QuadrantGrid.constructor | src/components/QuadrantGrid.tsx:19-21 | the grid starts with the modal closed, no task selected and quadrant 1 |
| GridHandlers.DragReorderUsesStoredOrder | src/components/QuadrantGrid.tsx:33-34 | a drag of the first shown task to index 1 becomes `reorderTasks(2, 0, 1)`, which leaves the display unchanged where the intended reorder shows the other task first |
| GridHandlers.ReorderedByDisplay | src/components/Quadrant.tsx:62-66 | the reorder the drag indices call for: the quadrant's list becomes its display order with `from` moved to `to`, renumbered |
| GridHandlers.DisplayReorderMovesDisplayedTask | src/components/Quadrant.tsx:62-66 | for a quadrant of one status, the display after `ReorderedByDisplay` is the old display with the dragged task moved |
| GridHandlers.StoredReorderIsDisplayReorderWhenIndexed | src/context/TaskContext.tsx:45-56 | when positions equal indices and all tasks share one status, the store's reorder and the display-order reorder coincide |
| Scenarios.ThreeAddsNumberInOrder | src/context/TaskContext.tsx:25-33 | three adds to an empty quadrant get positions 0, 1, 2 |
| Scenarios.ReorderFirstToLast | src/context/TaskContext.tsx:45-56 | dragging X from 0 to 2 in [X, Y, Z] gives [Y, Z, X] at 0, 1, 2 |
| Scenarios.MoveLeavesGapInSource | src/context/TaskContext.tsx:58-81 | moving A out of [A, B] into [C] gives [C, A] at 0, 1 and leaves B at position 1, a gap |
| Scenarios.DeleteThenReorderRestoresContiguity | src/context/TaskContext.tsx:41-56 | a delete leaves a gap; a later reorder renumbers the quadrant contiguously |
| Scenarios.AddAfterDeleteReusesPosition | src/context/TaskContext.tsx:25-43 | deleting X from [X at 0, Y at 1] and then adding Z to that quadrant gives Z position 1, which Y still holds: the quadrant's positions are [1, 1] and not contiguous |
| Scenarios.MoveWithinOwnQuadrantBumpsItself | src/context/TaskContext.tsx:68-78 | `moveTask` into the task's own quadrant bumps the moved task itself to index + 1 |
| Scenarios.CompletedTaskSinksInDisplay | src/components/QuadrantGrid.tsx:47-52 | checking the middle task of three shows it last, while its stored position stays 1 |

## Left out

- Local storage and JSON are not modelled. The saved list is the constructor's `Option` parameter, and the write after every change (src/context/TaskContext.tsx:21-23) is implicit in `tasks`. A corrupt saved string makes `JSON.parse` throw; it does not give an empty list.
- A saved list that breaks the model's types is not modelled: quadrants outside 1..4, or positions that are negative or not integers.
- Id generation (`uuidv4`) is a parameter, `newId`. The callers are required to pass an id no task has.
- Aliasing is not modelled. `reorderTasks` and `moveTask` change the `position` and `quadrant` fields of task objects that the previous state shares. The model builds new task values instead, so no earlier list ever observes the changes.
- React plumbing is left out: context creation, `useTaskContext`, rendering, CSS classes, quadrant titles and colours. src/App.tsx is not part of this model.
- The editor dialog's form (src/components/TaskModal.tsx) is not part of this model: its fields, its title check and its `onClose` call after `onSave`. `HandleSaveTask` takes the draft the dialog produces. Its Delete button is `HandleDeleteSelected`, and its close is `HandleModalClose`.
- src/components/Task.tsx (the card and its checkbox) is not part of this model. Its checkbox calls `onTaskComplete`, which is `HandleTaskComplete`.
- The drag-and-drop library is not modelled. `DropResult` carries the quadrant ids already converted by `Number(...)`, as `QuadrantId`s.
- TaskContext.TaskProvider.ReorderTasks: requires the start index to name a task of the quadrant. With any other start index, `splice` removes nothing and the renumbering loop fails on `undefined`; the model does not represent that failure. An end index past the end is handled, as `splice` handles it.
- Negative indices are not modelled: indices are `nat`. The drag library reports indices of rendered items only.
- TaskContext.TaskProvider.MoveTask: `sourceQuadrant` is accepted and never read, as in the source.
- QuadrantView.SortedTasks: `Array.prototype.sort` is modelled as a stable insertion sort. The engine's algorithm is not modelled; since ES2019 `sort` must be stable, so the result is the same (`SortedIsOrderedPermutation`, `SortedIsStable`).

Where the intended behaviour and the code disagree, the model follows the code:

- `reorderTasks(q, i, i)` does change the list. The quadrant's tasks move to the end of the stored list and are renumbered by stored order (`ReorderSameIndex`).
- A move between quadrants leaves the source quadrant with a gap. The source's positions are not renumbered (`MoveKeepsOtherQuadrants`, `MoveLeavesGapInSource`).
- Positions within a quadrant are not kept distinct. A delete leaves a gap, and a later add takes the quadrant's count as its position, which a remaining task can already hold (`AddAfterDeleteReusesPosition`). An edit into another quadrant keeps the old position (`EditIntoOtherQuadrantKeepsPosition`).
- Indices are not clamped by the store itself. Only `splice` puts an end index past the list at the end; a start index must name a task.
- `moveTask` is modelled for every pair of quadrants, including a task moved into its own quadrant. There, the bump loop also reaches the moved task (`MoveWithinOwnQuadrantBumpsItself`). The grid never makes that call (`DragEndCall`).

## Findings

| source | as written | input that shows it | evidently intended | confidence | as-written member | corrected member |
|---|---|---|---|---|---|---|
| src/components/QuadrantGrid.tsx:34 with src/components/Quadrant.tsx:62-66 and src/context/TaskContext.tsx:46-48 | The drag indices are indices into the sorted display, but `reorderTasks` uses them as indices into the quadrant's stored list. | Drop task "a" from quadrant 1 at the top of quadrant 2, which holds "c". The store is then [c (position 1), a (position 0)], shown as [a, c]. Drag "a" from index 0 to index 1: the grid calls `reorderTasks(2, 0, 1)`, which moves "c" and still shows [a, c]. | Reorder the quadrant in display order, so that the dragged task is the one that moves and the display becomes [c, a]. | not executed | GridHandlers.DragReorderUsesStoredOrder | GridHandlers.ReorderedByDisplay |

