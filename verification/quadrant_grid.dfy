/** The grid of four quadrants: which store operation each user gesture
    triggers, and the modal's state (open or closed, the task being edited, the
    quadrant a new task goes to). */
module GridHandlers {
  import opened Types
  import opened TaskLists
  import opened TaskContext
  import opened QuadrantView

  /** Where a drag started or ended: a quadrant and an index in its display. */
  datatype DraggableLocation = DraggableLocation(droppableId: QuadrantId, index: nat)

  /** What the drag library reports when a drag ends; no destination means the
      task was dropped outside every quadrant. */
  datatype DropResult = DropResult(source: DraggableLocation, destination: Option<DraggableLocation>, draggableId: string)

  /** The store operation a handler calls, with its arguments. */
  datatype StoreCall =
    | NoCall
    | AddCall(task: TaskDraft)
    | UpdateCall(updated: Task)
    | ReorderCall(quadrant: QuadrantId, startIndex: nat, endIndex: nat)
    | MoveCall(taskId: string, sourceQuadrant: QuadrantId, destinationQuadrant: QuadrantId, destinationIndex: nat)

  /** The start index of a reorder names one of the quadrant's tasks: with
      any other, `splice` removes nothing and the renumbering loop fails on
      `undefined`. */
  predicate CallInRange(ts: seq<Task>, c: StoreCall) {
    c.ReorderCall? ==> c.startIndex < |Filter(ts, InQuadrant(c.quadrant))|
  }

  /** The store's list after the call; `newId` is the identifier an add draws. */
  function Apply(ts: seq<Task>, c: StoreCall, newId: string): (r: seq<Task>)
    requires CallInRange(ts, c)
    ensures c.NoCall? ==> r == ts
    ensures c.AddCall? ==> |r| == |ts| + 1 && r[..|ts|] == ts
    ensures c.UpdateCall? || c.ReorderCall? ==> |r| == |ts|
    ensures c.MoveCall? && c.taskId !in Ids(ts) ==> r == ts
  {
    match c
    case NoCall => ts
    case AddCall(d) => Added(ts, d, newId)
    case UpdateCall(u) => Updated(ts, u)
    case ReorderCall(q, from, to) => Reordered(ts, q, from, TargetIndex(to, |Filter(ts, InQuadrant(q))|))
    case MoveCall(id, _, dst, index) => Moved(ts, id, dst, index)
  }

  /** Every store call keeps the ids unique (an add given a fresh id). */
  lemma ApplyKeepsUniqueIds(ts: seq<Task>, c: StoreCall, newId: string)
    requires CallInRange(ts, c) && UniqueIds(ts)
    requires c.AddCall? ==> newId !in Ids(ts)
    ensures UniqueIds(Apply(ts, c, newId))
  {
    match c
    case NoCall =>
    case AddCall(d) => AddKeepsUniqueIds(ts, d, newId);
    case UpdateCall(u) => UpdateKeepsIds(ts, u);
    case ReorderCall(q, from, to) => ReorderPermutesIds(ts, q, from, TargetIndex(to, |Filter(ts, InQuadrant(q))|));
    case MoveCall(id, _, dst, index) => MoveKeepsUniqueIds(ts, id, dst, index);
  }

  // ---------------------------------------------------------------------------
  // handleDragEnd

  /** A drop outside does nothing, a drop in the quadrant it came from
      reorders that quadrant, and a drop in another quadrant moves the task. */
  function DragEndCall(result: DropResult): (c: StoreCall)
    ensures c == NoCall <==> result.destination.None?
    ensures c.ReorderCall? <==> result.destination.Some? && result.destination.value.droppableId == result.source.droppableId
    ensures c.ReorderCall? ==>
              c.quadrant == result.source.droppableId
              && c.startIndex == result.source.index && c.endIndex == result.destination.value.index
    ensures c.MoveCall? ==>
              && c.taskId == result.draggableId
              && c.sourceQuadrant == result.source.droppableId
              && c.destinationQuadrant == result.destination.value.droppableId
              && c.destinationIndex == result.destination.value.index
              && c.sourceQuadrant != c.destinationQuadrant
    ensures !c.AddCall? && !c.UpdateCall?
  {
    match result.destination
    case None => NoCall
    case Some(destination) =>
      if result.source.droppableId == destination.droppableId then
        ReorderCall(result.source.droppableId, result.source.index, destination.index)
      else
        MoveCall(result.draggableId, result.source.droppableId, destination.droppableId, destination.index)
  }

  /** A drop within quadrant `q` is the store's reorder of `q` from the source
      index to the destination index, read as the end of the list when it is
      past it. */
  lemma DropWithinIsReorder(ts: seq<Task>, result: DropResult, q: QuadrantId)
    requires result.destination.Some? && result.destination.value.droppableId == result.source.droppableId == q
    requires result.source.index < |Filter(ts, InQuadrant(q))|
    ensures CallInRange(ts, DragEndCall(result))
    ensures Apply(ts, DragEndCall(result), "")
         == Reordered(ts, q, result.source.index, TargetIndex(result.destination.value.index, |Filter(ts, InQuadrant(q))|))
  {
    assert DragEndCall(result) == ReorderCall(q, result.source.index, result.destination.value.index);
  }

  /** A drop within quadrant `q` leaves q's stored list as the old one with
      the task at the source index moved to the destination index (the end of
      the list for an index past it), renumbered from 0. */
  lemma DropWithinQuadrant(ts: seq<Task>, result: DropResult, q: QuadrantId)
    requires result.destination.Some? && result.destination.value.droppableId == result.source.droppableId == q
    requires result.source.index < |Filter(ts, InQuadrant(q))|
    ensures CallInRange(ts, DragEndCall(result))
    ensures Filter(Apply(ts, DragEndCall(result), ""), InQuadrant(q))
         == Renumbered(MoveElement(Filter(ts, InQuadrant(q)), result.source.index,
                                   TargetIndex(result.destination.value.index, |Filter(ts, InQuadrant(q))|)))
  {
    DropWithinIsReorder(ts, result, q);
    ReorderRenumbersQuadrant(ts, q, result.source.index, TargetIndex(result.destination.value.index, |Filter(ts, InQuadrant(q))|));
  }

  /** A drop within quadrant `q` leaves every other quadrant as it was. */
  lemma DropWithinKeepsOtherQuadrants(ts: seq<Task>, result: DropResult, q: QuadrantId, q': QuadrantId)
    requires result.destination.Some? && result.destination.value.droppableId == result.source.droppableId == q
    requires result.source.index < |Filter(ts, InQuadrant(q))|
    requires q' != q
    ensures CallInRange(ts, DragEndCall(result))
    ensures Filter(Apply(ts, DragEndCall(result), ""), InQuadrant(q')) == Filter(ts, InQuadrant(q'))
  {
    DropWithinIsReorder(ts, result, q);
    ReorderKeepsOtherQuadrants(ts, q, result.source.index, TargetIndex(result.destination.value.index, |Filter(ts, InQuadrant(q))|), q');
  }

  /** A task dragged out of its own quadrant into another lands last in the
      store, in the destination, at exactly the dropped index: the grid never
      makes the store bump the moved task itself. The destination's other
      tasks at or after that index move one down; the source loses the task. */
  lemma DropIntoOtherQuadrant(ts: seq<Task>, result: DropResult, i: nat)
    requires UniqueIds(ts)
    requires result.destination.Some? && result.destination.value.droppableId != result.source.droppableId
    requires i < |ts| && ts[i].id == result.draggableId && ts[i].quadrant == result.source.droppableId
    ensures var dst := result.destination.value.droppableId;
            var index := result.destination.value.index;
            var r := Apply(ts, DragEndCall(result), "");
            && |r| == |ts|
            && r[|ts| - 1] == ts[i].(quadrant := dst, position := index)
            && Filter(r, InQuadrant(dst)) == Bumped(Filter(ts, InQuadrant(dst)), dst, index) + [r[|ts| - 1]]
            && Filter(r, InQuadrant(result.source.droppableId))
               == Deleted(Filter(ts, InQuadrant(result.source.droppableId)), result.draggableId)
  {
    var dst := result.destination.value.droppableId;
    var index := result.destination.value.index;
    MoveLandsLast(ts, result.draggableId, dst, index, i);
    MoveIntoDestination(ts, result.draggableId, dst, index, i);
    MoveKeepsOtherQuadrants(ts, result.draggableId, dst, index, result.source.droppableId);
  }

  // ---------------------------------------------------------------------------
  // handleTaskComplete

  /** The checkbox: the first task with the id, with only `isCompleted`
      replaced; nothing when no task has the id. */
  function TaskCompleteCall(ts: seq<Task>, taskId: string, isCompleted: bool): (c: StoreCall)
    ensures c == NoCall <==> taskId !in Ids(ts)
    ensures c.NoCall? || c.UpdateCall?
    ensures c.UpdateCall? ==>
              exists k :: 0 <= k < |ts| && ts[k].id == taskId && c.updated == ts[k].(isCompleted := isCompleted)
  {
    match FindIndex(ts, taskId)
    case None => NoCall
    case Some(i) => UpdateCall(ts[i].(isCompleted := isCompleted))
  }

  /** Toggling completion, with unique ids, changes the completion of that
      one task and nothing else: every quadrant keeps its stored order and
      positions. */
  lemma ToggleChangesOnlyCompletion(ts: seq<Task>, taskId: string, isCompleted: bool, q: QuadrantId)
    requires UniqueIds(ts)
    ensures var r := Apply(ts, TaskCompleteCall(ts, taskId, isCompleted), "");
            && |r| == |ts|
            && (forall k :: 0 <= k < |ts| ==> r[k] == if ts[k].id == taskId then ts[k].(isCompleted := isCompleted) else ts[k])
            && Positions(Filter(r, InQuadrant(q))) == Positions(Filter(ts, InQuadrant(q)))
            && Ids(Filter(r, InQuadrant(q))) == Ids(Filter(ts, InQuadrant(q)))
  {
    var f := FindIndex(ts, taskId);
    if f.Some? {
      var u := ts[f.value].(isCompleted := isCompleted);
      forall t | t in ts && t.id == u.id ensures t.quadrant == u.quadrant && t.position == u.position {
        var k :| 0 <= k < |ts| && ts[k] == t;
        UniqueIdsApart(ts, k, f.value);
      }
      forall k | 0 <= k < |ts| && ts[k].id == taskId ensures u == ts[k].(isCompleted := isCompleted) {
        UniqueIdsApart(ts, k, f.value);
      }
      UpdateInPlaceKeepsPositions(ts, u, q);
    } else {
      forall k | 0 <= k < |ts| ensures ts[k].id != taskId {
        assert Ids(ts)[k] == ts[k].id;
      }
    }
  }

  // ---------------------------------------------------------------------------
  // handleSaveTask

  /** Saving the modal: an edit overlays the draft on the selected task, a new
      task takes the quadrant the modal was opened for. */
  function SaveTaskCall(selectedTask: Option<Task>, selectedQuadrant: QuadrantId, taskData: TaskDraft): (c: StoreCall)
    ensures selectedTask.Some? ==>
              && c.UpdateCall?
              && c.updated.id == selectedTask.value.id
              && c.updated.position == selectedTask.value.position
              && DraftOf(c.updated) == taskData
    ensures selectedTask.None? ==>
              && c.AddCall?
              && c.task.quadrant == selectedQuadrant
              && c.task.(quadrant := taskData.quadrant) == taskData
  {
    match selectedTask
    case Some(t) => UpdateCall(WithIdentity(taskData, t.id, t.position))
    case None => AddCall(taskData.(quadrant := selectedQuadrant))
  }

  /** Saving a new task appends it to the quadrant the modal was opened for,
      at the position equal to that quadrant's task count. */
  lemma SaveNewTaskAppends(ts: seq<Task>, selectedQuadrant: QuadrantId, taskData: TaskDraft, newId: string)
    ensures var r := Apply(ts, SaveTaskCall(None, selectedQuadrant, taskData), newId);
            && r[..|ts|] == ts && |r| == |ts| + 1
            && r[|ts|].id == newId && r[|ts|].quadrant == selectedQuadrant
            && r[|ts|].position == |Filter(ts, InQuadrant(selectedQuadrant))|
            && Filter(r, InQuadrant(selectedQuadrant)) == Filter(ts, InQuadrant(selectedQuadrant)) + [r[|ts|]]
  {
    var d := taskData.(quadrant := selectedQuadrant);
    AddAppendsToQuadrant(ts, d, newId, selectedQuadrant);
  }

  /** Moving a task to another quadrant through the editor keeps its old
      position, so two tasks of the destination can end up sharing one: task
      "a" at position 0 of quadrant 1, edited into quadrant 2 where "b" holds
      position 0. */
  lemma EditIntoOtherQuadrantKeepsPosition()
    ensures var a := Task("a", "A", "", false, 1, 0);
            var b := Task("b", "B", "", false, 2, 0);
            var r := Apply([a, b], SaveTaskCall(Some(a), 1, TaskDraft("A", "", false, 2)), "");
            && Filter(r, InQuadrant(2)) == [a.(quadrant := 2), b]
            && !Contiguous(Filter(r, InQuadrant(2)))
  {
    var a := Task("a", "A", "", false, 1, 0);
    var b := Task("b", "B", "", false, 2, 0);
    var u := a.(quadrant := 2);
    assert Updated([a, b], u) == [u, b];
    assert Filter([u, b], InQuadrant(2)) == [u] + Filter([b], InQuadrant(2));
    assert Filter([b], InQuadrant(2)) == [b] + Filter([], InQuadrant(2));
  }

  // ---------------------------------------------------------------------------
  // The display index handed to a reorder

  /** The reorder the grid's indices call for: the quadrant's tasks taken in
      display order rather than stored order, then moved and renumbered. */
  function ReorderedByDisplay(ts: seq<Task>, q: QuadrantId, from: nat, to: nat): (r: seq<Task>)
    requires from < |Filter(ts, InQuadrant(q))| && to < |Filter(ts, InQuadrant(q))|
    ensures |Filter(r, InQuadrant(q))| == |Filter(ts, InQuadrant(q))|
    ensures Filter(r, InQuadrant(q)) == Renumbered(MoveElement(Display(ts, q), from, to))
  {
    var d := Display(ts, q);
    assert |d| == |multiset(d)| == |multiset(Filter(ts, InQuadrant(q)))|;
    var m := Renumbered(MoveElement(d, from, to));
    MoveElementKeepsTasks(d, from, to);
    assert forall k :: 0 <= k < |m| ==> m[k].quadrant == q by {
      forall k | 0 <= k < |m| ensures m[k].quadrant == q {
        var e := MoveElement(d, from, to);
        assert e[k] in multiset(e);
        assert e[k] in multiset(d);
      }
    }
    QuadrantReplaced(ts, q, m);
    Filter(ts, NotInQuadrant(q)) + m
  }

  /** With the display indices, the quadrant's display after the reorder is
      its old display with the dragged task moved from `from` to `to`, as long
      as the quadrant's tasks share one completion status. */
  lemma DisplayReorderMovesDisplayedTask(ts: seq<Task>, q: QuadrantId, from: nat, to: nat)
    requires from < |Filter(ts, InQuadrant(q))| && to < |Filter(ts, InQuadrant(q))|
    requires UniformCompletion(Filter(ts, InQuadrant(q)))
    ensures Ids(Display(ReorderedByDisplay(ts, q, from, to), q)) == Ids(MoveElement(Display(ts, q), from, to))
  {
    var d := Display(ts, q);
    var f := Filter(ts, InQuadrant(q));
    assert |d| == |multiset(d)| == |multiset(f)|;
    var e := MoveElement(d, from, to);
    var m := Renumbered(e);
    MoveElementKeepsTasks(d, from, to);
    forall i, j | 0 <= i < j < |m| ensures Compare(m[i], m[j]) <= 0 {
      assert e[i] in multiset(e) && e[j] in multiset(e);
      assert e[i] in f && e[j] in f;
      UniformMembers(f, e[i], e[j]);
    }
    SortedOfOrderedIsIdentity(m);
  }

  /** When the quadrant's positions are its stored indices and its tasks share
      one completion status, display and stored indices coincide and the
      store's reorder is the one the grid means. */
  lemma StoredReorderIsDisplayReorderWhenIndexed(ts: seq<Task>, q: QuadrantId, from: nat, to: nat)
    requires from < |Filter(ts, InQuadrant(q))| && to < |Filter(ts, InQuadrant(q))|
    requires PositionsAreIndices(Filter(ts, InQuadrant(q)))
    requires UniformCompletion(Filter(ts, InQuadrant(q)))
    ensures Reordered(ts, q, from, to) == ReorderedByDisplay(ts, q, from, to)
  {
    DisplayIsStoredWhenIndexed(Filter(ts, InQuadrant(q)));
  }

  // A drag the store misreads. Quadrant 1 holds "a", quadrant 2 holds "c".
  // Dropping "a" at the top of quadrant 2 stores [c (position 1), a
  // (position 0)], shown as [a, c]. Dragging "a" from display index 0 to 1
  // then makes the grid call reorderTasks(2, 0, 1), which moves the stored
  // first task "c" onto index 1: the display stays [a, c] instead of the
  // intended [c, a].

  const TaskA := Task("a", "A", "", false, 1, 0)
  const TaskC := Task("c", "C", "", false, 2, 0)
  /** "a" and "c" once "a" is dropped at the top of quadrant 2. */
  const MovedA := TaskA.(quadrant := 2)
  const BumpedC := TaskC.(position := 1)
  const AfterMove := [BumpedC, MovedA]

  lemma DropAtTopOfOtherQuadrant()
    ensures Apply([TaskA, TaskC], DragEndCall(DropResult(DraggableLocation(1, 0), Some(DraggableLocation(2, 0)), "a")), "") == AfterMove
  {
    assert FindIndex([TaskA, TaskC], "a") == Some(0);
    assert Deleted([TaskA, TaskC], "a") == [TaskC] by {
      assert Filter([TaskA, TaskC], NotWithId("a")) == Filter([TaskC], NotWithId("a"));
      assert Filter([TaskC], NotWithId("a")) == [TaskC] + Filter([], NotWithId("a"));
    }
    assert Bumped([TaskC], 2, 0) == [BumpedC];
  }

  lemma AfterMoveShownOutOfStoredOrder()
    ensures Filter(AfterMove, InQuadrant(2)) == AfterMove
    ensures Filter(AfterMove, NotInQuadrant(2)) == []
    ensures Display(AfterMove, 2) == [MovedA, BumpedC]
  {
    FilterKeepsAll(AfterMove, InQuadrant(2));
    FilterKeepsNone(AfterMove, NotInQuadrant(2));
    assert SortedTasks([MovedA]) == [MovedA];
    assert Insert(BumpedC, [MovedA]) == [MovedA, BumpedC];
  }

  lemma AfterMoveReordered()
    ensures Reordered(AfterMove, 2, 0, 1) == [MovedA, BumpedC]
  {
    AfterMoveShownOutOfStoredOrder();
    assert MoveElement(AfterMove, 0, 1) == [MovedA, BumpedC];
  }

  lemma StoredReorderKeepsDisplay()
    ensures Display(Reordered(AfterMove, 2, 0, 1), 2) == [MovedA, BumpedC]
  {
    AfterMoveReordered();
    DisplayOfIndexedQuadrant([MovedA, BumpedC], 2);
  }

  lemma AfterMoveReorderedByDisplay()
    ensures ReorderedByDisplay(AfterMove, 2, 0, 1) == [BumpedC.(position := 0), MovedA.(position := 1)]
  {
    AfterMoveShownOutOfStoredOrder();
    assert MoveElement([MovedA, BumpedC], 0, 1) == [BumpedC, MovedA];
  }

  lemma DisplayReorderMovesTask()
    ensures Display(ReorderedByDisplay(AfterMove, 2, 0, 1), 2) == [BumpedC.(position := 0), MovedA.(position := 1)]
  {
    AfterMoveReorderedByDisplay();
    DisplayOfIndexedQuadrant([BumpedC.(position := 0), MovedA.(position := 1)], 2);
  }

  /** The grid's second drag leaves "a" on top of the display, where moving
      the displayed task from index 0 to 1 was meant to put "c" there; the
      reorder by display order does that. */
  lemma DragReorderUsesStoredOrder()
    ensures var drag := DropResult(DraggableLocation(2, 0), Some(DraggableLocation(2, 1)), "a");
            && DragEndCall(drag) == ReorderCall(2, 0, 1)
            && Display(Apply(AfterMove, DragEndCall(drag), ""), 2) == Display(AfterMove, 2)
            && Display(AfterMove, 2)[0].id == "a"
            && MoveElement(Display(AfterMove, 2), 0, 1)[0].id == "c"
            && Display(ReorderedByDisplay(AfterMove, 2, 0, 1), 2)[0].id == "c"
  {
    AfterMoveShownOutOfStoredOrder();
    StoredReorderKeepsDisplay();
    DisplayReorderMovesTask();
    IntendedDisplay();
  }

  lemma IntendedDisplay()
    ensures MoveElement([MovedA, BumpedC], 0, 1) == [BumpedC, MovedA]
  {
    assert MoveElement([MovedA, BumpedC], 0, 1) == [BumpedC, MovedA];
  }

  // ---------------------------------------------------------------------------
  // The component

  /** The grid's state beside the store: whether the modal is open, the task it
      edits (none for a new task) and the quadrant a new task goes to. */
  class QuadrantGrid {
    const store: TaskProvider
    var isModalOpen: bool
    var selectedTask: Option<Task>
    var selectedQuadrant: QuadrantId

    ghost predicate Valid()
      reads this, store
    {
      store.Valid()
    }

    /** The modal starts closed, with no task selected and quadrant 1. */
    constructor (store: TaskProvider)
      requires store.Valid()
      ensures this.store == store && Valid()
      ensures !isModalOpen && selectedTask == None && selectedQuadrant == 1
    {
      this.store := store;
      isModalOpen := false;
      selectedTask := None;
      selectedQuadrant := 1;
    }

    method HandleDragEnd(result: DropResult)
      requires Valid()
      requires CallInRange(store.tasks, DragEndCall(result))
      modifies store
      ensures Valid()
      ensures store.tasks == Apply(old(store.tasks), DragEndCall(result), "")
    {
      if result.destination.None? {
        return;
      }
      var sourceQuadrant := result.source.droppableId;
      var destinationQuadrant := result.destination.value.droppableId;
      if sourceQuadrant == destinationQuadrant {
        store.ReorderTasks(sourceQuadrant, result.source.index, result.destination.value.index);
      } else {
        store.MoveTask(result.draggableId, sourceQuadrant, destinationQuadrant, result.destination.value.index);
      }
    }

    /** Opens the editor on the clicked task. */
    method HandleTaskClick(task: Task)
      modifies this
      ensures isModalOpen && selectedTask == Some(task)
      ensures selectedQuadrant == old(selectedQuadrant)
    {
      selectedTask := Some(task);
      isModalOpen := true;
    }

    method HandleTaskComplete(taskId: string, isCompleted: bool)
      requires Valid()
      modifies store
      ensures Valid()
      ensures store.tasks == Apply(old(store.tasks), TaskCompleteCall(old(store.tasks), taskId, isCompleted), "")
    {
      var found := FindIndex(store.tasks, taskId);
      if found.Some? {
        store.UpdateTask(store.tasks[found.value].(isCompleted := isCompleted));
      }
    }

    /** Opens the editor for a new task in the double-clicked quadrant. */
    method HandleQuadrantDoubleClick(quadrantId: QuadrantId)
      modifies this
      ensures isModalOpen && selectedTask == None && selectedQuadrant == quadrantId
    {
      selectedQuadrant := quadrantId;
      selectedTask := None;
      isModalOpen := true;
    }

    /** The "Add Task" button: opens the editor for a new task in quadrant 1,
        as a double click on quadrant 1 does. */
    method HandleAddTaskClick()
      modifies this
      ensures isModalOpen && selectedTask == None && selectedQuadrant == 1
    {
      selectedQuadrant := 1;
      selectedTask := None;
      isModalOpen := true;
    }

    /** The editor's `onClose`: closes it and clears the selection; the
        quadrant for new tasks is kept. */
    method HandleModalClose()
      modifies this
      ensures !isModalOpen && selectedTask == None && selectedQuadrant == old(selectedQuadrant)
    {
      isModalOpen := false;
      selectedTask := None;
    }

    /** The editor's Delete button, shown only when a task is being edited:
        `onDelete`, which is the store's `deleteTask`, on that task's id, then
        `onClose`. */
    method HandleDeleteSelected()
      requires Valid() && selectedTask.Some?
      modifies this, store
      ensures Valid()
      ensures store.tasks == Deleted(old(store.tasks), old(selectedTask).value.id)
      ensures !isModalOpen && selectedTask == None && selectedQuadrant == old(selectedQuadrant)
    {
      store.DeleteTask(selectedTask.value.id);
      HandleModalClose();
    }

    /** Saves the modal through the store, then closes it and clears the
        selection; the quadrant for new tasks is kept. */
    method HandleSaveTask(taskData: TaskDraft, newId: string)
      requires Valid()
      requires selectedTask.None? ==> newId !in Ids(store.tasks)
      modifies this, store
      ensures Valid()
      ensures store.tasks == Apply(old(store.tasks), SaveTaskCall(old(selectedTask), old(selectedQuadrant), taskData), newId)
      ensures !isModalOpen && selectedTask == None && selectedQuadrant == old(selectedQuadrant)
    {
      if selectedTask.Some? {
        var updated := WithIdentity(taskData, selectedTask.value.id, selectedTask.value.position);
        assert SaveTaskCall(selectedTask, selectedQuadrant, taskData) == UpdateCall(updated);
        store.UpdateTask(updated);
      } else {
        var draft := taskData.(quadrant := selectedQuadrant);
        assert SaveTaskCall(selectedTask, selectedQuadrant, taskData) == AddCall(draft);
        store.AddTask(draft, newId);
      }
      isModalOpen := false;
      selectedTask := None;
    }
  }
}
