/** Small boards worked through the store's operations, one per documented
    usage scenario, showing the positions the code actually produces. */
module Scenarios {
  import opened Types
  import opened TaskLists
  import opened TaskContext
  import opened QuadrantView
  import opened GridHandlers

  function Q1(id: string, position: nat): Task {
    Task(id, id, "", false, 1, position)
  }

  /** Three tasks added to an empty quadrant 1 get positions 0, 1, 2 in the
      order they were created. */
  lemma ThreeAddsNumberInOrder()
    ensures var d := TaskDraft("t", "", false, 1);
            Positions(Added(Added(Added([], d, "x"), d, "y"), d, "z")) == [0, 1, 2]
  {
    var d := TaskDraft("t", "", false, 1);
    var r1 := Added([], d, "x");
    var r2 := Added(r1, d, "y");
    FilterKeepsAll(r1, InQuadrant(1));
    FilterKeepsAll(r2, InQuadrant(1));
  }

  /** Quadrant 1 holds X, Y, Z at positions 0, 1, 2; dragging X from index 0
      to index 2 gives Y, Z, X at positions 0, 1, 2. */
  lemma ReorderFirstToLast()
    ensures Reordered([Q1("x", 0), Q1("y", 1), Q1("z", 2)], 1, 0, 2) == [Q1("y", 0), Q1("z", 1), Q1("x", 2)]
  {
    var ts := [Q1("x", 0), Q1("y", 1), Q1("z", 2)];
    var m := [Q1("y", 1), Q1("z", 2), Q1("x", 0)];
    assert Filter(ts, InQuadrant(1)) == ts && Filter(ts, NotInQuadrant(1)) == [] by {
      FilterKeepsAll(ts, InQuadrant(1));
      FilterKeepsNone(ts, NotInQuadrant(1));
    }
    MoveFirstToLast(ts[0], ts[1], ts[2]);
    assert ts == [ts[0], ts[1], ts[2]];
    assert Renumbered(m) == [Q1("y", 0), Q1("z", 1), Q1("x", 2)];
  }

  lemma MoveFirstToLast(x: Task, y: Task, z: Task)
    ensures MoveElement([x, y, z], 0, 2) == [y, z, x]
  {
    assert [x, y, z][..0] + [x, y, z][1..] == [y, z];
  }

  /** Quadrant 1 holds A, B at positions 0, 1 and quadrant 2 holds C at 0.
      Moving A to index 1 of quadrant 2 gives quadrant 2 the tasks C, A at
      positions 0, 1, and leaves B alone in quadrant 1 at position 1: the
      source keeps a gap. */
  lemma MoveLeavesGapInSource()
    ensures var c := Task("c", "c", "", false, 2, 0);
            var r := Moved([Q1("a", 0), Q1("b", 1), c], "a", 2, 1);
            && Filter(r, InQuadrant(1)) == [Q1("b", 1)]
            && Filter(r, InQuadrant(2)) == [c, Q1("a", 1).(quadrant := 2)]
            && !Contiguous(Filter(r, InQuadrant(1)))
  {
    var c := Task("c", "c", "", false, 2, 0);
    var ts := [Q1("a", 0), Q1("b", 1), c];
    assert FindIndex(ts, "a") == Some(0);
    assert Deleted(ts, "a") == [Q1("b", 1), c] by {
      assert Filter(ts, NotWithId("a")) == Filter([Q1("b", 1), c], NotWithId("a"));
      FilterKeepsAll([Q1("b", 1), c], NotWithId("a"));
    }
    var r := [Q1("b", 1), c, Q1("a", 1).(quadrant := 2)];
    assert Moved(ts, "a", 2, 1) == r;
    assert Filter(r, InQuadrant(1)) == [Q1("b", 1)] + Filter([c, Q1("a", 1).(quadrant := 2)], InQuadrant(1));
    FilterKeepsNone([c, Q1("a", 1).(quadrant := 2)], InQuadrant(1));
    assert Filter(r, InQuadrant(2)) == Filter([c, Q1("a", 1).(quadrant := 2)], InQuadrant(2));
    FilterKeepsAll([c, Q1("a", 1).(quadrant := 2)], InQuadrant(2));
  }

  /** Deleting the middle task of X, Y, Z leaves positions 0 and 2; a later
      reorder of the quadrant is still in range and renumbers it to 0, 1. */
  lemma DeleteThenReorderRestoresContiguity()
    ensures var r := Deleted([Q1("x", 0), Q1("y", 1), Q1("z", 2)], "y");
            && r == [Q1("x", 0), Q1("z", 2)]
            && !Contiguous(r)
            && |Filter(r, InQuadrant(1))| == 2
            && Reordered(r, 1, 1, 0) == [Q1("z", 0), Q1("x", 1)]
  {
    var ts := [Q1("x", 0), Q1("y", 1), Q1("z", 2)];
    assert Filter(ts, NotWithId("y")) == [Q1("x", 0)] + Filter([Q1("y", 1), Q1("z", 2)], NotWithId("y"));
    assert Filter([Q1("y", 1), Q1("z", 2)], NotWithId("y")) == Filter([Q1("z", 2)], NotWithId("y"));
    FilterKeepsAll([Q1("z", 2)], NotWithId("y"));
    var r := [Q1("x", 0), Q1("z", 2)];
    FilterKeepsAll(r, InQuadrant(1));
    FilterKeepsNone(r, NotInQuadrant(1));
    assert MoveElement(r, 1, 0) == [Q1("z", 2), Q1("x", 0)];
  }

  /** Quadrant 1 holds X, Y at positions 0, 1. Deleting X and then adding Z
      to quadrant 1 gives Z the quadrant's count, 1, which Y still holds: two
      tasks of one quadrant share a position. */
  lemma AddAfterDeleteReusesPosition()
    ensures var r := Added(Deleted([Q1("x", 0), Q1("y", 1)], "x"), TaskDraft("z", "", false, 1), "z");
            && r == [Q1("y", 1), Q1("z", 1)]
            && Positions(Filter(r, InQuadrant(1))) == [1, 1]
            && !Contiguous(Filter(r, InQuadrant(1)))
  {
    var ts := [Q1("x", 0), Q1("y", 1)];
    assert Deleted(ts, "x") == [Q1("y", 1)] by {
      assert Filter(ts, NotWithId("x")) == Filter([Q1("y", 1)], NotWithId("x"));
      FilterKeepsAll([Q1("y", 1)], NotWithId("x"));
    }
    FilterKeepsAll([Q1("y", 1)], InQuadrant(1));
    var r := [Q1("y", 1), Q1("z", 1)];
    assert Added([Q1("y", 1)], TaskDraft("z", "", false, 1), "z") == r;
    FilterKeepsAll(r, InQuadrant(1));
    assert r[0].position == r[1].position;
  }

  /** Moving a task onto its own quadrant: the bump loop reaches the moved
      task too, so it lands at index + 1. */
  lemma MoveWithinOwnQuadrantBumpsItself()
    ensures Moved([Q1("a", 0)], "a", 1, 0) == [Q1("a", 1)]
  {
    assert FindIndex([Q1("a", 0)], "a") == Some(0);
    assert Deleted([Q1("a", 0)], "a") == [] by {
      FilterKeepsNone([Q1("a", 0)], NotWithId("a"));
    }
  }

  /** Checking the middle task of X, Y, Z shows it below the others while its
      stored position stays 1. */
  lemma CompletedTaskSinksInDisplay()
    ensures var ts := [Q1("x", 0), Q1("y", 1), Q1("z", 2)];
            var r := Apply(ts, TaskCompleteCall(ts, "y", true), "");
            && r == [Q1("x", 0), Q1("y", 1).(isCompleted := true), Q1("z", 2)]
            && Display(r, 1) == [r[0], r[2], r[1]]
  {
    CheckMiddleTask();
    var r := [Q1("x", 0), Q1("y", 1).(isCompleted := true), Q1("z", 2)];
    assert Filter(r, InQuadrant(1)) == r by {
      FilterKeepsAll(r, InQuadrant(1));
    }
    CompletedTaskShownLast(r[0], r[1], r[2]);
    assert r == [r[0], r[1], r[2]];
  }

  lemma CheckMiddleTask()
    ensures var ts := [Q1("x", 0), Q1("y", 1), Q1("z", 2)];
            Apply(ts, TaskCompleteCall(ts, "y", true), "") == [Q1("x", 0), Q1("y", 1).(isCompleted := true), Q1("z", 2)]
  {
    var ts := [Q1("x", 0), Q1("y", 1), Q1("z", 2)];
    assert FindIndex(ts, "y") == Some(1);
    assert Updated(ts, Q1("y", 1).(isCompleted := true)) == [Q1("x", 0), Q1("y", 1).(isCompleted := true), Q1("z", 2)];
  }

  lemma SortedSingle(z: Task)
    ensures SortedTasks([z]) == [z]
  {
    SortedCons(z, []);
  }

  lemma SortedPairSwaps(y: Task, z: Task)
    requires y.isCompleted && !z.isCompleted
    ensures SortedTasks([y, z]) == [z, y]
  {
    assert SortedTasks([y, z]) == Insert(y, [z]) by {
      SortedSingle(z);
      SortedCons(y, [z]);
      assert [y, z] == [y] + [z];
    }
  }

  /** A completed task between two incomplete ones is sorted below both. */
  lemma CompletedTaskShownLast(x: Task, y: Task, z: Task)
    requires !x.isCompleted && y.isCompleted && !z.isCompleted && x.position <= z.position
    ensures SortedTasks([x, y, z]) == [x, z, y]
  {
    assert SortedTasks([x, y, z]) == Insert(x, [z, y]) by {
      SortedPairSwaps(y, z);
      SortedCons(x, [y, z]);
      assert [x, y, z] == [x] + [y, z];
    }
    assert Insert(x, [z, y]) == [x] + [z, y] by {
      assert Compare(x, z) <= 0;
    }
  }
}
