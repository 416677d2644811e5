/** The task store: one list of tasks and the five operations that change it.
    The list operations are first given as functions on values; the class
    TaskProvider at the end holds the list and changes it in place, each method
    proved to produce the function's result. */
module TaskContext {
  import opened Types
  import opened TaskLists

  // ---------------------------------------------------------------------------
  // addTask

  /** The list after adding a draft under a fresh id: the new task is appended
      and takes as position the number of tasks already in its quadrant. */
  function Added(ts: seq<Task>, draft: TaskDraft, newId: string): (r: seq<Task>)
    ensures |r| == |ts| + 1 && r[..|ts|] == ts
    ensures r[|ts|].id == newId && DraftOf(r[|ts|]) == draft
  {
    ts + [WithIdentity(draft, newId, |Filter(ts, InQuadrant(draft.quadrant))|)]
  }

  /** Adding puts the new task at the end of its quadrant's stored list, at the
      index equal to its position; the other quadrants are untouched. Order and
      contiguity of every quadrant are therefore kept. */
  lemma AddAppendsToQuadrant(ts: seq<Task>, draft: TaskDraft, newId: string, q: QuadrantId)
    ensures var r := Added(ts, draft, newId);
            Filter(r, InQuadrant(q)) == Filter(ts, InQuadrant(q)) + (if q == draft.quadrant then [r[|ts|]] else [])
    ensures Added(ts, draft, newId)[|ts|].position == |Filter(ts, InQuadrant(draft.quadrant))|
    ensures PositionsAreIndices(Filter(ts, InQuadrant(q))) ==> PositionsAreIndices(Filter(Added(ts, draft, newId), InQuadrant(q)))
    ensures Contiguous(Filter(ts, InQuadrant(q))) ==> Contiguous(Filter(Added(ts, draft, newId), InQuadrant(q)))
  {
    var r := Added(ts, draft, newId);
    FilterAppend(ts, [r[|ts|]], InQuadrant(q));
    assert Filter([r[|ts|]], InQuadrant(q)) == if q == draft.quadrant then [r[|ts|]] else [];
  }

  /** A fresh id keeps the ids unique. */
  lemma AddKeepsUniqueIds(ts: seq<Task>, draft: TaskDraft, newId: string)
    requires UniqueIds(ts) && newId !in Ids(ts)
    ensures UniqueIds(Added(ts, draft, newId))
    ensures multiset(Ids(Added(ts, draft, newId))) == multiset(Ids(ts)) + multiset{newId}
  {
    var r := Added(ts, draft, newId);
    IdsAppend(ts, [r[|ts|]]);
    assert Ids([r[|ts|]]) == [newId];
    assert multiset(Ids(ts))[newId] == 0;
  }

  // ---------------------------------------------------------------------------
  // updateTask

  /** `tasks.map(task => task.id === u.id ? u : task)`. */
  function Updated(ts: seq<Task>, u: Task): (r: seq<Task>)
    ensures |r| == |ts|
    ensures forall k :: 0 <= k < |ts| ==> r[k] == if ts[k].id == u.id then u else ts[k]
  {
    if ts == [] then []
    else [if ts[0].id == u.id then u else ts[0]] + Updated(ts[1..], u)
  }

  /** Updating keeps the ids in place, and is a no-op for an absent id. */
  lemma UpdateKeepsIds(ts: seq<Task>, u: Task)
    ensures Ids(Updated(ts, u)) == Ids(ts)
    ensures UniqueIds(ts) ==> UniqueIds(Updated(ts, u))
    ensures u.id !in Ids(ts) ==> Updated(ts, u) == ts
  {
    var r := Updated(ts, u);
    assert Ids(r) == Ids(ts);
    if u.id !in Ids(ts) {
      forall k | 0 <= k < |ts| ensures r[k] == ts[k] {
        assert Ids(ts)[k] == ts[k].id;
      }
    }
  }

  /** The replacement task keeps the quadrant and position of every task it
      replaces. */
  ghost predicate KeepsPlace(ts: seq<Task>, u: Task) {
    forall t :: t in ts && t.id == u.id ==> t.quadrant == u.quadrant && t.position == u.position
  }

  /** An update that keeps every replaced task's quadrant commutes with
      taking a quadrant's tasks. */
  lemma {:induction false} FilterUpdated(ts: seq<Task>, u: Task, q: QuadrantId)
    requires KeepsPlace(ts, u)
    ensures Filter(Updated(ts, u), InQuadrant(q)) == Updated(Filter(ts, InQuadrant(q)), u)
  {
    if ts != [] {
      var h := if ts[0].id == u.id then u else ts[0];
      var tail := ts[1..];
      assert Updated(ts, u) == [h] + Updated(tail, u);
      assert KeepsPlace(tail, u) by {
        forall t | t in tail ensures t in ts {
        }
      }
      FilterUpdated(tail, u, q);
      if ts[0].quadrant == q {
        var f := [ts[0]] + Filter(tail, InQuadrant(q));
        assert f[0] == ts[0] && f[1..] == Filter(tail, InQuadrant(q));
      }
    }
  }

  /** An update that keeps quadrant and position leaves every quadrant's
      sequence of positions, in stored order, as it was. */
  lemma UpdateInPlaceKeepsPositions(ts: seq<Task>, u: Task, q: QuadrantId)
    requires KeepsPlace(ts, u)
    ensures Positions(Filter(Updated(ts, u), InQuadrant(q))) == Positions(Filter(ts, InQuadrant(q)))
    ensures Ids(Filter(Updated(ts, u), InQuadrant(q))) == Ids(Filter(ts, InQuadrant(q)))
  {
    FilterUpdated(ts, u, q);
    var f := Filter(ts, InQuadrant(q));
    var r := Updated(f, u);
    forall k | 0 <= k < |f| ensures r[k].position == f[k].position && r[k].id == f[k].id {
      assert f[k] in ts;
    }
  }

  // ---------------------------------------------------------------------------
  // deleteTask

  /** `tasks.filter(task => task.id !== taskId)`: no position is renumbered. */
  function Deleted(ts: seq<Task>, taskId: string): (r: seq<Task>)
    ensures forall t :: t in r <==> t in ts && t.id != taskId
    ensures taskId !in Ids(r)
  {
    Filter(ts, NotWithId(taskId))
  }

  /** Deleting removes every occurrence of the id and nothing else, keeps the
      survivors' relative order, and is a no-op for an absent id. */
  lemma DeleteRemovesExactly(ts: seq<Task>, taskId: string)
    ensures |Deleted(ts, taskId)| == |ts| - multiset(Ids(ts))[taskId]
    ensures UniqueIds(ts) ==> UniqueIds(Deleted(ts, taskId))
    ensures taskId !in Ids(ts) ==> Deleted(ts, taskId) == ts
    ensures forall a, b :: ts == a + b ==> Deleted(ts, taskId) == Deleted(a, taskId) + Deleted(b, taskId)
  {
    FilterIdCount(ts, taskId);
    if taskId !in Ids(ts) {
      FilterKeepsAll(ts, NotWithId(taskId));
    }
    forall a, b | ts == a + b ensures Deleted(ts, taskId) == Deleted(a, taskId) + Deleted(b, taskId) {
      FilterAppend(a, b, NotWithId(taskId));
    }
  }

  // ---------------------------------------------------------------------------
  // reorderTasks

  /** The two `splice` calls: take the element at `from` out and insert it at
      `to` of the shortened list. */
  function MoveElement(s: seq<Task>, from: nat, to: nat): (r: seq<Task>)
    requires from < |s| && to < |s|
    ensures |r| == |s| && r[to] == s[from]
    ensures r[..to] + r[to + 1..] == s[..from] + s[from + 1..]
  {
    var rest := s[..from] + s[from + 1..];
    assert (rest[..to] + [s[from]] + rest[to..])[to + 1..] == rest[to..];
    rest[..to] + [s[from]] + rest[to..]
  }

  lemma IdsAround(a: seq<Task>, x: Task, b: seq<Task>)
    ensures multiset(Ids(a + [x] + b)) == multiset(Ids(a + b)) + multiset{x.id}
  {
    IdsAppend(a + [x], b);
    IdsAppend(a, [x]);
    IdsAppend(a, b);
  }

  /** Moving an element keeps the multiset of ids. */
  lemma MoveElementPermutes(s: seq<Task>, from: nat, to: nat)
    requires from < |s| && to < |s|
    ensures multiset(Ids(MoveElement(s, from, to))) == multiset(Ids(s))
  {
    var rest := s[..from] + s[from + 1..];
    assert s == s[..from] + [s[from]] + s[from + 1..];
    IdsAround(s[..from], s[from], s[from + 1..]);
    assert rest == rest[..to] + rest[to..];
    IdsAround(rest[..to], s[from], rest[to..]);
  }

  /** Moving an element keeps the multiset of tasks. */
  lemma MoveElementKeepsTasks(s: seq<Task>, from: nat, to: nat)
    requires from < |s| && to < |s|
    ensures multiset(MoveElement(s, from, to)) == multiset(s)
  {
    var rest := s[..from] + s[from + 1..];
    assert s == s[..from] + [s[from]] + s[from + 1..];
    assert multiset(s) == multiset(rest) + multiset{s[from]};
    assert rest == rest[..to] + rest[to..];
    assert MoveElement(s, from, to) == rest[..to] + [s[from]] + rest[to..];
    assert multiset(MoveElement(s, from, to)) == multiset(rest) + multiset{s[from]};
  }

  /** Moving an element onto its own index changes nothing. */
  lemma MoveElementInPlace(s: seq<Task>, i: nat)
    requires i < |s|
    ensures MoveElement(s, i, i) == s
  {
    var rest := s[..i] + s[i + 1..];
    assert rest[..i] == s[..i];
    assert rest[i..] == s[i + 1..];
  }

  /** The `forEach` that assigns `position = index`. */
  function Renumbered(s: seq<Task>): (r: seq<Task>)
    ensures |r| == |s| && PositionsAreIndices(r)
    ensures Ids(r) == Ids(s)
    ensures forall k :: 0 <= k < |s| ==> r[k] == s[k].(position := k)
  {
    seq(|s|, k requires 0 <= k < |s| => s[k].(position := k))
  }

  /** The list after `reorderTasks(q, from, to)`: the other quadrants' tasks in
      their order, followed by q's tasks taken in stored order, with the one at
      `from` moved to `to`, renumbered 0..k-1. */
  function Reordered(ts: seq<Task>, q: QuadrantId, from: nat, to: nat): (r: seq<Task>)
    requires from < |Filter(ts, InQuadrant(q))| && to < |Filter(ts, InQuadrant(q))|
    ensures |r| == |ts|
  {
    QuadrantSplit(ts, q);
    Filter(ts, NotInQuadrant(q)) + Renumbered(MoveElement(Filter(ts, InQuadrant(q)), from, to))
  }

  /** Where `splice(endIndex, 0, removed)` inserts into a list of length `n`:
      an index past the end inserts at the end. */
  function SpliceStart(endIndex: nat, n: nat): (r: nat)
    ensures r <= n
    ensures endIndex <= n ==> r == endIndex
    ensures n < endIndex ==> r == n
  {
    if endIndex <= n then endIndex else n
  }

  /** Where `reorderTasks` puts the moved task in a quadrant of `count` tasks:
      the removal leaves `count - 1`, and the insertion follows `SpliceStart`. */
  function TargetIndex(endIndex: nat, count: nat): (r: nat)
    requires count > 0
    ensures r < count
    ensures endIndex < count ==> r == endIndex
    ensures count <= endIndex ==> r == count - 1
  {
    SpliceStart(endIndex, count - 1)
  }

  /** After a reorder, quadrant q's stored list is its old stored list with the
      element at `from` moved to `to`, and its positions are 0..k-1 in that
      order. */
  lemma ReorderRenumbersQuadrant(ts: seq<Task>, q: QuadrantId, from: nat, to: nat)
    requires from < |Filter(ts, InQuadrant(q))| && to < |Filter(ts, InQuadrant(q))|
    ensures Filter(Reordered(ts, q, from, to), InQuadrant(q)) == Renumbered(MoveElement(Filter(ts, InQuadrant(q)), from, to))
    ensures PositionsAreIndices(Filter(Reordered(ts, q, from, to), InQuadrant(q)))
    ensures Contiguous(Filter(Reordered(ts, q, from, to), InQuadrant(q)))
  {
    var inside := Filter(ts, InQuadrant(q));
    var outside := Filter(ts, NotInQuadrant(q));
    var moved := Renumbered(MoveElement(inside, from, to));
    FilterAppend(outside, moved, InQuadrant(q));
    FilterKept(ts, NotInQuadrant(q));
    FilterKeepsNone(outside, InQuadrant(q));
    FilterKept(ts, InQuadrant(q));
    MoveElementQuadrant(inside, from, to, q);
    FilterKeepsAll(moved, InQuadrant(q));
    IndicesAreContiguous(moved);
  }

  /** Every element of the moved list still belongs to the quadrant. */
  lemma MoveElementQuadrant(s: seq<Task>, from: nat, to: nat, q: QuadrantId)
    requires from < |s| && to < |s|
    requires forall k :: 0 <= k < |s| ==> s[k].quadrant == q
    ensures forall k :: 0 <= k < |s| ==> MoveElement(s, from, to)[k].quadrant == q
  {
    var r := MoveElement(s, from, to);
    forall k | 0 <= k < |s| ensures r[k].quadrant == q {
      if k < to {
        assert r[k] == (r[..to] + r[to + 1..])[k];
      } else if k > to {
        assert r[k] == (r[..to] + r[to + 1..])[k - 1];
      }
    }
  }

  /** A reorder leaves every other quadrant's tasks, their order and their
      positions as they were. */
  lemma ReorderKeepsOtherQuadrants(ts: seq<Task>, q: QuadrantId, from: nat, to: nat, q': QuadrantId)
    requires from < |Filter(ts, InQuadrant(q))| && to < |Filter(ts, InQuadrant(q))|
    requires q' != q
    ensures Filter(Reordered(ts, q, from, to), InQuadrant(q')) == Filter(ts, InQuadrant(q'))
  {
    var outside := Filter(ts, NotInQuadrant(q));
    var moved := Renumbered(MoveElement(Filter(ts, InQuadrant(q)), from, to));
    FilterAppend(outside, moved, InQuadrant(q'));
    FilterKept(ts, InQuadrant(q));
    MoveElementQuadrant(Filter(ts, InQuadrant(q)), from, to, q);
    FilterKeepsNone(moved, InQuadrant(q'));
    FilterOutsideThenInside(ts, q, q');
  }

  /** A reorder loses no task and duplicates none: length and ids are kept. */
  lemma ReorderPermutesIds(ts: seq<Task>, q: QuadrantId, from: nat, to: nat)
    requires from < |Filter(ts, InQuadrant(q))| && to < |Filter(ts, InQuadrant(q))|
    ensures |Reordered(ts, q, from, to)| == |ts|
    ensures Reordered(ts, q, from, to)[..|Filter(ts, NotInQuadrant(q))|] == Filter(ts, NotInQuadrant(q))
    ensures multiset(Ids(Reordered(ts, q, from, to))) == multiset(Ids(ts))
    ensures UniqueIds(ts) ==> UniqueIds(Reordered(ts, q, from, to))
  {
    var inside := Filter(ts, InQuadrant(q));
    var outside := Filter(ts, NotInQuadrant(q));
    var moved := Renumbered(MoveElement(inside, from, to));
    assert multiset(Ids(Reordered(ts, q, from, to))) == multiset(Ids(ts)) by {
      QuadrantSplit(ts, q);
      MoveElementPermutes(inside, from, to);
      IdsAppend(outside, moved);
    }
    SameIdsSameUniqueness(Reordered(ts, q, from, to), ts);
  }

  /** `reorderTasks(q, i, i)` keeps the quadrant's stored order and only
      renumbers it; when its positions already were its indices, the quadrant's
      tasks come out unchanged (though now after all other tasks). */
  lemma ReorderSameIndex(ts: seq<Task>, q: QuadrantId, i: nat)
    requires i < |Filter(ts, InQuadrant(q))|
    ensures Filter(Reordered(ts, q, i, i), InQuadrant(q)) == Renumbered(Filter(ts, InQuadrant(q)))
    ensures PositionsAreIndices(Filter(ts, InQuadrant(q))) ==>
              Filter(Reordered(ts, q, i, i), InQuadrant(q)) == Filter(ts, InQuadrant(q))
  {
    ReorderRenumbersQuadrant(ts, q, i, i);
    MoveElementInPlace(Filter(ts, InQuadrant(q)), i);
  }

  // ---------------------------------------------------------------------------
  // moveTask

  /** One step of the `forEach` over the destination's tasks: only the
      position can change, by one, and it changes exactly for a task of the
      destination at or after the index. */
  function Bump(t: Task, dst: QuadrantId, index: nat): (r: Task)
    ensures r == t.(position := r.position)
    ensures r.position == t.position || r.position == t.position + 1
    ensures r.position != t.position <==> t.quadrant == dst && t.position >= index
  {
    if t.quadrant == dst && t.position >= index then t.(position := t.position + 1) else t
  }

  /** The `forEach` over the destination's tasks, applied to the list that
      shares those task objects. */
  function Bumped(s: seq<Task>, dst: QuadrantId, index: nat): (r: seq<Task>)
    ensures |r| == |s|
    ensures forall k :: 0 <= k < |s| ==> r[k] == Bump(s[k], dst, index)
  {
    if s == [] then [] else [Bump(s[0], dst, index)] + Bumped(s[1..], dst, index)
  }

  /** The moved task: its quadrant and position are overwritten, and when it
      already was in the destination the `forEach` reaches it as well. */
  function Landed(t: Task, dst: QuadrantId, index: nat): (r: Task)
    ensures t.quadrant != dst ==> r == t.(quadrant := dst, position := index)
    ensures t.quadrant == dst ==> r == Bump(t.(position := index), dst, index)
  {
    t.(quadrant := dst, position := if t.quadrant == dst then index + 1 else index)
  }

  /** The list after `moveTask(taskId, _, dst, index)`. */
  function Moved(ts: seq<Task>, taskId: string, dst: QuadrantId, index: nat): (r: seq<Task>)
    ensures taskId !in Ids(ts) ==> r == ts
    ensures taskId in Ids(ts) ==> |r| > 0 && r[|r| - 1].id == taskId && r[|r| - 1].quadrant == dst
  {
    match FindIndex(ts, taskId)
    case None => ts
    case Some(i) => Bumped(Deleted(ts, taskId), dst, index) + [Landed(ts[i], dst, index)]
  }

  /** The moved task lands last, in the destination, with position `index`
      when it came from another quadrant and `index + 1` when it was already in
      the destination (the loop bumps it too); its other fields are kept. */
  lemma MoveLandsLast(ts: seq<Task>, taskId: string, dst: QuadrantId, index: nat, i: nat)
    requires i < |ts| && ts[i].id == taskId
    requires UniqueIds(ts)
    ensures |Moved(ts, taskId, dst, index)| == |ts|
    ensures Moved(ts, taskId, dst, index)[|ts| - 1]
         == ts[i].(quadrant := dst, position := if ts[i].quadrant == dst then index + 1 else index)
  {
    var f := FindIndex(ts, taskId);
    assert taskId in Ids(ts) by { assert Ids(ts)[i] == taskId; }
    UniqueIdsApart(ts, f.value, i);
    FilterIdCount(ts, taskId);
    assert multiset(Ids(ts))[taskId] == 1 by {
      assert Ids(ts)[i] == taskId;
      assert taskId in multiset(Ids(ts));
    }
  }

  /** With unique ids, the tasks of the destination quadrant do not include the
      moved task when it comes from another quadrant. */
  lemma DestinationKeepsItsTasks(ts: seq<Task>, taskId: string, dst: QuadrantId, i: nat)
    requires i < |ts| && ts[i].id == taskId && ts[i].quadrant != dst
    requires UniqueIds(ts)
    ensures Filter(Deleted(ts, taskId), InQuadrant(dst)) == Filter(ts, InQuadrant(dst))
  {
    var d := Filter(ts, InQuadrant(dst));
    FilterCommute(ts, NotWithId(taskId), InQuadrant(dst));
    forall k | 0 <= k < |d| ensures Keeps(NotWithId(taskId), d[k]) {
      assert d[k] in ts;
      var m :| 0 <= m < |ts| && ts[m] == d[k];
      UniqueIdsApart(ts, m, i);
    }
    FilterKeepsAll(d, NotWithId(taskId));
  }

  /** Filtering by quadrant commutes with the bump, which changes no quadrant. */
  lemma {:induction false} FilterBumped(s: seq<Task>, dst: QuadrantId, index: nat, q: QuadrantId)
    ensures Filter(Bumped(s, dst, index), InQuadrant(q)) == Bumped(Filter(s, InQuadrant(q)), dst, index)
  {
    if s != [] {
      FilterBumped(s[1..], dst, index, q);
      var b := Bumped(s, dst, index);
      assert b[0] == Bump(s[0], dst, index) && b[1..] == Bumped(s[1..], dst, index);
      if s[0].quadrant == q {
        var f := Filter(s, InQuadrant(q));
        assert f == [s[0]] + Filter(s[1..], InQuadrant(q));
        assert f[1..] == Filter(s[1..], InQuadrant(q));
      }
    }
  }

  /** After a move from another quadrant, the destination's stored list is its
      old list with every task at or after `index` bumped by one, followed by
      the moved task at position `index`. */
  lemma MoveIntoDestination(ts: seq<Task>, taskId: string, dst: QuadrantId, index: nat, i: nat)
    requires i < |ts| && ts[i].id == taskId && ts[i].quadrant != dst
    requires UniqueIds(ts)
    ensures Filter(Moved(ts, taskId, dst, index), InQuadrant(dst))
         == Bumped(Filter(ts, InQuadrant(dst)), dst, index) + [ts[i].(quadrant := dst, position := index)]
  {
    MoveLandsLast(ts, taskId, dst, index, i);
    var f := FindIndex(ts, taskId);
    assert taskId in Ids(ts) by { assert Ids(ts)[i] == taskId; }
    UniqueIdsApart(ts, f.value, i);
    var rest := Deleted(ts, taskId);
    var landed := Landed(ts[i], dst, index);
    FilterAppend(Bumped(rest, dst, index), [landed], InQuadrant(dst));
    assert Filter([landed], InQuadrant(dst)) == [landed];
    FilterBumped(rest, dst, index, dst);
    DestinationKeepsItsTasks(ts, taskId, dst, i);
  }

  /** After a move, every quadrant other than the destination, the source
      included, has lost the moved task and nothing else: no position in it is
      changed, so the source is left with a gap. */
  lemma MoveKeepsOtherQuadrants(ts: seq<Task>, taskId: string, dst: QuadrantId, index: nat, q: QuadrantId)
    requires q != dst
    ensures Filter(Moved(ts, taskId, dst, index), InQuadrant(q)) == Deleted(Filter(ts, InQuadrant(q)), taskId)
  {
    var f := FindIndex(ts, taskId);
    if f.None? {
      FilterKeepsAbsentId(ts, InQuadrant(q), taskId);
      DeleteRemovesExactly(Filter(ts, InQuadrant(q)), taskId);
    } else {
      var rest := Deleted(ts, taskId);
      var landed := Landed(ts[f.value], dst, index);
      FilterAppend(Bumped(rest, dst, index), [landed], InQuadrant(q));
      assert Filter([landed], InQuadrant(q)) == [];
      FilterBumped(rest, dst, index, q);
      var inQ := Filter(rest, InQuadrant(q));
      assert Bumped(inQ, dst, index) == inQ;
      FilterCommute(ts, NotWithId(taskId), InQuadrant(q));
    }
  }

  /** Bumping the positions at or after `index` and appending a task at
      `index` keeps a contiguous list contiguous, as long as `index` is at most
      the list's length. */
  lemma BumpAndAppendContiguous(d: seq<Task>, dst: QuadrantId, index: nat, m: Task)
    requires forall k :: 0 <= k < |d| ==> d[k].quadrant == dst
    requires Contiguous(d) && index <= |d| && m.position == index
    ensures Contiguous(Bumped(d, dst, index) + [m])
  {
    var b := Bumped(d, dst, index);
    var l := b + [m];
    forall k | 0 <= k < |l| ensures l[k].position < |l| {
      if k < |d| { assert l[k] == Bump(d[k], dst, index); }
    }
    forall i, j | 0 <= i < j < |l| ensures l[i].position != l[j].position {
      assert l[i] == Bump(d[i], dst, index);
      if j < |d| {
        assert l[j] == Bump(d[j], dst, index);
      }
    }
  }

  /** I1 for the destination: a move from another quadrant to an index within
      the destination's length keeps the destination's positions contiguous. */
  lemma MoveKeepsDestinationContiguous(ts: seq<Task>, taskId: string, dst: QuadrantId, index: nat, i: nat)
    requires i < |ts| && ts[i].id == taskId && ts[i].quadrant != dst
    requires UniqueIds(ts)
    requires Contiguous(Filter(ts, InQuadrant(dst)))
    requires index <= |Filter(ts, InQuadrant(dst))|
    ensures Contiguous(Filter(Moved(ts, taskId, dst, index), InQuadrant(dst)))
  {
    var d := Filter(ts, InQuadrant(dst));
    var m := ts[i].(quadrant := dst, position := index);
    assert Filter(Moved(ts, taskId, dst, index), InQuadrant(dst)) == Bumped(d, dst, index) + [m] by {
      MoveIntoDestination(ts, taskId, dst, index, i);
    }
    assert Contiguous(Bumped(d, dst, index) + [m]) by {
      FilterKept(ts, InQuadrant(dst));
      BumpAndAppendContiguous(d, dst, index, m);
    }
  }

  /** Because the moved task is appended whatever its position, the
      destination's stored order still agrees with its positions after the move
      exactly when the task was dropped at the end of the destination. */
  lemma MoveKeepsStoredOrderIffDroppedLast(ts: seq<Task>, taskId: string, dst: QuadrantId, index: nat, i: nat)
    requires i < |ts| && ts[i].id == taskId && ts[i].quadrant != dst
    requires UniqueIds(ts)
    requires PositionsAreIndices(Filter(ts, InQuadrant(dst)))
    ensures PositionsAreIndices(Filter(Moved(ts, taskId, dst, index), InQuadrant(dst)))
        <==> index == |Filter(ts, InQuadrant(dst))|
  {
    var d := Filter(ts, InQuadrant(dst));
    MoveIntoDestination(ts, taskId, dst, index, i);
    var l := Bumped(d, dst, index) + [ts[i].(quadrant := dst, position := index)];
    assert l[|d|].position == index;
    if index == |d| {
      forall k | 0 <= k < |l| ensures l[k].position == k {
        if k < |d| { assert l[k] == Bump(d[k], dst, index); }
      }
    }
  }

  /** With unique ids, a present id occurs exactly once. */
  lemma PresentIdOccursOnce(ts: seq<Task>, i: nat)
    requires UniqueIds(ts) && i < |ts|
    ensures multiset(Ids(ts))[ts[i].id] == 1
  {
    assert Ids(ts)[i] == ts[i].id;
    assert ts[i].id in multiset(Ids(ts));
  }

  /** Bumping changes no id, and the landed task adds its own. */
  lemma BumpedThenLandedIds(s: seq<Task>, dst: QuadrantId, index: nat, landed: Task)
    ensures multiset(Ids(Bumped(s, dst, index) + [landed])) == multiset(Ids(s)) + multiset{landed.id}
  {
    var b := Bumped(s, dst, index);
    assert Ids(b) == Ids(s);
    IdsAppend(b, [landed]);
    assert Ids([landed]) == [landed.id];
  }

  /** The move keeps the ids unique, and with unique ids it keeps the length. */
  lemma MoveKeepsUniqueIds(ts: seq<Task>, taskId: string, dst: QuadrantId, index: nat)
    requires UniqueIds(ts)
    ensures UniqueIds(Moved(ts, taskId, dst, index))
    ensures |Moved(ts, taskId, dst, index)| == |ts|
    ensures multiset(Ids(Moved(ts, taskId, dst, index))) == multiset(Ids(ts))
  {
    var f := FindIndex(ts, taskId);
    if f.Some? {
      var rest := Deleted(ts, taskId);
      var landed := Landed(ts[f.value], dst, index);
      var r := Bumped(rest, dst, index) + [landed];
      assert Moved(ts, taskId, dst, index) == r;
      PresentIdOccursOnce(ts, f.value);
      FilterSingleId(ts, taskId);
      BumpedThenLandedIds(rest, dst, index, landed);
    }
    SameIdsSameUniqueness(Moved(ts, taskId, dst, index), ts);
  }

  // ---------------------------------------------------------------------------
  // The two `splice` calls

  /** `const [removed] = quadrantTasks.splice(startIndex, 1);
      quadrantTasks.splice(endIndex, 0, removed);` on a copy of the list. */
  method SpliceMove(quadrantTasks: seq<Task>, startIndex: nat, endIndex: nat) returns (spliced: seq<Task>)
    requires startIndex < |quadrantTasks|
    ensures spliced == MoveElement(quadrantTasks, startIndex, TargetIndex(endIndex, |quadrantTasks|))
  {
    var removed := quadrantTasks[startIndex];
    spliced := quadrantTasks[..startIndex] + quadrantTasks[startIndex + 1..];
    var at := SpliceStart(endIndex, |spliced|);
    spliced := spliced[..at] + [removed] + spliced[at..];
  }

  // ---------------------------------------------------------------------------
  // The two `forEach` loops

  /** `quadrantTasks.forEach((task, index) => { task.position = index; })`. */
  method AssignPositions(quadrantTasks: seq<Task>) returns (numbered: seq<Task>)
    ensures numbered == Renumbered(quadrantTasks)
  {
    numbered := quadrantTasks;
    var index := 0;
    while index < |numbered|
      invariant index <= |numbered| == |quadrantTasks|
      invariant forall k :: 0 <= k < index ==> numbered[k] == quadrantTasks[k].(position := k)
      invariant forall k :: index <= k < |numbered| ==> numbered[k] == quadrantTasks[k]
    {
      numbered := numbered[index := numbered[index].(position := index)];
      index := index + 1;
    }
  }

  /** `destinationTasks.forEach(task => { if (task.position >= index) task.position += 1; })`,
      applied to the list that shares the destination's task objects. */
  method BumpPositions(tasks: seq<Task>, destinationQuadrant: QuadrantId, destinationIndex: nat)
    returns (bumped: seq<Task>)
    ensures bumped == Bumped(tasks, destinationQuadrant, destinationIndex)
  {
    bumped := tasks;
    var k := 0;
    while k < |bumped|
      invariant k <= |bumped| == |tasks|
      invariant forall j :: 0 <= j < k ==> bumped[j] == Bump(tasks[j], destinationQuadrant, destinationIndex)
      invariant forall j :: k <= j < |bumped| ==> bumped[j] == tasks[j]
    {
      var task := bumped[k];
      if task.quadrant == destinationQuadrant && task.position >= destinationIndex {
        bumped := bumped[k := task.(position := task.position + 1)];
      }
      k := k + 1;
    }
  }

  // ---------------------------------------------------------------------------
  // The store

  /** The provider's state: the one list of tasks, which is also the value it
      writes to local storage after every change. */
  class TaskProvider {
    var tasks: seq<Task>

    /** Ids are unique: every id comes from a fresh identifier. */
    ghost predicate Valid()
      reads this
    {
      UniqueIds(tasks)
    }

    /** Starts from the saved list, or from the empty list when nothing was saved. */
    constructor (saved: Option<seq<Task>>)
      requires saved.Some? ==> UniqueIds(saved.value)
      ensures Valid()
      ensures tasks == if saved.Some? then saved.value else []
    {
      tasks := if saved.Some? then saved.value else [];
    }

    method AddTask(task: TaskDraft, newId: string)
      requires Valid() && newId !in Ids(tasks)
      modifies this
      ensures Valid()
      ensures tasks == Added(old(tasks), task, newId)
    {
      var quadrantTasks := Filter(tasks, InQuadrant(task.quadrant));
      var newTask := WithIdentity(task, newId, |quadrantTasks|);
      AddKeepsUniqueIds(tasks, task, newId);
      tasks := tasks + [newTask];
    }

    method UpdateTask(updatedTask: Task)
      requires Valid()
      modifies this
      ensures Valid()
      ensures tasks == Updated(old(tasks), updatedTask)
    {
      UpdateKeepsIds(tasks, updatedTask);
      tasks := Updated(tasks, updatedTask);
    }

    method DeleteTask(taskId: string)
      requires Valid()
      modifies this
      ensures Valid()
      ensures tasks == Deleted(old(tasks), taskId)
    {
      DeleteRemovesExactly(tasks, taskId);
      tasks := Filter(tasks, NotWithId(taskId));
    }

    /** Splices the quadrant's stored list and renumbers it. */
    method ReorderTasks(quadrant: QuadrantId, startIndex: nat, endIndex: nat)
      requires Valid()
      requires startIndex < |Filter(tasks, InQuadrant(quadrant))|
      modifies this
      ensures Valid()
      ensures tasks == Reordered(old(tasks), quadrant, startIndex,
                                 TargetIndex(endIndex, |Filter(old(tasks), InQuadrant(quadrant))|))
    {
      var quadrantTasks := Filter(tasks, InQuadrant(quadrant));
      ghost var to := TargetIndex(endIndex, |quadrantTasks|);
      quadrantTasks := SpliceMove(quadrantTasks, startIndex, endIndex);

      var updatedTasks := Filter(tasks, NotInQuadrant(quadrant));
      quadrantTasks := AssignPositions(quadrantTasks);
      ReorderPermutesIds(tasks, quadrant, startIndex, to);
      assert updatedTasks + quadrantTasks == Reordered(tasks, quadrant, startIndex, to);
      tasks := updatedTasks + quadrantTasks;
    }

    /** Removes the task, bumps the destination's positions at or after the
      index, and appends the task with its new quadrant and position.
      `sourceQuadrant` is not read. */
    method MoveTask(taskId: string, sourceQuadrant: QuadrantId, destinationQuadrant: QuadrantId, destinationIndex: nat)
      requires Valid()
      modifies this
      ensures Valid()
      ensures tasks == Moved(old(tasks), taskId, destinationQuadrant, destinationIndex)
    {
      var found := FindIndex(tasks, taskId);
      if found.None? {
        return;
      }
      var taskToMove := tasks[found.value];
      ghost var landed := Landed(taskToMove, destinationQuadrant, destinationIndex);
      var updatedTasks := Filter(tasks, NotWithId(taskId));
      // The destination's tasks are picked before the quadrant is overwritten,
      // so the moved task is among them exactly when it already was there.
      var wasInDestination := taskToMove.quadrant == destinationQuadrant;
      taskToMove := taskToMove.(quadrant := destinationQuadrant, position := destinationIndex);

      // The destination's task objects are shared with `updatedTasks`: bumping
      // them is bumping the matching entries of `updatedTasks`.
      updatedTasks := BumpPositions(updatedTasks, destinationQuadrant, destinationIndex);
      if wasInDestination {
        taskToMove := taskToMove.(position := taskToMove.position + 1);
      }
      assert taskToMove == landed;
      assert updatedTasks + [taskToMove] == Moved(tasks, taskId, destinationQuadrant, destinationIndex);
      MoveKeepsUniqueIds(tasks, taskId, destinationQuadrant, destinationIndex);
      tasks := updatedTasks + [taskToMove];
    }
  }
}
