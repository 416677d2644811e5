/** The display of one quadrant: its tasks sorted with incomplete tasks first,
    then by ascending position, each shown at its index in that sorted order. */
module QuadrantView {
  import opened Types
  import opened TaskLists

  /** The comparator of the display sort: negative when `a` is shown before
      `b`, positive when after, zero when the sort keeps their input order. */
  function Compare(a: Task, b: Task): (r: int)
    ensures r < 0 <==> (!a.isCompleted && b.isCompleted) || (a.isCompleted == b.isCompleted && a.position < b.position)
    ensures r == 0 <==> a.isCompleted == b.isCompleted && a.position == b.position
    ensures r > 0 <==> (a.isCompleted && !b.isCompleted) || (a.isCompleted == b.isCompleted && a.position > b.position)
  {
    if a.isCompleted && !b.isCompleted then 1
    else if !a.isCompleted && b.isCompleted then -1
    else a.position - b.position
  }

  /** The sort key the comparator orders by: completion first, then position. */
  function Rank(t: Task): int {
    if t.isCompleted then 1 else 0
  }

  /** The comparator is a total preorder: its sign flips with its arguments,
      it orders lexicographically by (completion, position), and "not after"
      is transitive. */
  lemma CompareIsTotalPreorder(a: Task, b: Task, c: Task)
    ensures Compare(a, b) == -Compare(b, a)
    ensures Compare(a, b) <= 0 <==> Rank(a) < Rank(b) || (Rank(a) == Rank(b) && a.position <= b.position)
    ensures Compare(a, b) == 0 <==> Rank(a) == Rank(b) && a.position == b.position
    ensures Compare(a, b) <= 0 && Compare(b, c) <= 0 ==> Compare(a, c) <= 0
  {
  }

  /** No task is shown after a later one. */
  predicate DisplayOrdered(s: seq<Task>) {
    forall i, j :: 0 <= i < j < |s| ==> Compare(s[i], s[j]) <= 0
  }

  /** Puts `t` before the first task it does not come after: a task equal to
      `t` under the comparator stays behind it. */
  function Insert(t: Task, s: seq<Task>): (r: seq<Task>)
    ensures |r| == |s| + 1
  {
    if s == [] then [t]
    else if Compare(t, s[0]) <= 0 then [t] + s
    else [s[0]] + Insert(t, s[1..])
  }

  /** Inserting adds the task and loses none. */
  lemma {:induction false} InsertAddsTask(t: Task, s: seq<Task>)
    ensures multiset(Insert(t, s)) == multiset(s) + multiset{t}
  {
    if s != [] && Compare(t, s[0]) > 0 {
      InsertAddsTask(t, s[1..]);
      assert s == [s[0]] + s[1..];
    }
  }

  /** The tail of a list in display order is in display order. */
  lemma OrderedTail(s: seq<Task>)
    requires s != [] && DisplayOrdered(s)
    ensures DisplayOrdered(s[1..])
  {
    var tail := s[1..];
    forall i, j | 0 <= i < j < |tail| ensures Compare(tail[i], tail[j]) <= 0 {
      assert tail[i] == s[i + 1] && tail[j] == s[j + 1];
    }
  }

  /** A task not after any task of a list in display order can head it. */
  lemma OrderedCons(h: Task, s: seq<Task>)
    requires DisplayOrdered(s)
    requires forall k :: 0 <= k < |s| ==> Compare(h, s[k]) <= 0
    ensures DisplayOrdered([h] + s)
  {
    var r := [h] + s;
    forall i, j | 0 <= i < j < |r| ensures Compare(r[i], r[j]) <= 0 {
      assert r[j] == s[j - 1];
      if i > 0 {
        assert r[i] == s[i - 1];
      }
    }
  }

  /** Inserting into a list in display order keeps it in display order. */
  lemma {:induction false} InsertKeepsOrder(t: Task, s: seq<Task>)
    requires DisplayOrdered(s)
    ensures DisplayOrdered(Insert(t, s))
  {
    if s == [] {
    } else if Compare(t, s[0]) <= 0 {
      forall k | 0 <= k < |s| ensures Compare(t, s[k]) <= 0 {
        CompareIsTotalPreorder(t, s[0], s[k]);
      }
      OrderedCons(t, s);
    } else {
      var tail := s[1..];
      OrderedTail(s);
      InsertKeepsOrder(t, tail);
      var rest := Insert(t, tail);
      InsertAddsTask(t, tail);
      forall k | 0 <= k < |rest| ensures Compare(s[0], rest[k]) <= 0 {
        assert rest[k] in multiset(rest);
        CompareIsTotalPreorder(t, s[0], s[0]);
        if rest[k] != t {
          assert rest[k] in tail;
        }
      }
      OrderedCons(s[0], rest);
    }
  }

  /** Sorting a list is inserting its head into its sorted tail. */
  lemma SortedCons(t: Task, s: seq<Task>)
    ensures SortedTasks([t] + s) == Insert(t, SortedTasks(s))
  {
    assert ([t] + s)[1..] == s;
  }

  /** `[...tasks].sort(compare)`: a stable sort of a copy, written as an
      insertion sort that inserts each task in front of the tasks after it. */
  function SortedTasks(ts: seq<Task>): (r: seq<Task>)
    ensures |r| == |ts|
  {
    if ts == [] then [] else Insert(ts[0], SortedTasks(ts[1..]))
  }

  /** The sort returns a permutation of its input, in display order. */
  lemma {:induction false} SortedIsOrderedPermutation(ts: seq<Task>)
    ensures multiset(SortedTasks(ts)) == multiset(ts)
    ensures DisplayOrdered(SortedTasks(ts))
  {
    if ts != [] {
      var rest := SortedTasks(ts[1..]);
      SortedIsOrderedPermutation(ts[1..]);
      assert multiset(SortedTasks(ts)) == multiset(ts) by {
        InsertAddsTask(ts[0], rest);
        assert ts == [ts[0]] + ts[1..];
      }
      assert DisplayOrdered(SortedTasks(ts)) by {
        InsertKeepsOrder(ts[0], rest);
      }
    }
  }

  /** The display order in the source's words: incomplete tasks before
      completed ones, and among tasks of one status ascending positions. */
  lemma SortedDisplayOrder(ts: seq<Task>)
    ensures var r := SortedTasks(ts);
            && (forall i, j :: 0 <= i < j < |r| && r[i].isCompleted ==> r[j].isCompleted)
            && (forall i, j :: 0 <= i < j < |r| && r[i].isCompleted == r[j].isCompleted ==> r[i].position <= r[j].position)
  {
    var r := SortedTasks(ts);
    SortedIsOrderedPermutation(ts);
    forall i, j | 0 <= i < j < |r| ensures (r[i].isCompleted ==> r[j].isCompleted)
      && (r[i].isCompleted == r[j].isCompleted ==> r[i].position <= r[j].position)
    {
      CompareIsTotalPreorder(r[i], r[j], r[j]);
    }
  }

  /** A list already in display order is shown as it is: the sort is stable
      and moves nothing it need not move. */
  lemma {:induction false} SortedOfOrderedIsIdentity(s: seq<Task>)
    requires DisplayOrdered(s)
    ensures SortedTasks(s) == s
  {
    if s != [] {
      OrderedTail(s);
      SortedOfOrderedIsIdentity(s[1..]);
      if |s| > 1 {
        assert Compare(s[0], s[1]) <= 0;
        assert s == [s[0]] + s[1..];
      }
    }
  }

  /** The tasks of `s` that the comparator cannot tell apart from a task with
      completion `c` and position `p`, in their order in `s`. */
  function SameKey(s: seq<Task>, c: bool, p: nat): seq<Task> {
    if s == [] then []
    else (if s[0].isCompleted == c && s[0].position == p then [s[0]] else []) + SameKey(s[1..], c, p)
  }

  /** The tasks of one key in a list headed by `h` are `h`, if it has that
      key, followed by those of the rest. */
  lemma SameKeyCons(h: Task, s: seq<Task>, c: bool, p: nat)
    ensures SameKey([h] + s, c, p)
         == (if h.isCompleted == c && h.position == p then [h] else []) + SameKey(s, c, p)
  {
    assert ([h] + s)[1..] == s;
  }

  /** Inserting `t` puts it in front of every task with its key: among the
      tasks of any one key, `t` joins at the front. */
  lemma {:induction false} InsertSameKey(t: Task, s: seq<Task>, c: bool, p: nat)
    ensures SameKey(Insert(t, s), c, p)
         == (if t.isCompleted == c && t.position == p then [t] else []) + SameKey(s, c, p)
  {
    if s == [] {
      SameKeyCons(t, s, c, p);
    } else if Compare(t, s[0]) <= 0 {
      SameKeyCons(t, s, c, p);
    } else {
      var kt := if t.isCompleted == c && t.position == p then [t] else [];
      var kh := if s[0].isCompleted == c && s[0].position == p then [s[0]] else [];
      var rest := SameKey(s[1..], c, p);
      assert Insert(t, s) == [s[0]] + Insert(t, s[1..]);
      InsertSameKey(t, s[1..], c, p);
      SameKeyCons(s[0], Insert(t, s[1..]), c, p);
      assert SameKey(Insert(t, s), c, p) == kh + (kt + rest);
      if kh == [] {
        assert kh + rest == rest;
        assert kh + (kt + rest) == kt + rest;
      } else {
        assert kt == [];
        assert kt + rest == rest;
        assert kt + (kh + rest) == kh + rest;
      }
      SameKeyCons(s[0], s[1..], c, p);
      assert s == [s[0]] + s[1..];
    }
  }

  /** The sort is stable: the tasks the comparator ranks equal (same
      completion and position) keep their input order. */
  lemma {:induction false} SortedIsStable(ts: seq<Task>, c: bool, p: nat)
    ensures SameKey(SortedTasks(ts), c, p) == SameKey(ts, c, p)
  {
    if ts != [] {
      SortedIsStable(ts[1..], c, p);
      InsertSameKey(ts[0], SortedTasks(ts[1..]), c, p);
      SameKeyCons(ts[0], ts[1..], c, p);
      assert ts == [ts[0]] + ts[1..];
    }
  }

  /** Every task of the list has the same completion status. */
  predicate UniformCompletion(s: seq<Task>) {
    forall i, j :: 0 <= i < j < |s| ==> s[i].isCompleted == s[j].isCompleted
  }

  /** In a list of one completion status any two of its tasks share it. */
  lemma UniformMembers(s: seq<Task>, x: Task, y: Task)
    requires UniformCompletion(s) && x in s && y in s
    ensures x.isCompleted == y.isCompleted
  {
    var i :| 0 <= i < |s| && s[i] == x;
    var j :| 0 <= j < |s| && s[j] == y;
    if i < j {
      assert s[i].isCompleted == s[j].isCompleted;
    } else if j < i {
      assert s[j].isCompleted == s[i].isCompleted;
    }
  }

  /** When a quadrant's positions are its stored indices and its tasks share
      one completion status, display order is stored order. */
  lemma DisplayIsStoredWhenIndexed(s: seq<Task>)
    requires PositionsAreIndices(s) && UniformCompletion(s)
    ensures SortedTasks(s) == s
  {
    assert DisplayOrdered(s) by {
      forall i, j | 0 <= i < j < |s| ensures Compare(s[i], s[j]) <= 0 {
        assert s[i].position == i && s[j].position == j;
      }
    }
    SortedOfOrderedIsIdentity(s);
  }

  /** What quadrant `q` shows for the store's list. */
  function Display(ts: seq<Task>, q: QuadrantId): (r: seq<Task>)
    ensures multiset(r) == multiset(Filter(ts, InQuadrant(q)))
    ensures forall k :: 0 <= k < |r| ==> r[k].quadrant == q
  {
    var f := Filter(ts, InQuadrant(q));
    var r := SortedTasks(f);
    SortedIsOrderedPermutation(f);
    assert forall k :: 0 <= k < |r| ==> r[k].quadrant == q by {
      forall k | 0 <= k < |r| ensures r[k].quadrant == q {
        assert r[k] in multiset(r);
        assert r[k] in f;
      }
    }
    r
  }

  /** A list of one quadrant's tasks whose positions are their indices and
      which share one completion status is shown as it is stored. */
  lemma DisplayOfIndexedQuadrant(s: seq<Task>, q: QuadrantId)
    requires forall k :: 0 <= k < |s| ==> s[k].quadrant == q
    requires PositionsAreIndices(s) && UniformCompletion(s)
    ensures Display(s, q) == s
  {
    FilterKeepsAll(s, InQuadrant(q));
    DisplayIsStoredWhenIndexed(s);
  }

  /** One rendered task: the task and the index its draggable reports. */
  datatype Draggable = Draggable(task: Task, index: nat)

  /** `sortedTasks.map((task, index) => <Task task={task} index={index} />)`. */
  function Draggables(ts: seq<Task>, q: QuadrantId): (r: seq<Draggable>)
    ensures |r| == |Filter(ts, InQuadrant(q))|
    ensures forall k :: 0 <= k < |r| ==> r[k].task.quadrant == q
  {
    var d := Display(ts, q);
    assert |d| == |multiset(d)| == |multiset(Filter(ts, InQuadrant(q)))|;
    seq(|d|, k requires 0 <= k < |d| => Draggable(d[k], k))
  }

  /** A draggable's index is the index of its task in the display order, and
      every task of the quadrant is rendered exactly once. */
  lemma DraggableIndexIsDisplayIndex(ts: seq<Task>, q: QuadrantId)
    ensures var r := Draggables(ts, q);
            && (forall k :: 0 <= k < |r| ==> Display(ts, q)[r[k].index] == r[k].task)
            && multiset(seq(|r|, k requires 0 <= k < |r| => r[k].task)) == multiset(Filter(ts, InQuadrant(q)))
  {
    var r := Draggables(ts, q);
    var d := Display(ts, q);
    assert seq(|r|, k requires 0 <= k < |r| => r[k].task) == d;
  }
}
