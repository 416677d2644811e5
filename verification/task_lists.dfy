/** The list filters, id views and position predicates shared by the store,
    the quadrant view and the grid. */
module TaskLists {
  import opened Types

  /** The three filters the store applies to its task list: the tasks of one
      quadrant, the tasks outside it, and the tasks without a given id. */
  datatype Selector = InQuadrant(q: QuadrantId) | NotInQuadrant(q: QuadrantId) | NotWithId(id: string)

  predicate Keeps(s: Selector, t: Task) {
    match s
    case InQuadrant(q) => t.quadrant == q
    case NotInQuadrant(q) => t.quadrant != q
    case NotWithId(id) => t.id != id
  }

  /** `Array.prototype.filter`: the tasks the selector keeps, in list order. */
  function Filter(ts: seq<Task>, s: Selector): (r: seq<Task>)
    ensures |r| <= |ts|
    ensures forall t :: t in r <==> t in ts && Keeps(s, t)
  {
    if ts == [] then []
    else if Keeps(s, ts[0]) then [ts[0]] + Filter(ts[1..], s)
    else Filter(ts[1..], s)
  }

  /** The ids of a task list, in list order. */
  function Ids(ts: seq<Task>): (r: seq<string>)
    ensures |r| == |ts|
    ensures forall k :: 0 <= k < |ts| ==> r[k] == ts[k].id
  {
    seq(|ts|, k requires 0 <= k < |ts| => ts[k].id)
  }

  /** The positions of a task list, in list order. */
  function Positions(ts: seq<Task>): (r: seq<nat>)
    ensures |r| == |ts|
    ensures forall k :: 0 <= k < |ts| ==> r[k] == ts[k].position
  {
    seq(|ts|, k requires 0 <= k < |ts| => ts[k].position)
  }

  /** No id occurs twice. */
  ghost predicate UniqueIds(ts: seq<Task>) {
    forall x :: multiset(Ids(ts))[x] <= 1
  }

  /** The list's positions are 0, 1, ..., k-1 in list order: stored order and
      position order agree. */
  predicate PositionsAreIndices(s: seq<Task>) {
    forall k :: 0 <= k < |s| ==> s[k].position == k
  }

  /** The positions of the list are pairwise distinct and all below its length,
      that is, they are exactly {0, ..., k-1} in some order. */
  predicate Contiguous(s: seq<Task>) {
    && (forall k :: 0 <= k < |s| ==> s[k].position < |s|)
    && (forall i, j :: 0 <= i < j < |s| ==> s[i].position != s[j].position)
  }

  /** `Array.prototype.find`, by index: the first task with the id, if any. */
  function FindIndex(ts: seq<Task>, id: string): (r: Option<nat>)
    ensures r.None? <==> id !in Ids(ts)
    ensures r.Some? ==> r.value < |ts| && ts[r.value].id == id
    ensures r.Some? ==> forall k :: 0 <= k < r.value ==> ts[k].id != id
  {
    if ts == [] then None
    else if ts[0].id == id then Some(0)
    else
      assert Ids(ts) == [ts[0].id] + Ids(ts[1..]);
      match FindIndex(ts[1..], id)
      case None => None
      case Some(k) => Some(k + 1)
  }

  // ---------------------------------------------------------------------------
  // Lemmas about the filters

  lemma IdsAppend(a: seq<Task>, b: seq<Task>)
    ensures Ids(a + b) == Ids(a) + Ids(b)
  {
  }

  /** Filtering distributes over concatenation: a filter keeps the relative
      order of what it keeps. */
  lemma {:induction false} FilterAppend(a: seq<Task>, b: seq<Task>, s: Selector)
    ensures Filter(a + b, s) == Filter(a, s) + Filter(b, s)
  {
    if a == [] {
      assert a + b == b;
    } else {
      assert (a + b)[0] == a[0];
      assert (a + b)[1..] == a[1..] + b;
      FilterAppend(a[1..], b, s);
    }
  }

  /** Every element a filter returns is one the selector keeps. */
  lemma FilterKept(ts: seq<Task>, s: Selector)
    ensures forall k :: 0 <= k < |Filter(ts, s)| ==> Keeps(s, Filter(ts, s)[k])
  {
    var r := Filter(ts, s);
    forall k | 0 <= k < |r| ensures Keeps(s, r[k]) {
      assert r[k] in r;
    }
  }

  /** An id absent from a list is absent from every filter of it. */
  lemma FilterKeepsAbsentId(ts: seq<Task>, s: Selector, id: string)
    requires id !in Ids(ts)
    ensures id !in Ids(Filter(ts, s))
  {
    var r := Filter(ts, s);
    forall k | 0 <= k < |r| ensures r[k].id != id {
      assert r[k] in ts;
      var m :| 0 <= m < |ts| && ts[m] == r[k];
      assert Ids(ts)[m] == r[k].id;
    }
  }

  /** A filter that keeps every element returns the list itself. */
  lemma {:induction false} FilterKeepsAll(ts: seq<Task>, s: Selector)
    requires forall k :: 0 <= k < |ts| ==> Keeps(s, ts[k])
    ensures Filter(ts, s) == ts
  {
    if ts != [] {
      FilterKeepsAll(ts[1..], s);
    }
  }

  /** A filter that keeps no element returns the empty list. */
  lemma {:induction false} FilterKeepsNone(ts: seq<Task>, s: Selector)
    requires forall k :: 0 <= k < |ts| ==> !Keeps(s, ts[k])
    ensures Filter(ts, s) == []
  {
    if ts != [] {
      FilterKeepsNone(ts[1..], s);
    }
  }

  /** Two filters commute. */
  lemma {:induction false} FilterCommute(ts: seq<Task>, s1: Selector, s2: Selector)
    ensures Filter(Filter(ts, s1), s2) == Filter(Filter(ts, s2), s1)
  {
    if ts != [] {
      FilterCommute(ts[1..], s1, s2);
      assert Filter([ts[0]], s1) == if Keeps(s1, ts[0]) then [ts[0]] else [];
      assert Filter([ts[0]], s2) == if Keeps(s2, ts[0]) then [ts[0]] else [];
      if Keeps(s1, ts[0]) {
        FilterAppend([ts[0]], Filter(ts[1..], s1), s2);
      } else {
      }
      if Keeps(s2, ts[0]) {
        FilterAppend([ts[0]], Filter(ts[1..], s2), s1);
      }
    }
  }

  /** The tasks of quadrant q' among the tasks outside quadrant q (q' != q) are
      exactly the tasks of q', in the same order. */
  lemma {:induction false} FilterOutsideThenInside(ts: seq<Task>, q: QuadrantId, q': QuadrantId)
    requires q != q'
    ensures Filter(Filter(ts, NotInQuadrant(q)), InQuadrant(q')) == Filter(ts, InQuadrant(q'))
  {
    if ts != [] {
      FilterOutsideThenInside(ts[1..], q, q');
      if ts[0].quadrant != q {
        FilterAppend([ts[0]], Filter(ts[1..], NotInQuadrant(q)), InQuadrant(q'));
        assert Filter([ts[0]], InQuadrant(q')) == if ts[0].quadrant == q' then [ts[0]] else [];
      }
    }
  }

  /** Appending tasks of quadrant q to the tasks outside q makes them q's
      whole stored list. */
  lemma QuadrantReplaced(ts: seq<Task>, q: QuadrantId, m: seq<Task>)
    requires forall k :: 0 <= k < |m| ==> m[k].quadrant == q
    ensures Filter(Filter(ts, NotInQuadrant(q)) + m, InQuadrant(q)) == m
  {
    var outside := Filter(ts, NotInQuadrant(q));
    FilterAppend(outside, m, InQuadrant(q));
    FilterKept(ts, NotInQuadrant(q));
    FilterKeepsNone(outside, InQuadrant(q));
    FilterKeepsAll(m, InQuadrant(q));
  }

  /** Splitting a list into one quadrant's tasks and the rest loses and adds no
      task and no id. */
  lemma {:induction false} QuadrantSplit(ts: seq<Task>, q: QuadrantId)
    ensures |Filter(ts, InQuadrant(q))| + |Filter(ts, NotInQuadrant(q))| == |ts|
    ensures multiset(Ids(Filter(ts, InQuadrant(q)))) + multiset(Ids(Filter(ts, NotInQuadrant(q))))
         == multiset(Ids(ts))
  {
    if ts != [] {
      QuadrantSplit(ts[1..], q);
      assert ts == [ts[0]] + ts[1..];
      IdsAppend([ts[0]], ts[1..]);
      if ts[0].quadrant == q {
        IdsAppend([ts[0]], Filter(ts[1..], InQuadrant(q)));
      } else {
        IdsAppend([ts[0]], Filter(ts[1..], NotInQuadrant(q)));
      }
    }
  }

  /** The ids of a non-empty list are its head's id and its tail's ids. */
  lemma IdsCons(ts: seq<Task>)
    requires ts != []
    ensures multiset(Ids(ts)) == multiset{ts[0].id} + multiset(Ids(ts[1..]))
  {
    assert Ids(ts) == [ts[0].id] + Ids(ts[1..]);
  }

  /** Dropping the tasks with an id removes as many tasks as that id has
      occurrences. */
  lemma {:induction false} FilterIdCountLength(ts: seq<Task>, id: string)
    ensures |Filter(ts, NotWithId(id))| + multiset(Ids(ts))[id] == |ts|
  {
    if ts != [] {
      FilterIdCountLength(ts[1..], id);
      IdsCons(ts);
    }
  }

  /** Dropping the tasks with an id keeps the count of every other id. */
  lemma {:induction false} FilterOtherIdCount(ts: seq<Task>, id: string, x: string)
    requires x != id
    ensures multiset(Ids(Filter(ts, NotWithId(id))))[x] == multiset(Ids(ts))[x]
  {
    if ts != [] {
      FilterOtherIdCount(ts[1..], id, x);
      IdsCons(ts);
      if ts[0].id != id {
        IdsCons(Filter(ts, NotWithId(id)));
      }
    }
  }

  /** Dropping the tasks with an id removes as many tasks as that id has
      occurrences, and every other id keeps its count. */
  lemma FilterIdCount(ts: seq<Task>, id: string)
    ensures |Filter(ts, NotWithId(id))| + multiset(Ids(ts))[id] == |ts|
    ensures forall x :: x != id ==> multiset(Ids(Filter(ts, NotWithId(id))))[x] == multiset(Ids(ts))[x]
  {
    FilterIdCountLength(ts, id);
    forall x | x != id ensures multiset(Ids(Filter(ts, NotWithId(id))))[x] == multiset(Ids(ts))[x] {
      FilterOtherIdCount(ts, id, x);
    }
  }

  /** Dropping the tasks with an id that occurs once removes exactly that id. */
  lemma FilterSingleId(ts: seq<Task>, id: string)
    requires multiset(Ids(ts))[id] == 1
    ensures multiset(Ids(ts)) == multiset(Ids(Filter(ts, NotWithId(id)))) + multiset{id}
  {
    var m := multiset(Ids(Filter(ts, NotWithId(id))));
    assert m[id] == 0 by {
      var f := Filter(ts, NotWithId(id));
      forall k | 0 <= k < |f| ensures Ids(f)[k] != id {
        assert f[k] in f;
      }
    }
    forall x ensures multiset(Ids(ts))[x] == (m + multiset{id})[x] {
      if x != id {
        FilterOtherIdCount(ts, id, x);
      }
    }
  }

  /** Lists with the same ids, counted with multiplicity, agree on whether
      their ids are unique. */
  lemma SameIdsSameUniqueness(a: seq<Task>, b: seq<Task>)
    requires multiset(Ids(a)) == multiset(Ids(b))
    ensures UniqueIds(a) <==> UniqueIds(b)
  {
  }

  /** With unique ids, two different indices hold different ids. */
  lemma UniqueIdsApart(ts: seq<Task>, a: nat, b: nat)
    requires UniqueIds(ts)
    requires a < |ts| && b < |ts|
    ensures a != b ==> ts[a].id != ts[b].id
  {
    var s := Ids(ts);
    var i, j := if a < b then a else b, if a < b then b else a;
    assert s == s[..j] + s[j..];
    assert multiset(s) == multiset(s[..j]) + multiset(s[j..]);
    assert i < j ==> s[i] in s[..j];
    assert s[j] in s[j..];
    assert i < j ==> multiset(s)[s[i]] >= multiset(s[..j])[s[i]] >= 1;
    assert multiset(s)[s[j]] >= multiset(s[j..])[s[j]] >= 1;
  }

  /** A sequence without repeated elements holds each value at most once. */
  lemma {:induction false} DistinctHasSingletons<T>(s: seq<T>)
    requires forall i, j :: 0 <= i < j < |s| ==> s[i] != s[j]
    ensures forall x :: multiset(s)[x] <= 1
  {
    if s != [] {
      var rest := s[1..];
      assert forall i, j :: 0 <= i < j < |rest| ==> rest[i] != rest[j] by {
        forall i, j | 0 <= i < j < |rest| ensures rest[i] != rest[j] {
          assert rest[i] == s[i + 1] && rest[j] == s[j + 1];
        }
      }
      DistinctHasSingletons(rest);
      assert s == [s[0]] + rest;
      assert s[0] !in rest by {
        forall k | 0 <= k < |rest| ensures rest[k] != s[0] {
          assert rest[k] == s[k + 1];
        }
      }
      forall x ensures multiset(s)[x] <= 1 {
        assert multiset(s)[x] == multiset{s[0]}[x] + multiset(rest)[x];
      }
    }
  }

  /** Conversely, ids that differ pairwise make the ids unique, so UniqueIds is
      the usual "no id twice" condition. */
  lemma PairwiseDistinctIsUnique(ts: seq<Task>)
    requires forall i, j :: 0 <= i < j < |ts| ==> ts[i].id != ts[j].id
    ensures UniqueIds(ts)
  {
    DistinctHasSingletons(Ids(ts));
  }

  /** Positions that are the indices are contiguous. */
  lemma IndicesAreContiguous(s: seq<Task>)
    requires PositionsAreIndices(s)
    ensures Contiguous(s)
  {
  }
}
