/**
 * The list logic of the board page's sticky area: the people a viewer can filter by, the
 * filter itself, and what completing a task does to the locally shown list.
 */
module StickyArea {
  import opened Defaults
  import opened Records
  import BoardState

  /** The filter entry that shows every task; it heads the people list. */
  const All := "all"

  function Assignees(ts: seq<Task>): (r: seq<string>)
    ensures |r| == |ts|
    ensures forall i :: 0 <= i < |ts| ==> r[i] == ts[i].assignee
  {
    if ts == [] then [] else [ts[0].assignee] + Assignees(ts[1..])
  }

  predicate Distinct(xs: seq<string>) {
    forall i, j :: 0 <= i < j < |xs| ==> xs[i] != xs[j]
  }

  /** Index of the first occurrence of `x`. */
  function FirstIndex(xs: seq<string>, x: string): (r: nat)
    requires x in xs
    ensures r < |xs| && xs[r] == x && x !in xs[..r]
  {
    if xs[0] == x then 0
    else
      var k := FirstIndex(xs[1..], x);
      assert xs[..k + 1] == [xs[0]] + xs[1..][..k];
      k + 1
  }

  /** The values of `xs` not in `seen`, each once, in the order of their first occurrence. */
  function DedupFrom(xs: seq<string>, seen: set<string>): (r: seq<string>)
    ensures forall x :: x in r <==> x in xs && x !in seen
    ensures Distinct(r)
    ensures forall i, j :: 0 <= i < j < |r| ==> FirstIndex(xs, r[i]) < FirstIndex(xs, r[j])
  {
    if xs == [] then []
    else if xs[0] in seen then
      var rest := DedupFrom(xs[1..], seen);
      FirstIndexShift(xs, rest);
      rest
    else
      var rest := DedupFrom(xs[1..], seen + {xs[0]});
      FirstIndexShift(xs, rest);
      var r := [xs[0]] + rest;
      assert forall j :: 0 < j < |r| ==> r[j] == rest[j - 1];
      r
  }

  /** Past the head, first indexes in `xs` are one more than in `xs[1..]`. */
  lemma FirstIndexShift(xs: seq<string>, ys: seq<string>)
    requires xs != []
    requires forall y :: y in ys ==> y in xs[1..] && y != xs[0]
    ensures forall i :: 0 <= i < |ys| ==> ys[i] in xs && FirstIndex(xs, ys[i]) == FirstIndex(xs[1..], ys[i]) + 1
  {
    assert xs == [xs[0]] + xs[1..];
    assert forall y :: y in xs[1..] ==> y in xs;
    forall i | 0 <= i < |ys|
      ensures ys[i] in xs && FirstIndex(xs, ys[i]) == FirstIndex(xs[1..], ys[i]) + 1
    {
      assert ys[i] in ys;
    }
  }

  /** `[...new Set(xs)]`: each value once, in the order it first appears. */
  function Dedup(xs: seq<string>): (r: seq<string>)
    ensures forall x :: x in r <==> x in xs
    ensures Distinct(r)
    ensures forall i, j :: 0 <= i < j < |r| ==> FirstIndex(xs, r[i]) < FirstIndex(xs, r[j])
  {
    DedupFrom(xs, {})
  }

  /**
   * The people list: `'all'`, then the assignees of the stored tasks, then those of the tasks
   * that arrived over the socket, each name once at its first position.
   */
  function People(stored: seq<Task>, arrived: seq<Task>): (r: seq<string>)
    ensures |r| >= 1 && r[0] == All
    ensures Distinct(r)
    ensures forall x :: x in r <==> x in [All] + Assignees(stored) + Assignees(arrived)
  {
    var source := [All] + Assignees(stored) + Assignees(arrived);
    var empty: set<string> := {};
    assert source[0] == All && source[0] !in empty;
    assert DedupFrom(source, empty) == [All] + DedupFrom(source[1..], empty + {All});
    Dedup(source)
  }

  /**
   * The people list starts with `'all'`, lists each name once, lists exactly `'all'` and the
   * assignees, and orders names by where they first occur among stored then arrived tasks.
   */
  lemma PeopleFacts(stored: seq<Task>, arrived: seq<Task>)
    ensures var p := People(stored, arrived);
            var source := [All] + Assignees(stored) + Assignees(arrived);
            && |p| >= 1 && p[0] == All
            && Distinct(p)
            && (forall x :: x in p <==>
                  x == All || (exists t :: t in stored && t.assignee == x) || (exists t :: t in arrived && t.assignee == x))
            && (forall i, j :: 0 <= i < j < |p| ==> FirstIndex(source, p[i]) < FirstIndex(source, p[j]))
  {
    var p := People(stored, arrived);
    var source := [All] + Assignees(stored) + Assignees(arrived);
    assert source[0] == All;
    var empty: set<string> := {};
    assert source[0] !in empty;
    assert p == [source[0]] + DedupFrom(source[1..], empty + {source[0]});
    forall x
      ensures x in p <==>
              x == All || (exists t :: t in stored && t.assignee == x) || (exists t :: t in arrived && t.assignee == x)
    {
      if x in Assignees(stored) {
        var i :| 0 <= i < |stored| && Assignees(stored)[i] == x;
        assert stored[i] in stored;
      }
      if x in Assignees(arrived) {
        var i :| 0 <= i < |arrived| && Assignees(arrived)[i] == x;
        assert arrived[i] in arrived;
      }
      if exists t :: t in stored && t.assignee == x {
        var t :| t in stored && t.assignee == x;
        var i :| 0 <= i < |stored| && stored[i] == t;
        assert Assignees(stored)[i] == x;
      }
      if exists t :: t in arrived && t.assignee == x {
        var t :| t in arrived && t.assignee == x;
        var i :| 0 <= i < |arrived| && arrived[i] == t;
        assert Assignees(arrived)[i] == x;
      }
    }
  }

  /** A list without repeats is its own dedup. */
  lemma {:induction false} DedupOfDistinct(xs: seq<string>, seen: set<string>)
    requires Distinct(xs)
    requires forall x :: x in xs ==> x !in seen
    ensures DedupFrom(xs, seen) == xs
  {
    if xs != [] {
      assert forall x :: x in xs[1..] ==> x != xs[0] by {
        forall x | x in xs[1..] ensures x != xs[0] {
          var j :| 0 <= j < |xs[1..]| && xs[1..][j] == x;
          assert xs[j + 1] == x;
        }
      }
      DedupOfDistinct(xs[1..], seen + {xs[0]});
    }
  }

  /** Deduplicating twice is deduplicating once. */
  lemma DedupIdempotent(xs: seq<string>)
    ensures Dedup(Dedup(xs)) == Dedup(xs)
  {
    DedupOfDistinct(Dedup(xs), {});
  }

  // ---------------------------------------------------------------------------------------
  // The assignee filter.

  /** `task.assignee === selected || selected === 'all'`. */
  predicate Shown(t: Task, selected: string) {
    t.assignee == selected || selected == All
  }

  /** `tasks.filter(...)` with the assignee filter. */
  function Visible(ts: seq<Task>, selected: string): (r: seq<Task>)
    ensures |r| <= |ts|
    ensures forall t :: t in r ==> t in ts && Shown(t, selected)
  {
    if ts == [] then []
    else (if Shown(ts[0], selected) then [ts[0]] else []) + Visible(ts[1..], selected)
  }

  /** Filtering a concatenation filters each part, so shown tasks keep their relative order. */
  lemma {:induction false} VisibleAppend(a: seq<Task>, b: seq<Task>, selected: string)
    ensures Visible(a + b, selected) == Visible(a, selected) + Visible(b, selected)
  {
    if a == [] {
      assert a + b == b;
    } else {
      var head := if Shown(a[0], selected) then [a[0]] else [];
      assert (a + b)[0] == a[0];
      assert (a + b)[1..] == a[1..] + b;
      VisibleAppend(a[1..], b, selected);
      calc {
        Visible(a + b, selected);
        head + Visible(a[1..] + b, selected);
        head + (Visible(a[1..], selected) + Visible(b, selected));
        (head + Visible(a[1..], selected)) + Visible(b, selected);
      }
    }
  }

  /** A task is shown exactly when it is in the list and matches the selection. */
  lemma {:induction false} VisibleMembers(ts: seq<Task>, selected: string)
    ensures forall t :: t in Visible(ts, selected) <==> t in ts && Shown(t, selected)
  {
    if ts != [] {
      VisibleMembers(ts[1..], selected);
      assert ts == [ts[0]] + ts[1..];
    }
  }

  /** Selecting `'all'` shows every task, in order. */
  lemma {:induction false} VisibleAll(ts: seq<Task>)
    ensures Visible(ts, All) == ts
  {
    if ts != [] {
      VisibleAll(ts[1..]);
      assert ts == [ts[0]] + ts[1..];
    }
  }

  /** The shown cards: the arrived tasks first, then the stored ones. */
  function Cards(stored: seq<Task>, arrived: seq<Task>, selected: string): (r: seq<Task>)
    ensures r == Visible(arrived + stored, selected)
  {
    VisibleAppend(arrived, stored, selected);
    Visible(arrived, selected) + Visible(stored, selected)
  }

  /** The cards are the filter of arrived-then-stored; with `'all'` they are every task. */
  lemma CardsFacts(stored: seq<Task>, arrived: seq<Task>, selected: string)
    ensures Cards(stored, arrived, selected) == Visible(arrived + stored, selected)
    ensures Cards(stored, arrived, All) == arrived + stored
  {
    VisibleAppend(arrived, stored, selected);
    VisibleAll(arrived);
    VisibleAll(stored);
  }

  // ---------------------------------------------------------------------------------------
  // completeTaskHandler.

  /** `previousArray.filter(({ id }) => id !== taskId)`. */
  function RemoveId(ts: seq<Task>, id: string): (r: seq<Task>)
    ensures |r| <= |ts|
    ensures forall t :: t in r ==> t in ts && t.id != id
  {
    if ts == [] then []
    else (if ts[0].id != id then [ts[0]] else []) + RemoveId(ts[1..], id)
  }

  /** `latestTasksStore.some(({ id }) => id === taskId)`. */
  predicate HasId(ts: seq<Task>, id: string) {
    exists i :: 0 <= i < |ts| && ts[i].id == id
  }

  /** The frame `{ completeTaskId: taskId }` the handler sends. */
  function CompleteFrame(id: string): BoardState.Frame {
    BoardState.Object(None, None, None, Some(id), false)
  }

  /** What one click does: the new local list, and the frame sent when a socket is open. */
  datatype Completion = Completion(tasks: seq<Task>, sent: Option<BoardState.Frame>)

  /**
   * `completeTaskHandler`: drop the task from the local list if it is there; send the frame
   * whenever a socket exists, whether or not the id was in the list.
   */
  function CompleteTask(ts: seq<Task>, id: string, socketOpen: bool): (r: Completion)
    ensures socketOpen <==> r.sent.Some?
    ensures socketOpen ==> r.sent.value == CompleteFrame(id)
    ensures forall t :: t in r.tasks <==> t in ts && t.id != id
    ensures !HasId(ts, id) ==> r.tasks == ts
  {
    RemoveIdMembers(ts, id);
    var tasks := if HasId(ts, id) then RemoveId(ts, id) else ts;
    assert !HasId(ts, id) ==> forall t :: t in ts ==> t.id != id;
    Completion(tasks, if socketOpen then Some(CompleteFrame(id)) else None)
  }

  lemma {:induction false} RemoveIdMembers(ts: seq<Task>, id: string)
    ensures forall t :: t in RemoveId(ts, id) <==> t in ts && t.id != id
  {
    if ts != [] {
      RemoveIdMembers(ts[1..], id);
      assert ts == [ts[0]] + ts[1..];
    }
  }

  lemma {:induction false} RemoveIdAppend(a: seq<Task>, b: seq<Task>, id: string)
    ensures RemoveId(a + b, id) == RemoveId(a, id) + RemoveId(b, id)
  {
    if a == [] {
      assert a + b == b;
    } else {
      assert (a + b)[1..] == a[1..] + b;
      RemoveIdAppend(a[1..], b, id);
    }
  }

  lemma {:induction false} RemoveAbsent(ts: seq<Task>, id: string)
    requires !HasId(ts, id)
    ensures RemoveId(ts, id) == ts
  {
    if ts != [] {
      assert ts[0].id != id;
      assert forall i :: 0 <= i < |ts[1..]| ==> ts[1..][i].id != id by {
        forall i | 0 <= i < |ts[1..]| ensures ts[1..][i].id != id {
          assert ts[1..][i] == ts[i + 1];
        }
      }
      RemoveAbsent(ts[1..], id);
      assert RemoveId(ts, id) == [ts[0]] + RemoveId(ts[1..], id);
      assert ts == [ts[0]] + ts[1..];
    }
  }

  /**
   * The guarded update is the plain filter: the local list always ends up without the id, the
   * other tasks in their order, so completing twice is completing once.
   */
  lemma CompleteIsRemoval(ts: seq<Task>, id: string, socketOpen: bool)
    ensures CompleteTask(ts, id, socketOpen).tasks == RemoveId(ts, id)
    ensures CompleteTask(CompleteTask(ts, id, socketOpen).tasks, id, socketOpen).tasks ==
            CompleteTask(ts, id, socketOpen).tasks
  {
    if !HasId(ts, id) {
      RemoveAbsent(ts, id);
    }
    var once := RemoveId(ts, id);
    RemoveIdMembers(ts, id);
    assert forall i :: 0 <= i < |once| ==> once[i].id != id by {
      forall i | 0 <= i < |once| ensures once[i].id != id {
        assert once[i] in once;
      }
    }
  }
}
