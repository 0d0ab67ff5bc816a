/** How long the work of dispatches and handler calls can last, and how it ends. */
module DispatchProgress {
  import opened Base
  import opened Registry
  import opened Dispatch
  import opened DispatchLaws

  // ---------- the measure ----------

  /** How many steps a task has left, where a call that is still to be inserted counts one more for the
      entry that a dispatch will then have to drain. */
  function Rank(t: Task): nat
  {
    match t
    case Finished => 0
    case Running(_) => 1
    case CallHolds(_) => 2
    case WaitsMapRead(_, _) => 2
    case CallWaits(_) => 3
    case HandlerHolds(_, _) => 3
    case HasUpdated(_, _) => 3
    case HandlerWaits(_, _) => 4
    case HasDrained(_, _) => 4
    case Draining(_, _) => 5
    case WaitsMapWrite(_, _) => 6
    case HasQueue(_, _) => 7
    case WaitsQueue(_, _) => 8
  }

  ghost function Total(tasks: map<TaskId, Task>): nat
    decreases |tasks|
  {
    if tasks == map[] then 0 else
      var id :| id in tasks;
      Rank(tasks[id]) + Total(tasks - {id})
  }

  ghost function Measure(s: State): nat
  {
    Total(s.tasks) + |s.queue|
  }

  lemma {:induction false} TotalSplit(tasks: map<TaskId, Task>, id: TaskId)
    requires id in tasks
    ensures Total(tasks) == Rank(tasks[id]) + Total(tasks - {id})
    decreases |tasks|
  {
    var first :| id in tasks && first in tasks && Total(tasks) == Rank(tasks[first]) + Total(tasks - {first});
    if first != id {
      TotalSplit(tasks - {first}, id);
      TotalSplit(tasks - {id}, first);
      assert tasks - {first} - {id} == tasks - {id} - {first};
    }
  }

  lemma TotalUpdate(tasks: map<TaskId, Task>, id: TaskId, t: Task)
    requires id in tasks
    ensures Total(tasks[id := t]) + Rank(tasks[id]) == Total(tasks) + Rank(t)
  {
    TotalSplit(tasks, id);
    TotalSplit(tasks[id := t], id);
    assert tasks[id := t] - {id} == tasks - {id};
  }

  lemma QueueGrows<T>(queue: map<ObjectId, T>, key: ObjectId, value: T)
    ensures |queue[key := value]| <= |queue| + 1
  {
    assert queue[key := value].Keys == queue.Keys + {key};
  }

  lemma InsertFalls(s: State, id: TaskId)
    requires Enabled(s, Insert(id), false)
    ensures Measure(Apply(s, Insert(id))) < Measure(s)
  {
    hide Total;
    var call, next := s.tasks[id].call, Apply(s, Insert(id));
    QueueGrows(s.queue, call.objectId, call.operation);
    TotalUpdate(s.tasks, id, next.tasks[id]);
  }

  lemma PopFalls(s: State, id: TaskId, key: ObjectId)
    requires Enabled(s, Pop(id, key), false)
    ensures Measure(Apply(s, Pop(id, key))) < Measure(s)
  {
    hide Total, Perform;
    assert (s.queue - {key}).Keys == s.queue.Keys - {key};
  }

  /** Every other step moves one task down. */
  lemma MoverFalls(s: State, a: Action)
    requires IsWork(a) && Enabled(s, a, false) && !a.Insert? && !a.Pop?
    ensures var next, id := Apply(s, a), Mover(s, a);
            id in s.tasks && id in next.tasks && Rank(next.tasks[id]) < Rank(s.tasks[id]) && next.queue == s.queue
  {
    hide Lookup, Perform;
  }

  lemma WorkFalls(s: State, a: Action)
    requires IsWork(a) && Enabled(s, a, false)
    ensures Measure(Apply(s, a)) < Measure(s)
  {
    hide Apply, Mover;
    if a.Insert? {
      InsertFalls(s, a.id);
    } else if a.Pop? {
      PopFalls(s, a.id, a.key);
    } else {
      OthersStay(s, a);
      MoverFalls(s, a);
      TotalUpdate(s.tasks, Mover(s, a), Apply(s, a).tasks[Mover(s, a)]);
    }
  }

  // ---------- every run of work ends ----------

  predicate AllWork(actions: seq<Action>)
  {
    forall i :: 0 <= i < |actions| ==> IsWork(actions[i])
  }

  /** However the work that has been started is interleaved, the measure bounds its length. */
  lemma {:induction false} WorkIsBounded(s: State, work: seq<Action>, solo: bool)
    requires IsRun(s, work, solo) && AllWork(work)
    ensures |work| + Measure(After(s, work, solo)) <= Measure(s)
    decreases |work|
  {
    hide Apply, Enabled, Measure, IsWork;
    if work != [] {
      assert IsWork(work[0]) && forall i :: 0 <= i < |work[1..]| ==> work[1..][i] == work[i + 1];
      EnabledAnyway(s, work[0], solo);
      WorkFalls(s, work[0]);
      WorkIsBounded(Apply(s, work[0]), work[1..], solo);
    }
  }

  lemma EnabledAnyway(s: State, a: Action, solo: bool)
    requires Enabled(s, a, solo)
    ensures Enabled(s, a, false)
  {
  }

  lemma {:induction false} RunOn(s: State, before: seq<Action>, after: seq<Action>, solo: bool)
    requires IsRun(s, before, solo) && IsRun(After(s, before, solo), after, solo)
    ensures IsRun(s, before + after, solo)
    ensures After(s, before + after, solo) == After(After(s, before, solo), after, solo)
    decreases |before|
  {
    hide Apply, Enabled;
    if before == [] {
      assert before + after == after;
    } else {
      assert (before + after)[1..] == before[1..] + after;
      EnabledAnyway(s, before[0], solo);
      RunOn(Apply(s, before[0]), before[1..], after, solo);
    }
  }

  /** From any reachable state, with any number of dispatches: what has been started can be worked on only
      so long, and when nothing more can be done, either every task has finished or there is a deadlock. */
  lemma WorkEnds(before: seq<Action>, work: seq<Action>, solo: bool)
    requires IsRun(INITIAL, before, solo) && IsRun(After(INITIAL, before, solo), work, solo) && AllWork(work)
    ensures var s := After(INITIAL, before, solo);
            var end := After(s, work, solo);
            && |work| <= Measure(s)
            && (!CanProgress(end) ==> Deadlocked(end) || forall id :: id in end.tasks ==> end.tasks[id].Finished?)
  {
    hide Enabled, IsRun, After, Deadlocked, CanProgress, Measure;
    WorkIsBounded(After(INITIAL, before, solo), work, solo);
    RunOn(INITIAL, before, work, solo);
    var end := After(INITIAL, before + work, solo);
    if Unfinished(end) {
      DeadlockExact(before + work, solo);
    }
  }

  /** With at most one dispatch at a time, whatever its handlers have asked for: every run of work, in
      whatever order, that is carried on as long as it can be finishes every task. */
  lemma WorkFinishes(before: seq<Action>, work: seq<Action>)
    requires IsRun(INITIAL, before, true) && IsRun(After(INITIAL, before, true), work, true) && AllWork(work)
    ensures var s := After(INITIAL, before, true);
            var end := After(s, work, true);
            && |work| <= Measure(s)
            && (!CanProgress(end) <==> forall id :: id in end.tasks ==> end.tasks[id].Finished?)
  {
    hide Enabled, IsRun, After, CanProgress, Measure, Inv;
    WorkIsBounded(After(INITIAL, before, true), work, true);
    RunOn(INITIAL, before, work, true);
    InitialInv();
    RunKeepsInv(INITIAL, before + work, true);
    var end := After(INITIAL, before + work, true);
    if Unfinished(end) {
      DeadlockFree(before + work);
    } else {
      NothingLeft(end);
    }
  }

  lemma NothingLeft(s: State)
    requires Inv(s) && !Unfinished(s)
    ensures !CanProgress(s)
  {
    hide RegistryInv;
    assert QueueLockInv(s) && MapLockInv(s);
    forall a | IsWork(a) ensures !Enabled(s, a, false) {
    }
  }
}
