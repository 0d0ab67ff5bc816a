/** Runs of the registry by the calls that are made: the log and what every dispatch finds, as functions of the
    calls alone, and what a task can be waiting for. */
module DispatchCalls {
  import opened Base
  import opened Registry
  import opened Dispatch
  import opened DispatchLaws

  // ---------- the calls of a run ----------

  /** What a task has last asked for, by `register_handler` or `drop_handler`, itself or in its handler. */
  function LatestAsk(run: seq<Action>, id: TaskId): Option<Call>
  {
    if run == [] then None
    else
      var last := run[|run| - 1];
      if (last.StartCall? || last.HandlerCalls?) && last.id == id then Some(last.call)
      else LatestAsk(run[..|run| - 1], id)
  }

  /** The calls in the order in which they take effect on the queue, each the one its own task has asked for. */
  function CallsMade(run: seq<Action>): seq<Call>
  {
    if run == [] then []
    else
      var last, init := run[|run| - 1], run[..|run| - 1];
      CallsMade(init) +
      if last.Insert? && LatestAsk(init, last.id).Some? then [LatestAsk(init, last.id).value] else []
  }

  // ---------- every step keeps the record ----------

  predicate HasCall(t: Task)
  {
    t.CallWaits? || t.CallHolds? || t.HandlerWaits? || t.HandlerHolds?
  }

  function TargetOf(t: Task): ObjectId
    requires InDispatch(t)
  {
    if BeforeDrained(t) || BetweenLocks(t) then t.target else t.run.target
  }

  /** Dispatch `id` was started by action number `p`. */
  predicate StartedBy(run: seq<Action>, p: nat, id: TaskId, t: Task)
    requires InDispatch(t)
  {
    p < |run| && run[p] == StartDispatch(id, TargetOf(t)) && StartOf(t) == |CallsMade(run[..p])|
  }

  /** The log is what was asked for, and so are the calls and targets that tasks carry with them. */
  ghost predicate Recorded(run: seq<Action>, s: State)
  {
    && s.log == CallsMade(run)
    && (forall id :: id in s.tasks && HasCall(s.tasks[id]) ==> LatestAsk(run, id) == Some(s.tasks[id].call))
    && (forall id :: id in s.tasks && InDispatch(s.tasks[id]) ==> exists p :: StartedBy(run, p, id, s.tasks[id]))
  }

  lemma CallStays(s: State, a: Action)
    requires Enabled(s, a, false)
    ensures var next, id := Apply(s, a), Mover(s, a);
            && id in next.tasks
            && (HasCall(next.tasks[id]) ==>
                  if a.StartCall? || a.HandlerCalls? then a.id == id && a.call == next.tasks[id].call
                  else id in s.tasks && HasCall(s.tasks[id]) && s.tasks[id].call == next.tasks[id].call)
            && next.log == s.log + (if a.Insert? then [s.tasks[a.id].call] else [])
            && (a.Insert? ==> HasCall(s.tasks[a.id]))
            && (a.StartCall? || a.HandlerCalls? ==> a.id == id)
  {
    hide Lookup, Perform;
  }

  lemma TargetStays(s: State, a: Action)
    requires Enabled(s, a, false)
    ensures var next, id := Apply(s, a), Mover(s, a);
            && id in next.tasks
            && (InDispatch(next.tasks[id]) ==>
                  if a.StartDispatch? then a.id == id && a.target == TargetOf(next.tasks[id])
                  else id in s.tasks && InDispatch(s.tasks[id]) && TargetOf(s.tasks[id]) == TargetOf(next.tasks[id]))
            && (a.StartDispatch? ==> InDispatch(next.tasks[id]))
  {
    hide Lookup, Perform;
  }

  lemma AskStep(run: seq<Action>, a: Action, id: TaskId)
    ensures LatestAsk(run + [a], id) ==
            if (a.StartCall? || a.HandlerCalls?) && a.id == id then Some(a.call) else LatestAsk(run, id)
  {
    assert (run + [a])[..|run|] == run;
  }

  lemma MadeStep(run: seq<Action>, a: Action)
    ensures CallsMade(run + [a]) == CallsMade(run) +
            if a.Insert? && LatestAsk(run, a.id).Some? then [LatestAsk(run, a.id).value] else []
  {
    assert (run + [a])[..|run|] == run;
  }

  lemma LogRecorded(run: seq<Action>, s: State, a: Action)
    requires Recorded(run, s) && Enabled(s, a, false)
    ensures Apply(s, a).log == CallsMade(run + [a])
  {
    CallStays(s, a);
    MadeStep(run, a);
    assert a.Insert? ==> a.id in s.tasks;
    hide Apply, CallsMade, LatestAsk;
  }

  lemma CallsRecorded(run: seq<Action>, s: State, a: Action, id: TaskId)
    requires Recorded(run, s) && Enabled(s, a, false)
    requires id in Apply(s, a).tasks && HasCall(Apply(s, a).tasks[id])
    ensures LatestAsk(run + [a], id) == Some(Apply(s, a).tasks[id].call)
  {
    OthersStay(s, a);
    CallStays(s, a);
    AskStep(run, a, id);
    hide Apply, Enabled, Mover, LatestAsk, CallsMade;
  }

  lemma StartRecorded(run: seq<Action>, s: State, a: Action, id: TaskId)
    requires Recorded(run, s) && Enabled(s, a, false)
    requires id in Apply(s, a).tasks && InDispatch(Apply(s, a).tasks[id])
    ensures exists p :: StartedBy(run + [a], p, id, Apply(s, a).tasks[id])
  {
    OthersStay(s, a);
    StartStays(s, a);
    TargetStays(s, a);
    StartIsFresh(s, a);
    hide Apply, Enabled, Mover, LatestAsk, CallsMade, StartOf, TargetOf;
    var t := Apply(s, a).tasks[id];
    if a.StartDispatch? && a.id == id {
      assert (run + [a])[..|run|] == run;
      assert StartedBy(run + [a], |run|, id, t);
    } else {
      var p: nat :| StartedBy(run, p, id, s.tasks[id]);
      assert (run + [a])[..p] == run[..p];
      assert StartedBy(run + [a], p, id, t);
    }
  }

  lemma StartIsFresh(s: State, a: Action)
    requires Enabled(s, a, false)
    ensures a.StartDispatch? ==> Mover(s, a) == a.id && a.id !in s.tasks
  {
  }

  lemma RecordedStep(run: seq<Action>, s: State, a: Action)
    requires Recorded(run, s) && Enabled(s, a, false)
    ensures Recorded(run + [a], Apply(s, a))
  {
    var next := Apply(s, a);
    LogRecorded(run, s, a);
    forall id | id in next.tasks && HasCall(next.tasks[id])
      ensures LatestAsk(run + [a], id) == Some(next.tasks[id].call)
    {
      CallsRecorded(run, s, a, id);
    }
    forall id | id in next.tasks && InDispatch(next.tasks[id])
      ensures exists p :: StartedBy(run + [a], p, id, next.tasks[id])
    {
      StartRecorded(run, s, a, id);
    }
  }

  lemma {:induction false} RecordedRun(run: seq<Action>, s: State, more: seq<Action>, solo: bool)
    requires Recorded(run, s) && IsRun(s, more, solo)
    ensures Recorded(run + more, After(s, more, solo))
    decreases |more|
  {
    hide Recorded, Apply;
    if more == [] {
      assert run + more == run;
    } else {
      assert Enabled(s, more[0], false);
      RecordedStep(run, s, more[0]);
      RecordedRun(run + [more[0]], Apply(s, more[0]), more[1..], solo);
      assert run + [more[0]] + more[1..] == run + more;
    }
  }

  /** Over every run: the log of calls is, in the order in which they took effect, what the tasks and handlers asked
      for. */
  lemma LogExact(run: seq<Action>, solo: bool)
    requires IsRun(INITIAL, run, solo)
    ensures After(INITIAL, run, solo).log == CallsMade(run)
  {
    RecordedRun([], INITIAL, run, solo);
    assert [] + run == run;
  }

  /** Over every run, with any number of dispatches at once: a dispatch runs the handler that is registered for the
      object of its own packet once the first `n` calls that took effect have been performed one after the other,
      for some `n` that includes all calls that took effect before the dispatch was started. */
  lemma FindsWhatWasAsked(run: seq<Action>, solo: bool, id: TaskId) returns (p: nat, n: nat)
    requires IsRun(INITIAL, run, solo)
    requires var s := After(INITIAL, run, solo); id in s.tasks && ReadsMap(s.tasks[id])
    ensures var s := After(INITIAL, run, solo);
            && p < |run| && run[p] == StartDispatch(id, s.tasks[id].run.target)
            && |CallsMade(run[..p])| <= n <= |CallsMade(run)|
            && s.tasks[id].run.found == Lookup(Replay(CallsMade(run)[..n]), s.tasks[id].run.target)
  {
    DispatchFindsLogged(run, solo, id);
    RecordedRun([], INITIAL, run, solo);
    assert [] + run == run;
    hide IsRun, After, Replay, Lookup, CallsMade, Recorded;
    var s := After(INITIAL, run, solo);
    p := StartOfReader(run, s, id);
    n := s.tasks[id].run.at;
  }

  lemma StartOfReader(run: seq<Action>, s: State, id: TaskId) returns (p: nat)
    requires Recorded(run, s) && id in s.tasks && ReadsMap(s.tasks[id])
    ensures s.log == CallsMade(run) && p < |run|
    ensures run[p] == StartDispatch(id, s.tasks[id].run.target) && s.tasks[id].run.start == |CallsMade(run[..p])|
  {
    hide CallsMade, LatestAsk;
    p :| StartedBy(run, p, id, s.tasks[id]);
  }

  // ---------- what a task can wait for ----------

  /** Any calls and dispatches can be started at any time, by new tasks. */
  lemma {:induction false} StartsAreRuns(s: State, starts: seq<Action>)
    requires forall i :: 0 <= i < |starts| ==>
                         (starts[i].StartCall? || starts[i].StartDispatch?) && starts[i].id !in s.tasks
    requires forall i, j :: 0 <= i < j < |starts| ==> starts[i].id != starts[j].id
    ensures IsRun(s, starts, false)
    decreases |starts|
  {
    if starts != [] {
      var next := Apply(s, starts[0]);
      forall i | 0 <= i < |starts[1..]| ensures starts[1..][i] == starts[i + 1] && starts[i + 1].id !in next.tasks {
      }
      StartsAreRuns(next, starts[1..]);
    }
  }

  /** Having one dispatch at a time restricts nothing but the start of dispatches, and that only while another is in
      progress. */
  lemma SoloExact(s: State, a: Action)
    ensures Enabled(s, a, true) <==>
            && Enabled(s, a, false)
            && (a.StartDispatch? ==>
                  forall i :: i in s.tasks ==> s.tasks[i].CallWaits? || s.tasks[i].CallHolds? || s.tasks[i].Finished?)
  {
    assert forall i :: i in s.tasks ==>
      (!InDispatch(s.tasks[i]) <==> s.tasks[i].CallWaits? || s.tasks[i].CallHolds? || s.tasks[i].Finished?);
  }

  ghost predicate CanStep(s: State, id: TaskId)
  {
    exists a :: IsWork(a) && Enabled(s, a, false) && Mover(s, a) == id
  }

  /** It is the task's turn at the lock that it waits for, if it waits for one. */
  predicate HasTurn(s: State, id: TaskId)
    requires id in s.tasks
  {
    var t := s.tasks[id];
    if WaitsForQueue(t) then s.queueHolder == None && s.queueWaiters != [] && s.queueWaiters[0] == id
    else if WaitsForMap(t) then
      && s.mapWriter == None && s.mapWaiters != [] && s.mapWaiters[0] == id
      && (t.WaitsMapWrite? ==> s.mapReaders == {})
    else !t.Finished?
  }

  lemma TurnCanStep(s: State, id: TaskId) returns (a: Action)
    requires id in s.tasks && HasTurn(s, id)
    ensures IsWork(a) && Enabled(s, a, false) && Mover(s, a) == id
  {
    match s.tasks[id]
    case CallWaits(_) => a := GrantQueue;
    case WaitsQueue(_, _) => a := GrantQueue;
    case HandlerWaits(_, _) => a := GrantQueue;
    case CallHolds(_) => a := Insert(id);
    case HandlerHolds(_, _) => a := Insert(id);
    case HasQueue(_, _) => a := AskForWrite(id);
    case WaitsMapWrite(_, _) => a := GrantMap;
    case WaitsMapRead(_, _) => a := GrantMap;
    case Draining(_, _) =>
      if s.queue == map[] {
        a := FinishDrain(id);
      } else {
        var key :| key in s.queue;
        a := Pop(id, key);
      }
    case HasDrained(_, _) => a := LeaveQueue(id);
    case HasUpdated(_, _) => a := AskForRead(id);
    case Running(_) => a := Finish(id);
  }

  lemma StepNeedsTurn(s: State, a: Action)
    requires IsWork(a) && Enabled(s, a, false)
    ensures Mover(s, a) in s.tasks && HasTurn(s, Mover(s, a))
  {
  }

  /** All that a task ever waits for is its turn at one of the two locks: the queue's, which has one holder, or the
      map's, which has one writer or any number of readers. A handler that runs can make any call. */
  lemma WaitsForTurn(s: State, id: TaskId, call: Call)
    requires id in s.tasks
    ensures CanStep(s, id) <==> HasTurn(s, id)
    ensures Enabled(s, HandlerCalls(id, call), false) <==> s.tasks[id].Running? && s.tasks[id].run.found.Some?
  {
    assert Enabled(s, HandlerCalls(id, call), false) <==> s.tasks[id].Running? && s.tasks[id].run.found.Some?;
    hide HasTurn, Enabled, Mover;
    if HasTurn(s, id) {
      var a := TurnCanStep(s, id);
    }
    forall a | IsWork(a) && Enabled(s, a, false) && Mover(s, a) == id ensures HasTurn(s, id) {
      StepNeedsTurn(s, a);
    }
  }
}
