/** Which handler a dispatch finds, and when the two locks deadlock. */
module DispatchLaws {
  import opened Base
  import opened Registry
  import opened Dispatch

  // ---------- the invariant ----------

  ghost predicate QueueLockInv(s: State)
  {
    && (forall id: TaskId :: s.queueHolder == Some(id) <==> id in s.tasks && HoldsQueue(s.tasks[id]))
    && (forall id: TaskId :: id in s.queueWaiters <==> id in s.tasks && WaitsForQueue(s.tasks[id]))
    && Distinct(s.queueWaiters)
  }

  ghost predicate MapLockInv(s: State)
  {
    && (forall id: TaskId :: s.mapWriter == Some(id) <==> id in s.tasks && s.tasks[id].Draining?)
    && (forall id: TaskId :: id in s.mapReaders <==> id in s.tasks && ReadsMap(s.tasks[id]))
    && (forall id: TaskId :: id in s.mapWaiters <==> id in s.tasks && WaitsForMap(s.tasks[id]))
    && Distinct(s.mapWaiters)
    && (s.mapWriter.Some? ==> s.mapReaders == {})
  }

  /** What the map stands for while nobody drains. */
  function DrainedLog(s: State): seq<Call>
    requires s.drained <= |s.log|
  {
    s.log[..s.drained]
  }

  predicate FoundInLog(log: seq<Call>, run: Lookups)
  {
    run.start <= run.at <= |log| && run.found == Lookup(Replay(log[..run.at]), run.target)
  }

  predicate BeforeDrained(t: Task)
  {
    t.WaitsQueue? || t.HasQueue? || t.WaitsMapWrite? || t.Draining?
  }

  predicate BetweenLocks(t: Task)
  {
    t.HasDrained? || t.HasUpdated? || t.WaitsMapRead?
  }

  ghost predicate RegistryInv(s: State)
  {
    && s.drained <= |s.log|
    && Overlay(s.handlers, s.queue) == Replay(s.log)
    && (s.mapWriter == None ==> s.handlers == Replay(DrainedLog(s)))
    && (forall id :: id in s.tasks && ReadsMap(s.tasks[id]) ==> FoundInLog(s.log, s.tasks[id].run))
    && (forall id :: id in s.tasks && BetweenLocks(s.tasks[id]) ==> s.tasks[id].start <= s.drained)
    && (forall id :: id in s.tasks && BeforeDrained(s.tasks[id]) ==> s.tasks[id].start <= |s.log|)
  }

  ghost predicate Inv(s: State)
  {
    QueueLockInv(s) && MapLockInv(s) && RegistryInv(s)
  }

  lemma InitialInv()
    ensures Inv(INITIAL)
  {
    OverlayEmpty(map[]);
  }

  lemma DistinctTail(ids: seq<TaskId>)
    requires ids != [] && Distinct(ids)
    ensures Distinct(ids[1..])
    ensures forall id :: id in ids[1..] <==> id in ids && id != ids[0]
  {
    forall id | id in ids && id != ids[0] ensures id in ids[1..] {
      var i :| 0 <= i < |ids| && ids[i] == id;
      assert ids[1..][i - 1] == id;
    }
  }

  lemma QueueGranted(s: State)
    requires QueueLockInv(s) && Enabled(s, GrantQueue, false)
    ensures QueueLockInv(Apply(s, GrantQueue))
  {
    DistinctTail(s.queueWaiters);
    var next := Apply(s, GrantQueue);
    var id := s.queueWaiters[0];
    assert next.queueWaiters == s.queueWaiters[1..] && next.queueHolder == Some(id);
    assert HoldsQueue(next.tasks[id]) && !WaitsForQueue(next.tasks[id]);
    assert forall i :: i in s.tasks && i != id ==> next.tasks[i] == s.tasks[i];
  }

  lemma MapGranted(s: State)
    requires MapLockInv(s) && Enabled(s, GrantMap, false)
    ensures MapLockInv(Apply(s, GrantMap))
  {
    hide Lookup;
    DistinctTail(s.mapWaiters);
    var next := Apply(s, GrantMap);
    var id := s.mapWaiters[0];
    assert next.mapWaiters == s.mapWaiters[1..] && !WaitsForMap(next.tasks[id]);
    assert next.tasks == s.tasks[id := next.tasks[id]];
  }

  lemma DistinctAppend(ids: seq<TaskId>, id: TaskId)
    requires Distinct(ids) && id !in ids
    ensures Distinct(ids + [id])
    ensures forall i :: i in ids + [id] <==> i in ids || i == id
  {
  }

  predicate JoinsQueue(a: Action)
  {
    a.StartCall? || a.StartDispatch? || a.HandlerCalls?
  }

  lemma QueueJoined(s: State, a: Action)
    requires QueueLockInv(s) && Enabled(s, a, false) && JoinsQueue(a)
    ensures QueueLockInv(Apply(s, a))
  {
    DistinctAppend(s.queueWaiters, a.id);
    var next := Apply(s, a);
    assert next.queueWaiters == s.queueWaiters + [a.id] && next.queueHolder == s.queueHolder;
    assert WaitsForQueue(next.tasks[a.id]) && !HoldsQueue(next.tasks[a.id]);
    assert forall i :: i in s.tasks && i != a.id ==> next.tasks[i] == s.tasks[i];
  }

  lemma QueueReleased(s: State, a: Action)
    requires QueueLockInv(s) && Enabled(s, a, false) && (a.Insert? || a.LeaveQueue?)
    ensures QueueLockInv(Apply(s, a))
  {
    hide Lookup, Perform, Distinct;
    var next := Apply(s, a);
    assert next.queueWaiters == s.queueWaiters && s.queueHolder == Some(a.id);
    assert !HoldsQueue(next.tasks[a.id]) && !WaitsForQueue(next.tasks[a.id]);
    assert forall i :: i in s.tasks && i != a.id ==> next.tasks[i] == s.tasks[i];
  }

  lemma QueueUntouchedByGrant(s: State)
    requires QueueLockInv(s) && Enabled(s, GrantMap, false)
    ensures QueueLockInv(Apply(s, GrantMap))
  {
    hide Lookup, Distinct;
    var next, id := Apply(s, GrantMap), s.mapWaiters[0];
    assert next.queueWaiters == s.queueWaiters && next.queueHolder == s.queueHolder;
    assert next.tasks == s.tasks[id := next.tasks[id]];
    assert HoldsQueue(next.tasks[id]) == HoldsQueue(s.tasks[id]) && !WaitsForQueue(next.tasks[id]);
  }

  lemma QueueUntouched(s: State, a: Action)
    requires QueueLockInv(s) && Enabled(s, a, false)
    requires a.Finish? || a.FinishDrain? || a.AskForWrite? || a.AskForRead?
    ensures QueueLockInv(Apply(s, a))
  {
    hide Distinct;
    var next := Apply(s, a);
    assert next.queueWaiters == s.queueWaiters && next.queueHolder == s.queueHolder;
    assert next.tasks == s.tasks[a.id := next.tasks[a.id]];
    assert HoldsQueue(next.tasks[a.id]) == HoldsQueue(s.tasks[a.id]);
    assert !WaitsForQueue(next.tasks[a.id]) && !WaitsForQueue(s.tasks[a.id]);
  }

  lemma QueueUntouchedByPop(s: State, a: Action)
    requires QueueLockInv(s) && Enabled(s, a, false) && a.Pop?
    ensures QueueLockInv(Apply(s, a))
  {
    hide Perform, Distinct;
  }

  lemma MapJoined(s: State, a: Action)
    requires MapLockInv(s) && Enabled(s, a, false) && (a.AskForWrite? || a.AskForRead?)
    ensures MapLockInv(Apply(s, a))
  {
    hide Distinct;
    assert a.id !in s.mapWaiters;
    DistinctAppend(s.mapWaiters, a.id);
    var next := Apply(s, a);
    assert next.mapWaiters == s.mapWaiters + [a.id];
    assert next.mapWriter == s.mapWriter && next.mapReaders == s.mapReaders;
    assert next.tasks == s.tasks[a.id := next.tasks[a.id]];
  }

  lemma MapReleased(s: State, a: Action)
    requires MapLockInv(s) && Enabled(s, a, false) && (a.FinishDrain? || a.Finish?)
    ensures MapLockInv(Apply(s, a))
  {
    hide Distinct;
    var next := Apply(s, a);
    assert next.mapWaiters == s.mapWaiters;
    assert next.tasks == s.tasks[a.id := next.tasks[a.id]];
  }

  lemma MapUntouchedByGrant(s: State)
    requires MapLockInv(s) && Enabled(s, GrantQueue, false)
    ensures MapLockInv(Apply(s, GrantQueue))
  {
    hide Distinct;
    var next, id := Apply(s, GrantQueue), s.queueWaiters[0];
    assert next.tasks == s.tasks[id := next.tasks[id]];
    assert ReadsMap(next.tasks[id]) == ReadsMap(s.tasks[id]);
    assert !next.tasks[id].Draining? && !s.tasks[id].Draining?;
    assert !WaitsForMap(next.tasks[id]) && !WaitsForMap(s.tasks[id]);
  }

  lemma MapUntouched(s: State, a: Action)
    requires MapLockInv(s) && Enabled(s, a, false)
    requires JoinsQueue(a) || a.Insert? || a.Pop? || a.LeaveQueue?
    ensures MapLockInv(Apply(s, a))
  {
    hide Perform, Distinct;
    var next := Apply(s, a);
    assert next.mapWriter == s.mapWriter && next.mapReaders == s.mapReaders && next.mapWaiters == s.mapWaiters;
    if a.Pop? {
      assert next.tasks == s.tasks;
    } else {
      assert next.tasks == s.tasks[a.id := next.tasks[a.id]];
      assert !next.tasks[a.id].Draining? && !WaitsForMap(next.tasks[a.id]);
    }
  }

  lemma LockStep(s: State, a: Action)
    requires QueueLockInv(s) && MapLockInv(s) && Enabled(s, a, false)
    ensures QueueLockInv(Apply(s, a)) && MapLockInv(Apply(s, a))
  {
    hide QueueLockInv, MapLockInv, Apply;
    if a.GrantQueue? {
      QueueGranted(s);
    } else if JoinsQueue(a) {
      QueueJoined(s, a);
    } else if a.Insert? || a.LeaveQueue? {
      QueueReleased(s, a);
    } else if a.GrantMap? {
      QueueUntouchedByGrant(s);
    } else if a.Pop? {
      QueueUntouchedByPop(s, a);
    } else {
      QueueUntouched(s, a);
    }
    if a.GrantMap? {
      MapGranted(s);
    } else if a.AskForWrite? || a.AskForRead? {
      MapJoined(s, a);
    } else if a.FinishDrain? || a.Finish? {
      MapReleased(s, a);
    } else if a.GrantQueue? {
      MapUntouchedByGrant(s);
    } else {
      MapUntouched(s, a);
    }
  }

  // ---------- the registry refines the log ----------

  lemma PrefixKept(log: seq<Call>, call: Call, run: Lookups)
    requires FoundInLog(log, run)
    ensures FoundInLog(log + [call], run)
  {
    assert (log + [call])[..run.at] == log[..run.at];
  }

  lemma RegistryInsert(s: State, id: TaskId)
    requires Inv(s) && Enabled(s, Insert(id), false)
    ensures RegistryInv(Apply(s, Insert(id)))
  {
    hide QueueLockInv, Lookup, FoundInLog, Overlay, Perform;
    var call := s.tasks[id].call;
    var next := Apply(s, Insert(id));
    OverlayInsert(s.handlers, s.queue, call);
    assert next.log[..|next.log| - 1] == s.log;
    assert DrainedLog(next) == DrainedLog(s);
    forall i | i in s.tasks && ReadsMap(s.tasks[i]) ensures FoundInLog(next.log, s.tasks[i].run) {
      PrefixKept(s.log, call, s.tasks[i].run);
    }
    assert s.tasks[id].HandlerHolds? ==> ReadsMap(s.tasks[id]);
  }

  lemma RegistryGrantMap(s: State)
    requires Inv(s) && Enabled(s, GrantMap, false)
    ensures RegistryInv(Apply(s, GrantMap))
  {
    hide QueueLockInv, Overlay, Replay, Lookup;
    var next, id := Apply(s, GrantMap), s.mapWaiters[0];
    assert s.tasks[id].WaitsMapRead? ==> s.handlers == Replay(DrainedLog(s)) && FoundInLog(s.log, next.tasks[id].run);
    hide FoundInLog;
    assert next.tasks == s.tasks[id := next.tasks[id]];
  }

  lemma RegistryDrain(s: State, a: Action)
    requires Inv(s) && Enabled(s, a, false) && (a.Pop? || a.FinishDrain?)
    ensures RegistryInv(Apply(s, a))
  {
    hide QueueLockInv, Lookup, FoundInLog, Overlay, Perform;
    assert s.mapWriter == Some(a.id);
    if a.Pop? {
      OverlayPop(s.handlers, s.queue, a.key);
    } else {
      OverlayEmpty(s.handlers);
      assert s.log[..|s.log|] == s.log;
    }
  }

  lemma RegistryOther(s: State, a: Action)
    requires RegistryInv(s) && Enabled(s, a, false)
    requires a.Finish? || a.AskForWrite? || a.AskForRead? || a.LeaveQueue?
    ensures RegistryInv(Apply(s, a))
  {
    hide FoundInLog, Overlay, Replay;
    assert Apply(s, a).tasks == s.tasks[a.id := Apply(s, a).tasks[a.id]];
  }

  lemma RegistryJoinQueue(s: State, a: Action)
    requires RegistryInv(s) && Enabled(s, a, false) && JoinsQueue(a)
    ensures RegistryInv(Apply(s, a))
  {
    hide FoundInLog, Overlay, Replay;
    assert Apply(s, a).tasks == s.tasks[a.id := Apply(s, a).tasks[a.id]];
  }

  lemma RegistryGrantQueue(s: State)
    requires RegistryInv(s) && Enabled(s, GrantQueue, false)
    ensures RegistryInv(Apply(s, GrantQueue))
  {
    hide FoundInLog, Overlay, Replay;
    var next, id := Apply(s, GrantQueue), s.queueWaiters[0];
    assert next.tasks == s.tasks[id := next.tasks[id]];
  }

  lemma StepKeepsInv(s: State, a: Action)
    requires Inv(s) && Enabled(s, a, false)
    ensures Inv(Apply(s, a))
  {
    hide QueueLockInv, MapLockInv, RegistryInv, Apply;
    LockStep(s, a);
    if a.Insert? {
      RegistryInsert(s, a.id);
    } else if a.GrantMap? {
      RegistryGrantMap(s);
    } else if a.Pop? || a.FinishDrain? {
      RegistryDrain(s, a);
    } else if a.GrantQueue? {
      assert RegistryInv(s);
      RegistryGrantQueue(s);
    } else if JoinsQueue(a) {
      assert RegistryInv(s);
      RegistryJoinQueue(s, a);
    } else {
      assert RegistryInv(s);
      RegistryOther(s, a);
    }
  }

  lemma {:induction false} RunKeepsInv(s: State, actions: seq<Action>, solo: bool)
    requires Inv(s) && IsRun(s, actions, solo)
    ensures Inv(After(s, actions, solo))
    decreases |actions|
  {
    hide Inv, Apply;
    if actions != [] {
      StepKeepsInv(s, actions[0]);
      RunKeepsInv(Apply(s, actions[0]), actions[1..], solo);
    }
  }

  /** In every reachable state, with any number of dispatches at once: the handler that a dispatch runs is
      the one that a plain log of all register and drop calls gives, cut off at some point that includes
      every call made before the dispatch started. */
  lemma DispatchFindsLogged(actions: seq<Action>, solo: bool, id: TaskId)
    requires IsRun(INITIAL, actions, solo)
    requires var s := After(INITIAL, actions, solo); id in s.tasks && ReadsMap(s.tasks[id])
    ensures var s := After(INITIAL, actions, solo); FoundInLog(s.log, s.tasks[id].run)
  {
    InitialInv();
    RunKeepsInv(INITIAL, actions, solo);
  }

  function StartOf(t: Task): nat
    requires InDispatch(t)
  {
    if BeforeDrained(t) || BetweenLocks(t) then t.start else t.run.start
  }

  /** The task that an action moves. */
  function Mover(s: State, a: Action): TaskId
    requires Enabled(s, a, false)
  {
    match a
    case GrantQueue => s.queueWaiters[0]
    case GrantMap => s.mapWaiters[0]
    case _ => a.id
  }

  lemma OthersStay(s: State, a: Action)
    requires Enabled(s, a, false)
    ensures var next, id := Apply(s, a), Mover(s, a);
            s.log <= next.log && id in next.tasks && next.tasks == s.tasks[id := next.tasks[id]]
  {
    hide Lookup, Perform;
  }

  lemma StartStays(s: State, a: Action)
    requires Enabled(s, a, false)
    ensures var next, id := Apply(s, a), Mover(s, a);
            && id in next.tasks
            && (id in s.tasks && InDispatch(s.tasks[id]) && InDispatch(next.tasks[id]) ==>
                  StartOf(next.tasks[id]) == StartOf(s.tasks[id]))
            && (InDispatch(next.tasks[id]) && (id in s.tasks ==> !InDispatch(s.tasks[id])) ==>
                  a.StartDispatch? && StartOf(next.tasks[id]) == |s.log|)
  {
    hide Lookup, Perform;
  }

  /** The log has at least `n` calls, and every dispatch by a task not in `known` started with at least that many. */
  ghost predicate StartsAfter(s: State, known: set<TaskId>, n: nat)
  {
    |s.log| >= n
    && forall i :: i in s.tasks && i !in known && InDispatch(s.tasks[i]) ==> StartOf(s.tasks[i]) >= n
  }

  lemma StartsAfterStep(s: State, a: Action, known: set<TaskId>, n: nat)
    requires StartsAfter(s, known, n) && known <= s.tasks.Keys && Enabled(s, a, false)
    ensures StartsAfter(Apply(s, a), known, n) && known <= Apply(s, a).tasks.Keys
    ensures s.log <= Apply(s, a).log
  {
    OthersStay(s, a);
    StartStays(s, a);
    hide Apply, Enabled, Mover, StartOf;
  }

  lemma {:induction false} StartsAfterRun(s: State, actions: seq<Action>, solo: bool, known: set<TaskId>, n: nat)
    requires StartsAfter(s, known, n) && known <= s.tasks.Keys && IsRun(s, actions, solo)
    ensures StartsAfter(After(s, actions, solo), known, n) && s.log <= After(s, actions, solo).log
    decreases |actions|
  {
    hide Apply, StartsAfter;
    if actions != [] {
      StartsAfterStep(s, actions[0], known, n);
      StartsAfterRun(Apply(s, actions[0]), actions[1..], solo, known, n);
    }
  }

  /** A call that a running handler makes, in any run, comes after everything its own dispatch saw; and
      every dispatch that starts after it, by whatever task, sees it. */
  lemma HandlerCallIsForLater(before: seq<Action>, id: TaskId, after: seq<Action>, other: TaskId, solo: bool)
    requires IsRun(INITIAL, before, solo)
    requires var s := After(INITIAL, before, solo);
             && id in s.tasks && s.tasks[id].HandlerHolds?
             && IsRun(Apply(s, Insert(id)), after, solo)
             && var later := After(Apply(s, Insert(id)), after, solo);
                other in later.tasks && other !in s.tasks && ReadsMap(later.tasks[other])
    ensures var s := After(INITIAL, before, solo);
            var later := After(Apply(s, Insert(id)), after, solo);
            var mine, theirs := s.tasks[id].run, later.tasks[other].run;
            && Apply(s, Insert(id)).tasks[id] == Running(mine)
            && mine.at <= |s.log| < theirs.at <= |later.log|
            && later.log[|s.log|] == s.tasks[id].call
  {
    hide Inv, Replay, Lookup;
    InitialInv();
    RunKeepsInv(INITIAL, before, solo);
    var s := After(INITIAL, before, solo);
    StepKeepsInv(s, Insert(id));
    var next := Apply(s, Insert(id));
    RunKeepsInv(next, after, solo);
    StartsAfterRun(next, after, solo, next.tasks.Keys, |next.log|);
    FoundIn(s, id);
    FoundIn(After(next, after, solo), other);
  }

  lemma FoundIn(s: State, id: TaskId)
    requires Inv(s) && id in s.tasks && ReadsMap(s.tasks[id])
    ensures FoundInLog(s.log, s.tasks[id].run)
  {
  }

  // ---------- deadlock ----------

  /** The steps that finish what has been started. */
  predicate IsWork(a: Action)
  {
    !a.StartCall? && !a.StartDispatch? && !a.HandlerCalls?
  }

  ghost predicate Unfinished(s: State)
  {
    exists id :: id in s.tasks && !s.tasks[id].Finished?
  }

  ghost predicate CanProgress(s: State)
  {
    exists a :: IsWork(a) && Enabled(s, a, false)
  }

  /** A dispatch holds the queue and waits for the map, next in line, while every reader of the map is a
      handler that waits for the queue. */
  ghost predicate Deadlocked(s: State)
  {
    && s.queueHolder.Some? && s.queueHolder.value in s.tasks
    && s.tasks[s.queueHolder.value].WaitsMapWrite?
    && s.mapWaiters != [] && s.mapWaiters[0] == s.queueHolder.value
    && s.mapReaders != {}
    && forall r :: r in s.mapReaders ==> r in s.tasks && s.tasks[r].HandlerWaits?
  }

  /** No dispatch has let go of both locks without yet having asked for the map again. */
  predicate NoneArriving(s: State)
  {
    forall id :: id in s.tasks ==> !s.tasks[id].HasUpdated?
  }

  lemma DeadlockedIsStuck(s: State, a: Action)
    requires QueueLockInv(s) && MapLockInv(s) && Deadlocked(s)
    requires !a.StartCall? && !a.StartDispatch? && !a.AskForRead?
    ensures !Enabled(s, a, false)
  {
    var h := s.queueHolder.value;
    match a
    case HandlerCalls(id, _) => assert id in s.tasks && s.tasks[id].Running? ==> id in s.mapReaders;
    case Finish(id) => assert id in s.tasks && s.tasks[id].Running? ==> id in s.mapReaders;
    case Insert(id) => assert id in s.tasks && HoldsQueue(s.tasks[id]) ==> id == h;
    case Pop(id, _) => assert id in s.tasks && HoldsQueue(s.tasks[id]) ==> id == h;
    case FinishDrain(id) => assert id in s.tasks && HoldsQueue(s.tasks[id]) ==> id == h;
    case AskForWrite(id) => assert id in s.tasks && HoldsQueue(s.tasks[id]) ==> id == h;
    case LeaveQueue(id) => assert id in s.tasks && HoldsQueue(s.tasks[id]) ==> id == h;
    case _ =>
  }

  /** The queue holder can move on, or lets someone else move on, unless it is deadlocked. */
  lemma HolderProgress(s: State, h: TaskId) returns (a: Action)
    requires QueueLockInv(s) && MapLockInv(s) && !Deadlocked(s) && s.queueHolder == Some(h)
    ensures IsWork(a) && Enabled(s, a, false)
  {
    var t := s.tasks[h];
    if t.CallHolds? || t.HandlerHolds? {
      a := Insert(h);
    } else if t.HasQueue? {
      a := AskForWrite(h);
    } else if t.HasDrained? {
      a := LeaveQueue(h);
    } else if t.Draining? {
      if s.queue == map[] {
        a := FinishDrain(h);
      } else {
        var key :| key in s.queue;
        a := Pop(h, key);
      }
    } else {
      assert s.mapWriter.Some? ==> s.queueHolder == s.mapWriter;
      assert h in s.mapWaiters;
      var x := s.mapWaiters[0];
      assert x in s.mapWaiters;
      assert s.tasks[x].WaitsMapWrite? ==> x == h;
      if s.tasks[x].WaitsMapWrite? && s.mapReaders != {} {
        var r :| r in s.mapReaders && !(r in s.tasks && s.tasks[r].HandlerWaits?);
        assert !s.tasks[r].HandlerHolds?;
        a := Finish(r);
      } else {
        a := GrantMap;
      }
    }
  }

  lemma Progress(s: State) returns (a: Action)
    requires QueueLockInv(s) && MapLockInv(s) && Unfinished(s) && !Deadlocked(s)
    ensures IsWork(a) && Enabled(s, a, false)
  {
    if s.queueHolder.Some? {
      a := HolderProgress(s, s.queueHolder.value);
    } else if s.queueWaiters != [] {
      assert s.queueWaiters[0] in s.queueWaiters;
      a := GrantQueue;
    } else {
      var id :| id in s.tasks && !s.tasks[id].Finished?;
      if s.tasks[id].Running? {
        a := Finish(id);
      } else if s.tasks[id].HasUpdated? {
        a := AskForRead(id);
      } else {
        assert !HoldsQueue(s.tasks[id]) && !WaitsForQueue(s.tasks[id]);
        assert id in s.mapWaiters && s.mapWaiters[0] in s.mapWaiters;
        assert !HoldsQueue(s.tasks[s.mapWaiters[0]]);
        assert s.mapWriter.Some? ==> s.queueHolder == s.mapWriter;
        a := GrantMap;
      }
    }
  }

  /** Without the whole run: what an inductive invariant gives. */
  lemma StuckExact(s: State)
    requires QueueLockInv(s) && MapLockInv(s) && Unfinished(s)
    ensures !CanProgress(s) <==> Deadlocked(s) && NoneArriving(s)
  {
    hide QueueLockInv, MapLockInv, Deadlocked, Unfinished;
    if !NoneArriving(s) {
      var id :| id in s.tasks && s.tasks[id].HasUpdated?;
      assert IsWork(AskForRead(id)) && Enabled(s, AskForRead(id), false);
    } else if Deadlocked(s) {
      forall a | IsWork(a) ensures !Enabled(s, a, false) {
        if !a.AskForRead? {
          DeadlockedIsStuck(s, a);
        }
      }
    } else {
      var a := Progress(s);
    }
  }

  /** With any number of dispatches, in every reachable state with unfinished work: no step is possible
      exactly in the states called deadlocked above, once whoever was still to join the map's line has. */
  lemma DeadlockExact(actions: seq<Action>, solo: bool)
    requires IsRun(INITIAL, actions, solo) && Unfinished(After(INITIAL, actions, solo))
    ensures var s := After(INITIAL, actions, solo); !CanProgress(s) <==> Deadlocked(s) && NoneArriving(s)
  {
    hide Enabled, IsRun, After;
    InitialInv();
    RunKeepsInv(INITIAL, actions, solo);
    StuckExact(After(INITIAL, actions, solo));
  }

  lemma DeadlockedStep(s: State, a: Action)
    requires QueueLockInv(s) && MapLockInv(s) && Deadlocked(s) && Enabled(s, a, false)
    ensures Deadlocked(Apply(s, a))
  {
    if !a.StartCall? && !a.StartDispatch? && !a.AskForRead? {
      DeadlockedIsStuck(s, a);
    } else {
      var next := Apply(s, a);
      assert next.mapReaders == s.mapReaders && next.mapWaiters[0] == s.mapWaiters[0];
      assert forall i :: i in s.tasks && i != a.id ==> next.tasks[i] == s.tasks[i];
      assert a.id in s.tasks ==> a.id !in s.mapReaders && a.id != s.queueHolder.value;
    }
  }

  /** A deadlock is for ever, whatever tasks are started. */
  lemma {:induction false} DeadlockPersists(s: State, actions: seq<Action>)
    requires Inv(s) && Deadlocked(s) && IsRun(s, actions, false)
    ensures Deadlocked(After(s, actions, false))
    decreases |actions|
  {
    if actions != [] {
      assert QueueLockInv(s) && MapLockInv(s);
      hide Inv, Apply, Enabled, Deadlocked, QueueLockInv, MapLockInv;
      DeadlockedStep(s, actions[0]);
      StepKeepsInv(s, actions[0]);
      DeadlockPersists(Apply(s, actions[0]), actions[1..]);
    }
  }

  // ---------- handlers that make no calls ----------

  predicate Quiet(actions: seq<Action>)
  {
    forall i :: 0 <= i < |actions| ==> !actions[i].HandlerCalls?
  }

  predicate NoHandlerCall(s: State)
  {
    forall i :: i in s.tasks ==> !s.tasks[i].HandlerWaits? && !s.tasks[i].HandlerHolds?
  }

  lemma QuietStep(s: State, a: Action)
    requires NoHandlerCall(s) && Enabled(s, a, false) && !a.HandlerCalls?
    ensures NoHandlerCall(Apply(s, a))
  {
    hide Lookup, Perform;
  }

  lemma {:induction false} QuietRun(s: State, actions: seq<Action>)
    requires NoHandlerCall(s) && IsRun(s, actions, false) && Quiet(actions)
    ensures NoHandlerCall(After(s, actions, false))
    decreases |actions|
  {
    hide Apply, Enabled, NoHandlerCall;
    if actions != [] {
      assert !actions[0].HandlerCalls? && Quiet(actions[1..]);
      QuietStep(s, actions[0]);
      QuietRun(Apply(s, actions[0]), actions[1..]);
    }
  }

  /** While no handler registers or drops anything, any number of dispatches can overlap. */
  lemma QuietDeadlockFree(actions: seq<Action>)
    requires IsRun(INITIAL, actions, false) && Quiet(actions) && Unfinished(After(INITIAL, actions, false))
    ensures CanProgress(After(INITIAL, actions, false))
  {
    hide Enabled, IsRun, After;
    DeadlockExact(actions, false);
    QuietRun(INITIAL, actions);
    NoCallNoDeadlock(After(INITIAL, actions, false));
  }

  lemma NoCallNoDeadlock(s: State)
    requires NoHandlerCall(s)
    ensures !Deadlocked(s)
  {
  }

  predicate OneDispatch(s: State)
  {
    forall i, j :: i in s.tasks && j in s.tasks && InDispatch(s.tasks[i]) && InDispatch(s.tasks[j]) ==> i == j
  }

  lemma OneDispatchStep(s: State, a: Action)
    requires OneDispatch(s) && Enabled(s, a, true)
    ensures Enabled(s, a, false) && OneDispatch(Apply(s, a))
  {
    OthersStay(s, a);
    StartStays(s, a);
    hide Apply, Mover, StartOf;
  }

  lemma {:induction false} SoloRunOneDispatch(s: State, actions: seq<Action>)
    requires OneDispatch(s) && IsRun(s, actions, true)
    ensures OneDispatch(After(s, actions, true))
    decreases |actions|
  {
    hide Apply, Enabled, OneDispatch;
    if actions != [] {
      OneDispatchStep(s, actions[0]);
      SoloRunOneDispatch(Apply(s, actions[0]), actions[1..]);
    }
  }

  /** The dispatch that holds the queue and a handler that waits for it are two dispatches. */
  lemma OneDispatchNoDeadlock(s: State)
    requires OneDispatch(s)
    ensures !Deadlocked(s)
  {
    forall r | Deadlocked(s) && r in s.mapReaders ensures InDispatch(s.tasks[r]) && r != s.queueHolder.value {
    }
  }

  /** With at most one dispatch at a time, and any number of other tasks and of calls from its handler,
      there is always a next step until all work is finished. */
  lemma DeadlockFree(actions: seq<Action>)
    requires IsRun(INITIAL, actions, true) && Unfinished(After(INITIAL, actions, true))
    ensures CanProgress(After(INITIAL, actions, true))
  {
    hide Enabled, IsRun, After;
    DeadlockExact(actions, true);
    SoloRunOneDispatch(INITIAL, actions);
    OneDispatchNoDeadlock(After(INITIAL, actions, true));
  }

  // ---------- the restriction is needed ----------

  lemma {:induction false} RunSnoc(s: State, actions: seq<Action>, a: Action)
    requires IsRun(s, actions, false) && Enabled(After(s, actions, false), a, false)
    ensures IsRun(s, actions + [a], false)
    ensures After(s, actions + [a], false) == Apply(After(s, actions, false), a)
    decreases |actions|
  {
    hide Apply, Enabled;
    if actions == [] {
      assert [a][1..] == [];
      assert actions + [a] == [a];
    } else {
      assert (actions + [a])[1..] == actions[1..] + [a];
      RunSnoc(Apply(s, actions[0]), actions[1..], a);
    }
  }

  /** A reachable state, given by the run that reaches it. */
  ghost predicate Reaches(actions: seq<Action>, s: State)
  {
    IsRun(INITIAL, actions, false) && After(INITIAL, actions, false) == s
  }

  lemma ReachesNext(actions: seq<Action>, s: State, a: Action, next: State)
    requires Reaches(actions, s) && Enabled(s, a, false) && Apply(s, a) == next
    ensures Reaches(actions + [a], next)
  {
    RunSnoc(INITIAL, actions, a);
  }

  lemma ReachedExact(actions: seq<Action>, s: State)
    requires Reaches(actions, s)
    ensures Unfinished(s) ==> (!CanProgress(s) <==> Deadlocked(s) && NoneArriving(s))
  {
    hide Deadlocked, NoneArriving, CanProgress;
    if Unfinished(s) {
      DeadlockExact(actions, false);
    }
  }

  /** Object 5 has handler 7, dispatch 1 is running it, and nothing else is going on. */
  function HandlerRunning(): State
  {
    State(map[0 := Finished, 1 := Running(Lookups(5, 1, 1, Some(7)))],
          None, [], None, {1}, [], map[5 := 7], map[], [Call(5, Register(7))], 1)
  }

  /** Object 5's handler is registered but not yet in the map. */
  function HandlerQueued(): State
  {
    INITIAL.(tasks := map[0 := Finished], queue := map[5 := Register(7)], log := [Call(5, Register(7))])
  }

  lemma ReachHandlerQueued() returns (actions: seq<Action>)
    ensures Reaches(actions, HandlerQueued())
  {
    var call := Call(5, Register(7));
    var s1 := INITIAL.(tasks := map[0 := CallWaits(call)], queueWaiters := [0]);
    var s2 := INITIAL.(tasks := map[0 := CallHolds(call)], queueHolder := Some(0));
    ReachesNext([], INITIAL, StartCall(0, call), s1);
    actions := [] + [StartCall(0, call)];
    ReachesNext(actions, s1, GrantQueue, s2);
    actions := actions + [GrantQueue];
    ReachesNext(actions, s2, Insert(0), HandlerQueued());
    actions := actions + [Insert(0)];
  }

  /** Dispatch 1 holds both locks and is about to drain. */
  function HandlerDraining(): State
  {
    HandlerQueued().(tasks := map[0 := Finished, 1 := Draining(5, 1)], queueHolder := Some(1), mapWriter := Some(1))
  }

  /** Dispatch 1 holds the queue. */
  function QueueTaken(): State
  {
    HandlerQueued().(tasks := map[0 := Finished, 1 := HasQueue(5, 1)], queueHolder := Some(1))
  }

  lemma ReachQueueTaken() returns (actions: seq<Action>)
    ensures Reaches(actions, QueueTaken())
  {
    hide Reaches;
    actions := ReachHandlerQueued();
    var s := HandlerQueued();
    var s1 := s.(tasks := map[0 := Finished, 1 := WaitsQueue(5, 1)], queueWaiters := [1]);
    ReachesNext(actions, s, StartDispatch(1, 5), s1);
    actions := actions + [StartDispatch(1, 5)];
    ReachesNext(actions, s1, GrantQueue, QueueTaken());
    actions := actions + [GrantQueue];
  }

  lemma ReachHandlerDraining() returns (actions: seq<Action>)
    ensures Reaches(actions, HandlerDraining())
  {
    hide Reaches;
    actions := ReachQueueTaken();
    var s := QueueTaken();
    var s1 := s.(tasks := map[0 := Finished, 1 := WaitsMapWrite(5, 1)], mapWaiters := [1]);
    ReachesNext(actions, s, AskForWrite(1), s1);
    actions := actions + [AskForWrite(1)];
    ReachesNext(actions, s1, GrantMap, HandlerDraining());
    actions := actions + [GrantMap];
  }

  /** It has drained, and holds neither lock. */
  function HandlerUpdated(): State
  {
    HandlerRunning().(tasks := map[0 := Finished, 1 := HasUpdated(5, 1)], mapReaders := {})
  }

  lemma ReachHandlerUpdated() returns (actions: seq<Action>)
    ensures Reaches(actions, HandlerUpdated())
  {
    hide Reaches;
    actions := ReachHandlerDraining();
    var s := HandlerDraining();
    var s1 := s.(queue := map[], handlers := map[5 := 7]);
    var s2 := s1.(tasks := map[0 := Finished, 1 := HasDrained(5, 1)], mapWriter := None, drained := 1);
    ReachesNext(actions, s, Pop(1, 5), s1);
    actions := actions + [Pop(1, 5)];
    ReachesNext(actions, s1, FinishDrain(1), s2);
    actions := actions + [FinishDrain(1)];
    ReachesNext(actions, s2, LeaveQueue(1), HandlerUpdated());
    actions := actions + [LeaveQueue(1)];
  }

  lemma ReachHandlerRunning() returns (actions: seq<Action>)
    ensures Reaches(actions, HandlerRunning())
  {
    hide Reaches;
    actions := ReachHandlerUpdated();
    var s := HandlerUpdated();
    var s1 := s.(tasks := map[0 := Finished, 1 := WaitsMapRead(5, 1)], mapWaiters := [1]);
    ReachesNext(actions, s, AskForRead(1), s1);
    actions := actions + [AskForRead(1)];
    ReachesNext(actions, s1, GrantMap, HandlerRunning());
    actions := actions + [GrantMap];
  }

  /** While handler 7 runs, a second dispatch has taken the queue and waits for the map. */
  function SecondWaits(): State
  {
    HandlerRunning().(tasks := HandlerRunning().tasks[2 := WaitsMapWrite(5, 1)], queueHolder := Some(2),
                      mapWaiters := [2])
  }

  lemma ReachSecondWaits() returns (actions: seq<Action>)
    ensures Reaches(actions, SecondWaits())
  {
    hide Reaches;
    actions := ReachHandlerRunning();
    var s := HandlerRunning();
    var s1 := s.(tasks := s.tasks[2 := WaitsQueue(5, 1)], queueWaiters := [2]);
    var s2 := s.(tasks := s.tasks[2 := HasQueue(5, 1)], queueHolder := Some(2));
    ReachesNext(actions, s, StartDispatch(2, 5), s1);
    actions := actions + [StartDispatch(2, 5)];
    ReachesNext(actions, s1, GrantQueue, s2);
    actions := actions + [GrantQueue];
    ReachesNext(actions, s2, AskForWrite(2), SecondWaits());
    actions := actions + [AskForWrite(2)];
  }

  /** Two dispatches at once can deadlock: the second takes the queue and waits for the map, which the
      first one's handler keeps read-locked while it waits for the queue to drop its own object. */
  lemma TwoDispatchesDeadlock()
    ensures exists actions, s :: Reaches(actions, s) && Unfinished(s) && Deadlocked(s) && !CanProgress(s)
  {
    hide Reaches;
    var actions := ReachSecondWaits();
    var s, drop := SecondWaits(), Call(5, Unregister);
    var next := s.(tasks := s.tasks[1 := HandlerWaits(s.tasks[1].run, drop)], queueWaiters := [1]);
    ReachesNext(actions, s, HandlerCalls(1, drop), next);
    actions := actions + [HandlerCalls(1, drop)];
    ReachedExact(actions, next);
    assert !next.tasks[1].Finished?;
    assert Deadlocked(next) && NoneArriving(next);
  }
}
