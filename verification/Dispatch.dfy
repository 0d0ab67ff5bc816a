/** Tasks that register, drop and dispatch handlers, interleaved in any way, with the two
    first-come-first-served read-write locks they use: the steps between suspension points. */
module Dispatch {
  import opened Base
  import opened Registry

  type TaskId = nat

  /** A dispatch in progress: the packet's object, the length of the call log when it started, the length
      of the log that the handler map stood for when it was looked up, and what was found. */
  datatype Lookups = Lookups(target: ObjectId, start: nat, at: nat, found: Option<Handler>)

  /** Where a task stands. The first two belong to `register_handler` and `drop_handler`, the rest to
      `dispatch`, whose handler may itself register or drop while the map is read-locked. */
  datatype Task =
    | CallWaits(call: Call)
    | CallHolds(call: Call)
    | WaitsQueue(target: ObjectId, start: nat)
    | HasQueue(target: ObjectId, start: nat)
    | WaitsMapWrite(target: ObjectId, start: nat)
    | Draining(target: ObjectId, start: nat)
    | HasDrained(target: ObjectId, start: nat)    // the map is released, the queue not yet
    | HasUpdated(target: ObjectId, start: nat)    // both are released
    | WaitsMapRead(target: ObjectId, start: nat)
    | Running(run: Lookups)
    | HandlerWaits(run: Lookups, call: Call)
    | HandlerHolds(run: Lookups, call: Call)
    | Finished

  datatype State = State(
    tasks: map<TaskId, Task>,
    queueHolder: Option<TaskId>, queueWaiters: seq<TaskId>,
    mapWriter: Option<TaskId>, mapReaders: set<TaskId>, mapWaiters: seq<TaskId>,
    handlers: Handlers, queue: Queue,
    log: seq<Call>, drained: nat)   // history: all calls made, and how many the map stands for

  const INITIAL := State(map[], None, [], None, {}, [], map[], map[], [], 0)

  datatype Action =
    | StartCall(id: TaskId, call: Call)
    | StartDispatch(id: TaskId, target: ObjectId)
    | HandlerCalls(id: TaskId, call: Call)
    | GrantQueue
    | Insert(id: TaskId)
    | AskForWrite(id: TaskId)
    | GrantMap
    | Pop(id: TaskId, key: ObjectId)
    | FinishDrain(id: TaskId)
    | LeaveQueue(id: TaskId)
    | AskForRead(id: TaskId)
    | Finish(id: TaskId)

  predicate InDispatch(t: Task)
  {
    !t.CallWaits? && !t.CallHolds? && !t.Finished?
  }

  predicate HoldsQueue(t: Task)
  {
    t.CallHolds? || t.HasQueue? || t.WaitsMapWrite? || t.Draining? || t.HasDrained? || t.HandlerHolds?
  }

  predicate WaitsForQueue(t: Task)
  {
    t.CallWaits? || t.WaitsQueue? || t.HandlerWaits?
  }

  predicate ReadsMap(t: Task)
  {
    t.Running? || t.HandlerWaits? || t.HandlerHolds?
  }

  predicate WaitsForMap(t: Task)
  {
    t.WaitsMapWrite? || t.WaitsMapRead?
  }

  /** With `solo`, a dispatch starts only while no other is in progress. */
  predicate Enabled(s: State, a: Action, solo: bool)
  {
    match a
    case StartCall(id, _) => id !in s.tasks
    case StartDispatch(id, _) => id !in s.tasks && (solo ==> forall i :: i in s.tasks ==> !InDispatch(s.tasks[i]))
    case HandlerCalls(id, _) => id in s.tasks && s.tasks[id].Running? && s.tasks[id].run.found.Some?
    case GrantQueue =>
      s.queueHolder == None && s.queueWaiters != [] && s.queueWaiters[0] in s.tasks
      && WaitsForQueue(s.tasks[s.queueWaiters[0]])
    case Insert(id) => id in s.tasks && (s.tasks[id].CallHolds? || s.tasks[id].HandlerHolds?)
    case GrantMap =>
      s.mapWriter == None && s.mapWaiters != [] && s.mapWaiters[0] in s.tasks
      && var t := s.tasks[s.mapWaiters[0]];
         WaitsForMap(t) && (t.WaitsMapWrite? ==> s.mapReaders == {})
    case Pop(id, key) => id in s.tasks && s.tasks[id].Draining? && key in s.queue
    case AskForWrite(id) => id in s.tasks && s.tasks[id].HasQueue?
    case FinishDrain(id) => id in s.tasks && s.tasks[id].Draining? && s.queue == map[]
    case LeaveQueue(id) => id in s.tasks && s.tasks[id].HasDrained?
    case AskForRead(id) => id in s.tasks && s.tasks[id].HasUpdated?
    case Finish(id) => id in s.tasks && s.tasks[id].Running?
  }

  function Set(s: State, id: TaskId, t: Task): State
  {
    s.(tasks := s.tasks[id := t])
  }

  function Apply(s: State, a: Action): State
    requires Enabled(s, a, false)
  {
    match a
    case StartCall(id, call) => Set(s, id, CallWaits(call)).(queueWaiters := s.queueWaiters + [id])
    case StartDispatch(id, target) =>
      Set(s, id, WaitsQueue(target, |s.log|)).(queueWaiters := s.queueWaiters + [id])
    case HandlerCalls(id, call) =>
      Set(s, id, HandlerWaits(s.tasks[id].run, call)).(queueWaiters := s.queueWaiters + [id])
    case GrantQueue =>
      var id := s.queueWaiters[0];
      var granted := s.(queueHolder := Some(id), queueWaiters := s.queueWaiters[1..]);
      (match s.tasks[id]
       case CallWaits(call) => Set(granted, id, CallHolds(call))
       case HandlerWaits(run, call) => Set(granted, id, HandlerHolds(run, call))
       case WaitsQueue(target, start) => Set(granted, id, HasQueue(target, start)))
    case AskForWrite(id) =>
      Set(s, id, WaitsMapWrite(s.tasks[id].target, s.tasks[id].start)).(mapWaiters := s.mapWaiters + [id])
    case Insert(id) =>
      var call := s.tasks[id].call;
      var after := if s.tasks[id].CallHolds? then Finished else Running(s.tasks[id].run);
      Set(s, id, after).(queueHolder := None, queue := s.queue[call.objectId := call.operation], log := s.log + [call])
    case GrantMap =>
      var id := s.mapWaiters[0];
      var granted := s.(mapWaiters := s.mapWaiters[1..]);
      (match s.tasks[id]
       case WaitsMapWrite(target, start) => Set(granted, id, Draining(target, start)).(mapWriter := Some(id))
       case WaitsMapRead(target, start) =>
         var run := Lookups(target, start, s.drained, Lookup(s.handlers, target));
         Set(granted, id, Running(run)).(mapReaders := s.mapReaders + {id}))
    case Pop(id, key) =>
      s.(handlers := Perform(s.handlers, Call(key, s.queue[key])), queue := s.queue - {key})
    case FinishDrain(id) =>
      Set(s, id, HasDrained(s.tasks[id].target, s.tasks[id].start)).(mapWriter := None, drained := |s.log|)
    case LeaveQueue(id) => Set(s, id, HasUpdated(s.tasks[id].target, s.tasks[id].start)).(queueHolder := None)
    case AskForRead(id) =>
      Set(s, id, WaitsMapRead(s.tasks[id].target, s.tasks[id].start)).(mapWaiters := s.mapWaiters + [id])
    case Finish(id) => Set(s, id, Finished).(mapReaders := s.mapReaders - {id})
  }

  predicate IsRun(s: State, actions: seq<Action>, solo: bool)
    decreases |actions|
  {
    actions == [] || (Enabled(s, actions[0], solo) && IsRun(Apply(s, actions[0]), actions[1..], solo))
  }

  function After(s: State, actions: seq<Action>, solo: bool): State
    requires IsRun(s, actions, solo)
    decreases |actions|
  {
    if actions == [] then s else After(Apply(s, actions[0]), actions[1..], solo)
  }
}
