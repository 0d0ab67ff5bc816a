/** The handler registry: register and drop calls collect in a queue that keeps only the latest call per
    object, and the queue is drained into the handler map before each dispatch. */
module Registry {
  import opened Base

  /** A boxed event handler, known by its identity. */
  type Handler = nat

  datatype Operation = Register(handler: Handler) | Unregister

  datatype Call = Call(objectId: ObjectId, operation: Operation)

  type Handlers = map<ObjectId, Handler>

  type Queue = map<ObjectId, Operation>

  function Lookup(h: Handlers, id: ObjectId): Option<Handler>
  {
    if id in h then Some(h[id]) else None
  }

  function Perform(h: Handlers, c: Call): Handlers
  {
    match c.operation
    case Register(handler) => h[c.objectId := handler]
    case Unregister => h - {c.objectId}
  }

  /** The plain log: every call applied at once, in call order. */
  function Replay(log: seq<Call>): Handlers
  {
    if log == [] then map[] else Perform(Replay(log[..|log| - 1]), log[|log| - 1])
  }

  /** The latest call about an object, if any. */
  function Latest(log: seq<Call>, id: ObjectId): Option<Operation>
  {
    if log == [] then None
    else if log[|log| - 1].objectId == id then Some(log[|log| - 1].operation)
    else Latest(log[..|log| - 1], id)
  }

  /** Replaying the log leaves an object with what its latest call says. */
  lemma {:induction false} LatestCallWins(log: seq<Call>, id: ObjectId)
    ensures Lookup(Replay(log), id) == match Latest(log, id)
                                       case Some(Register(handler)) => Some(handler)
                                       case Some(Unregister) => None
                                       case None => None
  {
    if log != [] {
      LatestCallWins(log[..|log| - 1], id);
    }
  }

  /** The handlers as they will be once the queue is drained. */
  function Overlay(h: Handlers, q: Queue): Handlers
  {
    map id | id in h.Keys + q.Keys && (id in q ==> q[id].Register?) ::
      if id in q then q[id].handler else h[id]
  }

  lemma OverlayEmpty(h: Handlers)
    ensures Overlay(h, map[]) == h
  {
  }

  /** Queueing a call, on top of whatever is queued for the object, is performing it later. */
  lemma OverlayInsert(h: Handlers, q: Queue, c: Call)
    ensures Overlay(h, q[c.objectId := c.operation]) == Perform(Overlay(h, q), c)
  {
    var left, right := Overlay(h, q[c.objectId := c.operation]), Perform(Overlay(h, q), c);
    forall id: ObjectId ensures id in left <==> id in right {
    }
  }

  /** Moving any one entry from the queue to the map changes nothing about the outcome, whichever it is. */
  lemma OverlayPop(h: Handlers, q: Queue, id: ObjectId)
    requires id in q
    ensures Overlay(Perform(h, Call(id, q[id])), q - {id}) == Overlay(h, q)
  {
    var left, right := Overlay(Perform(h, Call(id, q[id])), q - {id}), Overlay(h, q);
    forall x: ObjectId ensures x in left <==> x in right {
    }
  }

  lemma OverlayPopAny(h: Handlers, q: Queue)
    ensures forall id :: id in q ==> Overlay(Perform(h, Call(id, q[id])), q - {id}) == Overlay(h, q)
  {
    forall id | id in q ensures Overlay(Perform(h, Call(id, q[id])), q - {id}) == Overlay(h, q) {
      OverlayPop(h, q, id);
    }
  }

  lemma {:induction false} LeastKeyExists(keys: set<ObjectId>) returns (least: ObjectId)
    requires keys != {}
    ensures least in keys && forall k :: k in keys ==> least <= k
    decreases |keys|
  {
    var some :| some in keys;
    if keys == {some} {
      least := some;
    } else {
      var rest := keys - {some};
      assert rest != {};
      var other := LeastKeyExists(rest);
      least := if other < some then other else some;
      assert forall k :: k in keys ==> k == some || k in rest;
    }
  }

  class HandlerRegistry {
    var handlers: Handlers
    var queue: Queue
    ghost var log: seq<Call>

    /** The map overlaid with the queue is what the log of all calls says. */
    ghost predicate Valid()
      reads this
    {
      Overlay(handlers, queue) == Replay(log)
    }

    constructor ()
      ensures Valid() && log == [] && handlers == map[] && queue == map[]
    {
      handlers, queue, log := map[], map[], [];
      new;
      OverlayEmpty(map[]);
    }

    method RegisterHandler(id: ObjectId, handler: Handler)
      requires Valid()
      modifies this`queue, this`log
      ensures Valid() && log == old(log) + [Call(id, Register(handler))]
      ensures queue == old(queue)[id := Register(handler)]
    {
      OverlayInsert(handlers, queue, Call(id, Register(handler)));
      queue := queue[id := Register(handler)];
      log := log + [Call(id, Register(handler))];
      assert log[..|log| - 1] == old(log);
    }

    method DropHandler(id: ObjectId)
      requires Valid()
      modifies this`queue, this`log
      ensures Valid() && log == old(log) + [Call(id, Unregister)]
      ensures queue == old(queue)[id := Unregister]
    {
      OverlayInsert(handlers, queue, Call(id, Unregister));
      queue := queue[id := Unregister];
      log := log + [Call(id, Unregister)];
      assert log[..|log| - 1] == old(log);
    }

    /** Removes the entry with the least key, as an ordered map does. */
    method PopFirst() returns (entry: Call)
      requires queue != map[]
      modifies this`queue
      ensures entry.objectId in old(queue) && old(queue)[entry.objectId] == entry.operation
      ensures forall k :: k in old(queue) ==> entry.objectId <= k
      ensures queue == old(queue) - {entry.objectId}
    {
      ghost var least := LeastKeyExists(queue.Keys);
      var id :| id in queue && forall k :: k in queue ==> id <= k;
      entry := Call(id, queue[id]);
      queue := queue - {id};
    }

    /** Drains the queue into the map. */
    method UpdateEventHandlerRegistrations()
      requires Valid()
      modifies this`handlers, this`queue
      ensures Valid() && queue == map[] && handlers == Replay(log)
    {
      hide Overlay, Replay;
      while queue != map[]
        invariant Overlay(handlers, queue) == Replay(log)
        decreases |queue|
      {
        OverlayPopAny(handlers, queue);
        var entry := PopFirst();
        match entry.operation {
          case Register(handler) => handlers := handlers[entry.objectId := handler];
          case Unregister => handlers := handlers - {entry.objectId};
        }
      }
      OverlayEmpty(handlers);
    }

    /** The handler for an incoming packet is the one that the log of all calls gives. */
    method FindHandler(id: ObjectId) returns (r: Result<Handler>)
      requires Valid()
      modifies this`handlers, this`queue
      ensures Valid()
      ensures r == match Lookup(Replay(log), id)
                   case Some(handler) => Ok(handler)
                   case None => Err(NoEventHandler(id))
    {
      UpdateEventHandlerRegistrations();
      r := if id in handlers then Ok(handlers[id]) else Err(NoEventHandler(id));
    }
  }
}
