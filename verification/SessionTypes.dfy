/** As long as the IDs have not wrapped around, every new ID is new and every request is addressed to and names
    objects of the right interfaces. */
module SessionTypes {
  import opened Base
  import opened Raster
  import opened Session

  datatype ObjectKind =
    | DisplayObject | RegistryObject | BoundObject(interface: string) | SurfaceObject | LayerSurfaceObject
    | RegionObject | PoolObject | BufferObject

  type Objects = map<ObjectId, ObjectKind>

  const START: Objects := map[DISPLAY := DisplayObject]

  predicate Is(objects: Objects, id: ObjectId, kind: ObjectKind)
  {
    id in objects && objects[id] == kind
  }

  /** Whom the protocol lets a request be addressed to, and what it may name. */
  predicate NamesRight(objects: Objects, r: Request)
  {
    match r
    case GetRegistry(_) => Is(objects, DISPLAY, DisplayObject)
    case Bind(registry, _, _, _, _) => Is(objects, registry, RegistryObject)
    case CreateSurface(compositor, _) => Is(objects, compositor, BoundObject(COMPOSITOR))
    case GetLayerSurface(layerShell, _, surface, _, _) =>
      Is(objects, layerShell, BoundObject(LAYER_SHELL)) && Is(objects, surface, SurfaceObject)
    case Commit(surface) => Is(objects, surface, SurfaceObject)
    case AckConfigure(ls, _) => Is(objects, ls, LayerSurfaceObject)
    case SetSize(ls, _, _) => Is(objects, ls, LayerSurfaceObject)
    case SetAnchor(ls, _) => Is(objects, ls, LayerSurfaceObject)
    case SetMargin(ls, _, _, _, _) => Is(objects, ls, LayerSurfaceObject)
    case CreateRegion(compositor, _) => Is(objects, compositor, BoundObject(COMPOSITOR))
    case CreatePool(shm, _, _) => Is(objects, shm, BoundObject(SHM))
    case CreateBuffer(pool, _, _, _, _, _, _) => Is(objects, pool, PoolObject)
    case Attach(surface, buffer) => Is(objects, surface, SurfaceObject) && Is(objects, buffer, BufferObject)
    case SetBufferScale(surface, _) => Is(objects, surface, SurfaceObject)
    case SetInputRegion(surface, region) => Is(objects, surface, SurfaceObject) && Is(objects, region, RegionObject)
  }

  /** The kind of object that a request makes, if it makes one. */
  function Makes(r: Request): (kind: Option<ObjectKind>)
    ensures kind.Some? <==> Creates(r) != {}
  {
    match r
    case GetRegistry(_) => Some(RegistryObject)
    case Bind(_, _, interface, _, _) => Some(BoundObject(interface))
    case CreateSurface(_, _) => Some(SurfaceObject)
    case GetLayerSurface(_, _, _, _, _) => Some(LayerSurfaceObject)
    case CreateRegion(_, _) => Some(RegionObject)
    case CreatePool(_, _, _) => Some(PoolObject)
    case CreateBuffer(_, _, _, _, _, _, _) => Some(BufferObject)
    case _ => None
  }

  function After(objects: Objects, r: Request): Objects
  {
    if Makes(r).Some? then objects[r.newId := Makes(r).value] else objects
  }

  function ObjectsAfter(objects: Objects, rs: seq<Request>): Objects
    decreases |rs|
  {
    if rs == [] then objects else ObjectsAfter(After(objects, rs[0]), rs[1..])
  }

  /** A request names objects of the right kinds, and what it makes is new and gets the next number. */
  predicate Right(objects: Objects, r: Request)
  {
    NamesRight(objects, r) && (Makes(r).Some? ==> r.newId !in objects && r.newId == |objects| + 1)
  }

  predicate AllRight(objects: Objects, rs: seq<Request>)
    decreases |rs|
  {
    rs == [] || (Right(objects, rs[0]) && AllRight(After(objects, rs[0]), rs[1..]))
  }

  /** How many IDs the requests introduce. */
  function Allocations(rs: seq<Request>): nat
    decreases |rs|
  {
    if rs == [] then 0 else (if Makes(rs[0]).Some? then 1 else 0) + Allocations(rs[1..])
  }

  lemma {:induction false} Concat(objects: Objects, a: seq<Request>, b: seq<Request>)
    ensures ObjectsAfter(objects, a + b) == ObjectsAfter(ObjectsAfter(objects, a), b)
    ensures AllRight(objects, a + b) <==> AllRight(objects, a) && AllRight(ObjectsAfter(objects, a), b)
    ensures Allocations(a + b) == Allocations(a) + Allocations(b)
    decreases |a|
  {
    hide Right, After, Makes;
    if a == [] {
      assert a + b == b;
    } else {
      assert (a + b)[1..] == a[1..] + b;
      Concat(After(objects, a[0]), a[1..], b);
    }
  }

  lemma One(objects: Objects, r: Request)
    ensures ObjectsAfter(objects, [r]) == After(objects, r) && (AllRight(objects, [r]) <==> Right(objects, r))
    ensures Allocations([r]) == if Makes(r).Some? then 1 else 0
  {
    assert [r][1..] == [];
  }

  // ---------- the invariant ----------

  /** So many IDs there are before the allocator comes around to the display's. */
  const MOST := 0x1_0000_0000 - 2

  function Known(s: State): Objects
  {
    ObjectsAfter(START, s.sent)
  }

  predicate Few(s: State)
  {
    Allocations(s.sent) <= MOST
  }

  predicate StreamRight(s: State)
  {
    AllRight(START, s.sent)
  }

  /** The stream is right, and the allocator stands just past the IDs on it. */
  predicate InStep(s: State)
  {
    && StreamRight(s)
    && s.counter == (2 + Allocations(s.sent)) % 0x1_0000_0000
    && |Known(s)| == 1 + Allocations(s.sent)
    && forall id :: id in Known(s) ==> id < 2 + Allocations(s.sent)
  }

  predicate DisplayRight(d: DisplayState, objects: Objects)
  {
    && (d.compositor.Some? ==> Is(objects, d.compositor.value, BoundObject(COMPOSITOR)))
    && (d.layerShell.Some? ==> Is(objects, d.layerShell.value, BoundObject(LAYER_SHELL)))
    && (d.shm.Some? ==> Is(objects, d.shm.value, BoundObject(SHM)))
    && (d.surface.Some? ==> Is(objects, d.surface.value, SurfaceObject))
    && (d.layerSurface.Some? ==> Is(objects, d.layerSurface.value, LayerSurfaceObject))
  }

  /** The kind of object whose events a handler decodes. */
  function Source(kind: Kind): ObjectKind
  {
    match kind
    case DisplayEvents => DisplayObject
    case RegistryEvents => RegistryObject
    case SurfaceEvents => SurfaceObject
    case LayerSurfaceEvents => LayerSurfaceObject
    case ShmEvents => BoundObject(SHM)
    case BufferEvents => BufferObject
  }

  /** Every handler stands on an object of the interface whose events it decodes. */
  predicate HandlersRight(m: map<ObjectId, Kind>, objects: Objects)
  {
    forall id :: id in m ==> Is(objects, id, Source(m[id]))
  }

  predicate Typed(s: State)
  {
    && InStep(s) && DisplayRight(s.display, Known(s))
    && HandlersRight(s.handlers, Known(s)) && HandlersRight(s.queued, Known(s))
  }

  /** The invariant binds only while the IDs last. */
  predicate Inv(s: State)
  {
    Few(s) ==> Typed(s)
  }

  /** What was known stays known. */
  predicate Later(s: State, t: State)
  {
    Few(t) ==> Few(s) && forall id :: id in Known(s) ==> Is(Known(t), id, Known(s)[id])
  }

  // ---------- sending ----------

  /** Sending a request that introduces the next ID. */
  lemma Introduced(s: State, t: State, r: Request)
    requires Few(s) ==> InStep(s) && NamesRight(Known(s), r)
    requires Makes(r).Some? && r.newId == NextId(s)
    requires t.sent == s.sent + [r] && t.counter == Allocated(s).counter
    ensures Later(s, t) && (Few(t) ==> InStep(t) && Is(Known(t), r.newId, Makes(r).value))
    ensures Allocations(t.sent) == Allocations(s.sent) + 1
  {
    hide NamesRight, Makes;
    Concat(START, s.sent, [r]);
    One(Known(s), r);
    hide AllRight, ObjectsAfter, Allocations;
    if Few(t) {
      assert s.counter == 2 + Allocations(s.sent) == NextId(s);
      assert NextId(s) !in Known(s);
      assert Known(t).Keys == Known(s).Keys + {r.newId};
    }
  }

  /** Sending any other request. */
  lemma Plain(s: State, t: State, r: Request)
    requires Few(s) ==> InStep(s) && NamesRight(Known(s), r)
    requires Makes(r) == None && t.sent == s.sent + [r] && t.counter == s.counter
    ensures Later(s, t) && (Few(t) ==> InStep(t) && Known(t) == Known(s))
    ensures Allocations(t.sent) == Allocations(s.sent)
  {
    hide NamesRight, Makes;
    Concat(START, s.sent, [r]);
    One(Known(s), r);
    hide AllRight, ObjectsAfter, Allocations;
  }

  lemma SameStream(s: State, t: State)
    requires s.sent == t.sent
    ensures Few(s) == Few(t) && Known(s) == Known(t) && Later(s, t) && StreamRight(s) == StreamRight(t)
    ensures s.counter == t.counter ==> InStep(s) == InStep(t)
  {
    hide ObjectsAfter, AllRight, Allocations;
  }

  lemma PlainThree(s: State, a: Request, b: Request, c: Request)
    requires Few(s) ==> InStep(s) && NamesRight(Known(s), a) && NamesRight(Known(s), b) && NamesRight(Known(s), c)
    requires Makes(a) == Makes(b) == Makes(c) == None
    ensures var t := Send(s, [a, b, c]);
            Later(s, t) && (Few(t) ==> InStep(t) && Known(t) == Known(s))
  {
    hide NamesRight, Makes, InStep, Known, Few;
    var t1, t2 := Send(s, [a]), Send(Send(s, [a]), [b]);
    Plain(s, t1, a);
    Plain(t1, t2, b);
    Plain(t2, Send(t2, [c]), c);
    assert s.sent + [a] + [b] + [c] == s.sent + [a, b, c];
    SameStream(Send(t2, [c]), Send(s, [a, b, c]));
  }

  lemma InitialInv()
    ensures Inv(Initial())
  {
    var empty := State(DEFAULT_DISPLAY, 2, map[], map[], []);
    Introduced(empty, Initial(), GetRegistry(2));
  }

  // ---------- globals ----------

  /** The three requests of the rigmarole, one after the other. */
  lemma SurfacesSent(s: State, compositor: ObjectId, layerShell: ObjectId) returns (t: State)
    requires Few(s) ==>
             && InStep(s) && Is(Known(s), compositor, BoundObject(COMPOSITOR))
             && Is(Known(s), layerShell, BoundObject(LAYER_SHELL))
    ensures var surface, layerSurface := NextId(s), NextId(Allocated(s));
            && t.counter == Allocated(Allocated(s)).counter
            && t.sent == s.sent +
              [CreateSurface(compositor, surface),
               GetLayerSurface(layerShell, layerSurface, surface, OVERLAY, "activation"), Commit(surface)]
            && Later(s, t)
            && (Few(t) ==>
                  && InStep(t) && Is(Known(t), surface, SurfaceObject)
                  && Is(Known(t), layerSurface, LayerSurfaceObject))
  {
    hide Known, InStep, Few;
    var surface := NextId(s);
    var a := CreateSurface(compositor, surface);
    var s1 := Send(Allocated(s), [a]);
    Introduced(s, s1, a);
    var b := GetLayerSurface(layerShell, NextId(s1), surface, OVERLAY, "activation");
    var s2 := Send(Allocated(s1), [b]);
    Introduced(s1, s2, b);
    t := Send(s2, [Commit(surface)]);
    Plain(s2, t, Commit(surface));
  }

  lemma CreateSurfacesKeepsInv(s: State)
    requires Inv(s)
    ensures Inv(CreateSurfaces(s)) && Later(s, CreateSurfaces(s))
  {
    hide Known, InStep, Few, NextId;
    var d := s.display;
    if d.compositor.Some? && d.layerShell.Some? && d.shm.Some? {
      var t := SurfacesSent(s, d.compositor.value, d.layerShell.value);
      SameStream(t, CreateSurfaces(s));
    } else {
      SameStream(s, s);
    }
  }

  lemma GlobalKeepsInv(s: State, registry: ObjectId, name: u32, interface: string, version: u32)
    requires Inv(s) && (Few(s) ==> Is(Known(s), registry, RegistryObject))
    ensures Inv(HandleGlobal(s, registry, name, interface, version))
    ensures Later(s, HandleGlobal(s, registry, name, interface, version))
  {
    hide Known, InStep, Few, StreamRight, CreateSurfaces, NextId;
    SameStream(s, s);
    var id := NextId(s);
    var bind := Bind(registry, name, interface, version, id);
    var bound := Send(Allocated(s), [bind]);
    Introduced(s, bound, bind);
    var next := if interface == COMPOSITOR then bound.(display := s.display.(compositor := Some(id)))
                else if interface == LAYER_SHELL then bound.(display := s.display.(layerShell := Some(id)))
                else Queue(bound, id, ShmEvents).(display := s.display.(shm := Some(id)));
    SameStream(bound, next);
    if interface == COMPOSITOR || interface == LAYER_SHELL || interface == SHM {
      CreateSurfacesKeepsInv(next);
    }
  }

  // ---------- configure events ----------

  lemma PlacedKeepsInv(s: State, width: u32, height: u32, scale: nat)
    requires Inv(s) && s.display.layerSurface.Some? && scale > 0
    ensures Inv(Placed(s, width, height, scale)) && Later(s, Placed(s, width, height, scale))
  {
    hide Known, InStep, Few, StreamRight;
    var rs := PlaceRequests(s.display.layerSurface.value, width, height, scale);
    PlainThree(s, rs[0], rs[1], rs[2]);
  }

  lemma RegionKeepsInv(s: State)
    requires Inv(s) && s.display.compositor.Some?
    ensures Inv(WithRegion(s)) && Later(s, WithRegion(s))
    ensures Few(WithRegion(s)) ==> Is(Known(WithRegion(s)), NextId(s), RegionObject)
  {
    hide Known, InStep, Few, StreamRight, NextId;
    Introduced(s, WithRegion(s), CreateRegion(s.display.compositor.value, NextId(s)));
  }

  lemma PoolKeepsInv(s: State, length: i32)
    requires Inv(s) && s.display.shm.Some?
    ensures Inv(WithPool(s, length)) && Later(s, WithPool(s, length))
    ensures Few(WithPool(s, length)) ==> Is(Known(WithPool(s, length)), NextId(s), PoolObject)
  {
    hide Known, InStep, Few, StreamRight, NextId;
    Introduced(s, WithPool(s, length), CreatePool(s.display.shm.value, NextId(s), length));
  }

  lemma BufferKeepsInv(s: State, pool: ObjectId, width: u32, height: u32)
    requires Inv(s) && (Few(s) ==> Is(Known(s), pool, PoolObject))
    requires width * 4 < 0x8000_0000 && height < 0x8000_0000
    ensures var t := WithBuffer(WithBufferId(s), pool, NextId(s), width, height);
            Inv(t) && Later(s, t) && (Few(t) ==> Is(Known(t), NextId(s), BufferObject))
  {
    hide Known, InStep, Few, StreamRight, NextId;
    var t := WithBuffer(WithBufferId(s), pool, NextId(s), width, height);
    Introduced(s, t, CreateBuffer(pool, NextId(s), 0, width, height, width * 4, ARGB8888));
  }

  lemma PresentedKeepsInv(s: State, buffer: ObjectId, region: ObjectId)
    requires Inv(s) && s.display.surface.Some?
    requires Few(s) ==> Is(Known(s), buffer, BufferObject) && Is(Known(s), region, RegionObject)
    ensures Inv(Presented(s, buffer, region)) && Later(s, Presented(s, buffer, region))
  {
    hide Known, InStep, Few, StreamRight;
    var surface := s.display.surface.value;
    var a, b, c := Attach(surface, buffer), SetBufferScale(surface, s.display.preferredScale),
                   SetInputRegion(surface, region);
    PlainThree(s, a, b, c);
    var t := Send(s, [a, b, c]);
    Plain(t, Send(t, [Commit(surface)]), Commit(surface));
    assert s.sent + [a, b, c] + [Commit(surface)] == s.sent + [a, b, c, Commit(surface)];
    SameStream(Send(t, [Commit(surface)]), Presented(s, buffer, region));
  }

  /** What a session leaves behind is right while the IDs last. */
  predicate EndsRight(o: Outcome)
  {
    match o
    case Running(next) => Inv(next)
    case Crashed(_, end) => Few(end) ==> StreamRight(end) && HandlersRight(end.handlers, Known(end))
  }

  lemma ShowKeepsInv(s: State, width: u32, height: u32, scale: nat)
    requires Inv(s) && s.display.layerSurface.Some? && scale > 0
    ensures EndsRight(Show(s, width, height, scale)) && Later(s, Show(s, width, height, scale).state)
  {
    hide Known, Few, StreamRight, DisplayRight, HandlersRight, NextId, BufferLength, PlaceRequests, PresentRequests;
    PlacedKeepsInv(s, width, height, scale);
    var placed := Placed(s, width, height, scale);
    if placed.display.compositor.Some? {
      RegionKeepsInv(placed);
      var regioned := WithRegion(placed);
      if regioned.display.shm.Some? && BufferLength(width, height) < 0x8000_0000 {
        var length := BufferLength(width, height);
        PoolKeepsInv(regioned, length);
        var pooled := WithPool(regioned, length);
        SameStream(pooled, WithBufferId(pooled));
        if width * 4 < 0x8000_0000 && height < 0x8000_0000 {
          BufferKeepsInv(pooled, NextId(regioned), width, height);
          var buffered := WithBuffer(WithBufferId(pooled), NextId(regioned), NextId(pooled), width, height);
          if buffered.display.surface.Some? {
            PresentedKeepsInv(buffered, NextId(pooled), NextId(placed));
          }
        }
      }
    }
  }

  lemma ConfigureKeepsInv(s: State, serial: u32, width: u32, height: u32, text: Image)
    requires Inv(s)
    ensures EndsRight(HandleConfigure(s, serial, width, height, text))
    ensures Later(s, HandleConfigure(s, serial, width, height, text).state)
  {
    hide Known, Few, InStep, StreamRight, HandlersRight, RoundUp, BufferLength, Show;
    MagnitudeIsZero(s.display.preferredScale);
    var sized := s.(display := s.display.(width := width, height := height));
    SameStream(s, sized);
    StepIsRight(sized);
    if sized.display.layerSurface.Some? {
      var ack := AckConfigure(sized.display.layerSurface.value, serial);
      Plain(sized, Send(sized, [ack]), ack);
      StepIsRight(Send(sized, [ack]));
      var scale := Magnitude(s.display.preferredScale);
      if scale > 0 {
        var w, h := RoundUp(text.width, scale), RoundUp(text.height, scale);
        if w < 0x1_0000_0000 && h < 0x1_0000_0000 {
          ShowKeepsInv(Send(sized, [ack]), w, h, scale);
        }
      }
    }
  }

  lemma StepIsRight(s: State)
    ensures InStep(s) ==> StreamRight(s)
  {
  }

  // ---------- sessions ----------

  lemma StepKeepsInv(s: State, p: Packet)
    requires Inv(s)
    ensures EndsRight(Step(s, p)) && Later(s, Step(s, p).state)
  {
    hide Known, Few, InStep, StreamRight, HandleGlobal, HandleConfigure;
    var drained := s.(handlers := s.handlers + s.queued, queued := map[]);
    SameStream(s, drained);
    StepIsRight(drained);
    if p.target in drained.handlers && drained.handlers[p.target] == KindOf(p.event) {
      match p.event
      case Global(name, interface, version) =>
        GlobalKeepsInv(drained, p.target, name, interface, version);
      case PreferredScale(factor) =>
        SameStream(drained, drained.(display := drained.display.(preferredScale := factor)));
      case PreferredTransform(t) =>
        SameStream(drained, drained.(display := drained.display.(preferredTransform := t)));
      case Configure(serial, width, height, text) =>
        ConfigureKeepsInv(drained, serial, width, height, text);
      case Ignored(_) =>
    }
  }

  lemma {:induction false} RunKeepsInv(s: State, packets: seq<Packet>)
    requires Inv(s)
    ensures EndsRight(Run(s, packets))
    decreases |packets|
  {
    hide Inv, Step;
    if packets != [] {
      StepKeepsInv(s, packets[0]);
      if Step(s, packets[0]).Running? {
        RunKeepsInv(Step(s, packets[0]).state, packets[1..]);
      }
    }
  }

  lemma RequestRight(rs: seq<Request>, i: nat)
    requires AllRight(START, rs) && i < |rs|
    ensures Right(ObjectsAfter(START, rs[..i]), rs[i])
  {
    hide Right;
    Concat(START, rs[..i], rs[i..]);
    assert rs == rs[..i] + rs[i..];
  }

  /** In every session that introduces at most 2^32 - 2 objects, whatever packets arrive and however it ends: every
      new ID on the stream is new, the IDs are 2, 3, and so on in the order of the requests, and every request is
      addressed to and names objects that earlier requests made with the interfaces that the protocol asks for. */
  lemma SessionTyped(packets: seq<Packet>)
    requires Allocations(Run(Initial(), packets).state.sent) <= MOST
    ensures var sent := Run(Initial(), packets).state.sent;
            forall i :: 0 <= i < |sent| ==>
              && NamesRight(ObjectsAfter(START, sent[..i]), sent[i])
              && (Makes(sent[i]).Some? ==>
                    && sent[i].newId !in ObjectsAfter(START, sent[..i])
                    && sent[i].newId == |ObjectsAfter(START, sent[..i])| + 1)
  {
    InitialInv();
    RunKeepsInv(Initial(), packets);
    hide Run, Initial, NamesRight, Makes, ObjectsAfter, AllRight, Allocations;
    var sent := Run(Initial(), packets).state.sent;
    forall i | 0 <= i < |sent| ensures Right(ObjectsAfter(START, sent[..i]), sent[i]) {
      RequestRight(sent, i);
    }
  }

  /** In the same sessions: every handler that can be called stands on an object of the interface whose events it
      decodes, and so does every handler still queued, unless the session panicked: the buffer's handler is
      queued before its sizes are converted, and then the buffer may never be requested. */
  lemma HandlersTyped(packets: seq<Packet>)
    requires Allocations(Run(Initial(), packets).state.sent) <= MOST
    ensures var end := Run(Initial(), packets);
            var objects := ObjectsAfter(START, end.state.sent);
            && (forall id :: id in end.state.handlers ==> Is(objects, id, Source(end.state.handlers[id])))
            && (end.Running? ==>
                  forall id :: id in end.state.queued ==> Is(objects, id, Source(end.state.queued[id])))
  {
    InitialInv();
    RunKeepsInv(Initial(), packets);
    hide Run, Initial, ObjectsAfter, AllRight, Allocations, InStep, DisplayRight;
  }
}
