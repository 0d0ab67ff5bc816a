/** What the session knows and what it listens to, read off the requests sent and the events handled: every object
    that has events has its handler, and the display state names the latest objects and settings. */
module SessionState {
  import opened Base
  import opened Raster
  import opened Session
  import opened SessionTypes
  import SessionLaws

  // ---------- every object that has events has its handler ----------

  /** The handler that an object of this kind is to have, if the session listens to its events. */
  function HandlerFor(kind: ObjectKind): Option<Kind>
  {
    match kind
    case DisplayObject => Some(DisplayEvents)
    case RegistryObject => Some(RegistryEvents)
    case BoundObject(interface) => if interface == "wl_shm" then Some(ShmEvents) else None
    case SurfaceObject => Some(SurfaceEvents)
    case LayerSurfaceObject => Some(LayerSurfaceEvents)
    case BufferObject => Some(BufferEvents)
    case RegionObject => None
    case PoolObject => None
  }

  /** The handlers that the next dispatch will see. */
  function Listening(s: State): map<ObjectId, Kind>
  {
    s.handlers + s.queued
  }

  ghost predicate Wired(s: State)
  {
    forall id :: id in Known(s) && HandlerFor(Known(s)[id]).Some? ==>
      id in Listening(s) && Some(Listening(s)[id]) == HandlerFor(Known(s)[id])
  }

  /** A request is sent, and with an object that has events comes its handler. */
  lemma WiredNext(s: State, t: State, r: Request)
    requires Wired(s) && t.sent == s.sent + [r]
    requires if Makes(r).Some? && HandlerFor(Makes(r).value).Some?
             then Listening(t) == Listening(s)[r.newId := HandlerFor(Makes(r).value).value]
             else Listening(t) == Listening(s)
    ensures Wired(t)
  {
    Concat(START, s.sent, [r]);
    One(Known(s), r);
    assert Known(t) == After(Known(s), r);
    hide Known, Listening, Makes, HandlerFor;
  }

  lemma WiredAlike(s: State, t: State)
    requires Wired(s) && t.sent == s.sent && Listening(t) == Listening(s)
    ensures Wired(t)
  {
  }

  lemma SurfaceWired(s: State, id: ObjectId, kind: Kind, r: Request)
    requires Wired(s) && Makes(r).Some? && HandlerFor(Makes(r).value) == Some(kind) && r.newId == id
    ensures Wired(Send(Queue(s, id, kind), [r]))
  {
    hide Wired, Known, Makes, HandlerFor;
    var t := Send(Queue(s, id, kind), [r]);
    assert Listening(t) == Listening(s)[id := kind];
    WiredNext(s, t, r);
  }

  lemma CreateSurfacesWired(s: State)
    requires Wired(s)
    ensures Wired(CreateSurfaces(s))
  {
    hide Wired, Known, NextId, Listening;
    var d := s.display;
    if d.compositor.Some? && d.layerShell.Some? && d.shm.Some? {
      var surface, layerSurface := NextId(s), NextId(Allocated(s));
      var a := CreateSurface(d.compositor.value, surface);
      var b := GetLayerSurface(d.layerShell.value, layerSurface, surface, OVERLAY, "activation");
      var s1 := Send(Queue(s, surface, SurfaceEvents), [a]);
      var s2 := Send(Queue(s1, layerSurface, LayerSurfaceEvents), [b]);
      SurfaceWired(s, surface, SurfaceEvents, a);
      SurfaceWired(s1, layerSurface, LayerSurfaceEvents, b);
      WiredPlain(s2, Commit(surface));
      WiredSame(Send(s2, [Commit(surface)]), CreateSurfaces(s));
    }
  }

  lemma WiredPlain(s: State, r: Request)
    requires Wired(s) && Makes(r) == None
    ensures Wired(Send(s, [r]))
  {
    hide Wired, Known;
    WiredNext(s, Send(s, [r]), r);
  }

  lemma WiredSame(s: State, t: State)
    requires Wired(s) && t.sent == s.sent && t.handlers == s.handlers && t.queued == s.queued
    ensures Wired(t)
  {
    hide Wired, Known;
    WiredAlike(s, t);
  }

  lemma GlobalWired(s: State, registry: ObjectId, name: u32, interface: string, version: u32)
    requires Wired(s)
    ensures Wired(HandleGlobal(s, registry, name, interface, version))
  {
    hide Wired, Known, NextId, CreateSurfaces;
    var id := NextId(s);
    var bind := Bind(registry, name, interface, version, id);
    var bound := Send(Allocated(s), [bind]);
    var next := if interface == COMPOSITOR then bound.(display := s.display.(compositor := Some(id)))
                else if interface == LAYER_SHELL then bound.(display := s.display.(layerShell := Some(id)))
                else Queue(bound, id, ShmEvents).(display := s.display.(shm := Some(id)));
    if interface == COMPOSITOR || interface == LAYER_SHELL || interface == SHM {
      assert interface == SHM ==> Listening(next) == Listening(s)[id := ShmEvents];
      WiredNext(s, next, bind);
      CreateSurfacesWired(next);
    }
  }

  lemma WiredThree(s: State, a: Request, b: Request, c: Request)
    requires Wired(s) && Makes(a) == Makes(b) == Makes(c) == None
    ensures Wired(Send(s, [a, b, c]))
  {
    hide Wired, Known;
    var s1, s2, s3 := Send(s, [a]), Send(Send(s, [a]), [b]), Send(Send(Send(s, [a]), [b]), [c]);
    WiredNext(s, s1, a);
    WiredNext(s1, s2, b);
    WiredNext(s2, s3, c);
    assert s.sent + [a] + [b] + [c] == s.sent + [a, b, c];
    WiredAlike(s3, Send(s, [a, b, c]));
  }

  lemma PresentedWired(s: State, buffer: ObjectId, region: ObjectId)
    requires Wired(s) && s.display.surface.Some?
    ensures Wired(Presented(s, buffer, region))
  {
    hide Wired, Known;
    var surface := s.display.surface.value;
    var a, b, c := Attach(surface, buffer), SetBufferScale(surface, s.display.preferredScale),
                   SetInputRegion(surface, region);
    WiredThree(s, a, b, c);
    var t := Send(s, [a, b, c]);
    WiredNext(t, Send(t, [Commit(surface)]), Commit(surface));
    assert s.sent + [a, b, c] + [Commit(surface)] == s.sent + [a, b, c, Commit(surface)];
    WiredAlike(Send(t, [Commit(surface)]), Presented(s, buffer, region));
  }

  lemma PooledWired(s: State, width: u32, height: u32, scale: nat, length: i32)
    requires Wired(s) && s.display.layerSurface.Some? && scale > 0
    requires s.display.compositor.Some? && s.display.shm.Some?
    ensures Wired(WithPool(WithRegion(Placed(s, width, height, scale)), length))
  {
    hide Wired, Known, NextId;
    var d := s.display;
    var placed, rs := Placed(s, width, height, scale), PlaceRequests(d.layerSurface.value, width, height, scale);
    WiredThree(s, rs[0], rs[1], rs[2]);
    var regioned := WithRegion(placed);
    WiredNext(placed, regioned, CreateRegion(d.compositor.value, NextId(placed)));
    WiredNext(regioned, WithPool(regioned, length), CreatePool(d.shm.value, NextId(regioned), length));
  }

  lemma BufferedWired(s: State, pool: ObjectId, width: u32, height: u32)
    requires Wired(s) && width * 4 < 0x8000_0000 && height < 0x8000_0000
    ensures Wired(WithBuffer(WithBufferId(s), pool, NextId(s), width, height))
  {
    hide Wired, Known, NextId;
    var buffer, t := NextId(s), WithBuffer(WithBufferId(s), pool, NextId(s), width, height);
    assert Listening(t) == Listening(s)[buffer := BufferEvents];
    WiredNext(s, t, CreateBuffer(pool, buffer, 0, width, height, width * 4, ARGB8888));
  }

  lemma ShowWired(s: State, width: u32, height: u32, scale: nat)
    requires Wired(s) && s.display.layerSurface.Some? && scale > 0 && Show(s, width, height, scale).Running?
    ensures Wired(Show(s, width, height, scale).state)
  {
    hide Wired, Known, NextId, BufferLength, Presented;
    var placed, length := Placed(s, width, height, scale), BufferLength(width, height);
    var regioned := WithRegion(placed);
    var pooled := WithPool(regioned, length);
    PooledWired(s, width, height, scale, length);
    BufferedWired(pooled, NextId(regioned), width, height);
    var buffered := WithBuffer(WithBufferId(pooled), NextId(regioned), NextId(pooled), width, height);
    PresentedWired(buffered, NextId(pooled), NextId(placed));
  }

  lemma ConfigureWired(s: State, serial: u32, width: u32, height: u32, text: Image)
    requires Wired(s) && HandleConfigure(s, serial, width, height, text).Running?
    ensures Wired(HandleConfigure(s, serial, width, height, text).state)
  {
    hide Wired, Known, Show, RoundUp, BufferLength;
    MagnitudeIsZero(s.display.preferredScale);
    var sized := s.(display := s.display.(width := width, height := height));
    WiredAlike(s, sized);
    var ack := AckConfigure(s.display.layerSurface.value, serial);
    WiredNext(sized, Send(sized, [ack]), ack);
    var scale := Magnitude(s.display.preferredScale);
    ShowWired(Send(sized, [ack]), RoundUp(text.width, scale), RoundUp(text.height, scale), scale);
  }

  lemma StepWired(s: State, p: Packet)
    requires Wired(s) && Step(s, p).Running?
    ensures Wired(Step(s, p).state)
  {
    hide Wired, Known, HandleGlobal, HandleConfigure;
    var drained := SessionLaws.Drained(s);
    assert Listening(drained) == Listening(s);
    WiredAlike(s, drained);
    match p.event
    case Global(name, interface, version) => GlobalWired(drained, p.target, name, interface, version);
    case PreferredScale(factor) =>
      WiredAlike(drained, drained.(display := drained.display.(preferredScale := factor)));
    case PreferredTransform(t) =>
      WiredAlike(drained, drained.(display := drained.display.(preferredTransform := t)));
    case Configure(serial, width, height, text) => ConfigureWired(drained, serial, width, height, text);
    case Ignored(_) =>
  }

  lemma InitiallyWired()
    ensures Wired(Initial())
  {
    var empty := State(DEFAULT_DISPLAY, 2, map[], map[DISPLAY := DisplayEvents], []);
    assert Listening(Initial()) == Listening(empty)[2 := RegistryEvents];
    WiredNext(empty, Initial(), GetRegistry(2));
  }

  lemma {:induction false} RunWired(s: State, packets: seq<Packet>)
    requires Wired(s) && Run(s, packets).Running?
    ensures Wired(Run(s, packets).state)
    decreases |packets|
  {
    hide Wired, Step;
    if packets != [] {
      StepWired(s, packets[0]);
      RunWired(Step(s, packets[0]).state, packets[1..]);
    }
  }

  /** In every session that has not panicked and introduced at most 2^32 - 2 objects: exactly the objects that have
      events the session listens to, the latest and all earlier ones, have a handler, and each has its own kind. */
  lemma HandlersExact(packets: seq<Packet>, s: State, id: ObjectId, kind: Kind)
    requires Run(Initial(), packets) == Running(s) && Allocations(s.sent) <= MOST
    ensures id in Listening(s) && Listening(s)[id] == kind <==> Is(ObjectsAfter(START, s.sent), id, Source(kind))
  {
    InitiallyWired();
    RunWired(Initial(), packets);
    HandlersTyped(packets);
    hide Run, Initial, ObjectsAfter, Allocations;
    assert Known(s) == ObjectsAfter(START, s.sent);
    assert HandlerFor(Source(kind)) == Some(kind);
  }

  /** In the same sessions an event is without a handler if and only if its target is not an object with such
      events. */
  lemma NoHandlerExact(packets: seq<Packet>, s: State, p: Packet)
    requires Run(Initial(), packets) == Running(s) && Allocations(s.sent) <= MOST
    ensures Step(s, p).Crashed? && Step(s, p).crash == NoHandler <==>
            !Is(ObjectsAfter(START, s.sent), p.target, Source(KindOf(p.event)))
  {
    HandlersExact(packets, s, p.target, KindOf(p.event));
    hide Run, Initial, ObjectsAfter, Allocations, Is, Source, HandleGlobal;
    if p.event.Configure? {
      OtherCrashes(SessionLaws.Drained(s), p.event.serial, p.event.width, p.event.height, p.event.text);
    }
  }

  lemma OtherCrashes(s: State, serial: u32, width: u32, height: u32, text: Image)
    ensures HandleConfigure(s, serial, width, height, text).Crashed? ==>
            HandleConfigure(s, serial, width, height, text).crash != NoHandler
  {
    hide NextId, BufferLength, RoundUp;
    MagnitudeIsZero(s.display.preferredScale);
  }

  lemma LayerSurfaceListens(packets: seq<Packet>, s: State)
    requires Run(Initial(), packets) == Running(s) && Allocations(s.sent) <= MOST && s.display.layerSurface.Some?
    ensures var id := s.display.layerSurface.value; id in Listening(s) && Listening(s)[id] == LayerSurfaceEvents
  {
    hide Run, Initial, Allocations, Inv;
    InitialInv();
    RunKeepsInv(Initial(), packets);
    LayerSurfaceTyped(s);
    HandlersExact(packets, s, s.display.layerSurface.value, LayerSurfaceEvents);
  }

  lemma LayerSurfaceTyped(s: State)
    requires Inv(s) && Few(s) && s.display.layerSurface.Some?
    ensures Is(ObjectsAfter(START, s.sent), s.display.layerSurface.value, LayerSurfaceObject)
  {
    hide ObjectsAfter, InStep;
  }

  /** And the current layer surface's configure event is carried out if and only if the arithmetic can handle the
      scale and the sizes. */
  lemma ConfigureCarriedOut(packets: seq<Packet>, s: State, serial: u32, width: u32, height: u32, text: Image)
    requires Run(Initial(), packets) == Running(s) && Allocations(s.sent) <= MOST
    requires s.display.layerSurface.Some?
    ensures Step(s, Packet(s.display.layerSurface.value, Configure(serial, width, height, text))).Running? <==>
            BufferFits(s.display.preferredScale, text)
  {
    hide Run, Initial, Step, BufferFits, Allocations;
    LayerSurfaceListens(packets, s);
    var p := Packet(s.display.layerSurface.value, Configure(serial, width, height, text));
    SessionLaws.ConfigureOutcome(packets, s, p);
  }

  // ---------- the display state names the latest objects ----------

  /** The objects that the display state keeps track of. */
  predicate Tracked(kind: ObjectKind)
  {
    || kind == BoundObject("wl_compositor") || kind == BoundObject("zwlr_layer_shell_v1")
    || kind == BoundObject("wl_shm") || kind == SurfaceObject || kind == LayerSurfaceObject
  }

  function Named(d: DisplayState, kind: ObjectKind): Option<ObjectId>
    requires Tracked(kind)
  {
    match kind
    case SurfaceObject => d.surface
    case LayerSurfaceObject => d.layerSurface
    case BoundObject(interface) =>
      if interface == "wl_compositor" then d.compositor
      else if interface == "zwlr_layer_shell_v1" then d.layerShell
      else d.shm
  }

  /** The last object of a kind that the requests make. */
  function LastMade(rs: seq<Request>, kind: ObjectKind): Option<ObjectId>
  {
    if rs == [] then None
    else
      match LastMade(rs[1..], kind)
      case Some(id) => Some(id)
      case None => if Makes(rs[0]) == Some(kind) then Some(rs[0].newId) else None
  }

  lemma {:induction false} LastMadeConcat(a: seq<Request>, b: seq<Request>, kind: ObjectKind)
    ensures LastMade(a + b, kind) ==
            if LastMade(b, kind).Some? then LastMade(b, kind) else LastMade(a, kind)
  {
    if a == [] {
      assert a + b == b;
    } else {
      assert (a + b)[1..] == a[1..] + b;
      LastMadeConcat(a[1..], b, kind);
    }
  }

  ghost predicate Latest(s: State)
  {
    forall kind :: Tracked(kind) ==> Named(s.display, kind) == LastMade(s.sent, kind)
  }

  lemma LatestNext(s: State, t: State, r: Request)
    requires Latest(s) && t.sent == s.sent + [r]
    requires forall kind :: Tracked(kind) ==>
      Named(t.display, kind) == if Makes(r) == Some(kind) then Some(r.newId) else Named(s.display, kind)
    ensures Latest(t)
  {
    hide Tracked, Named, Makes;
    assert [r][1..] == [];
    forall kind | Tracked(kind) ensures Named(t.display, kind) == LastMade(t.sent, kind) {
      LastMadeConcat(s.sent, [r], kind);
    }
  }

  /** The same objects, whatever the settings. */
  predicate SameNames(d: DisplayState, e: DisplayState)
  {
    && d.compositor == e.compositor && d.layerShell == e.layerShell && d.shm == e.shm
    && d.surface == e.surface && d.layerSurface == e.layerSurface
  }

  predicate MakesUntracked(rs: seq<Request>)
  {
    forall i :: 0 <= i < |rs| ==> Makes(rs[i]).Some? ==> !Tracked(Makes(rs[i]).value)
  }

  lemma {:induction false} NothingTracked(rs: seq<Request>, kind: ObjectKind)
    requires MakesUntracked(rs) && Tracked(kind)
    ensures LastMade(rs, kind) == None
  {
    hide Tracked, Makes;
    if rs != [] {
      NothingTracked(rs[1..], kind);
    }
  }

  lemma LatestAlike(s: State, t: State, rs: seq<Request>)
    requires Latest(s) && t.sent == s.sent + rs && MakesUntracked(rs) && SameNames(s.display, t.display)
    ensures Latest(t)
  {
    hide LastMade;
    forall kind | Tracked(kind) ensures Named(t.display, kind) == LastMade(t.sent, kind) {
      NothingTracked(rs, kind);
      LastMadeConcat(s.sent, rs, kind);
    }
  }

  lemma CreateSurfacesLatest(s: State)
    requires Latest(s)
    ensures Latest(CreateSurfaces(s))
  {
    hide Latest, NextId;
    var d := s.display;
    if d.compositor.Some? && d.layerShell.Some? && d.shm.Some? {
      var surface, layerSurface := NextId(s), NextId(Allocated(s));
      var a := CreateSurface(d.compositor.value, surface);
      var b := GetLayerSurface(d.layerShell.value, layerSurface, surface, OVERLAY, "activation");
      var s1 := Send(s, [a]).(display := d.(surface := Some(surface)));
      var s2 := Send(s1, [b]).(display := s1.display.(layerSurface := Some(layerSurface)));
      LatestNext(s, s1, a);
      LatestNext(s1, s2, b);
      LatestAlike(s2, CreateSurfaces(s), [Commit(surface)]);
    }
  }

  lemma GlobalLatest(s: State, registry: ObjectId, name: u32, interface: string, version: u32)
    requires Latest(s)
    ensures Latest(HandleGlobal(s, registry, name, interface, version))
  {
    hide Latest, NextId, CreateSurfaces;
    var id := NextId(s);
    var bind := Bind(registry, name, interface, version, id);
    var bound := Send(Allocated(s), [bind]);
    var next := if interface == COMPOSITOR then bound.(display := s.display.(compositor := Some(id)))
                else if interface == LAYER_SHELL then bound.(display := s.display.(layerShell := Some(id)))
                else Queue(bound, id, ShmEvents).(display := s.display.(shm := Some(id)));
    if interface == COMPOSITOR || interface == LAYER_SHELL || interface == SHM {
      LatestNext(s, next, bind);
      CreateSurfacesLatest(next);
    }
  }

  lemma ShowLatest(s: State, width: u32, height: u32, scale: nat)
    requires Latest(s) && s.display.layerSurface.Some? && scale > 0
    ensures Latest(Show(s, width, height, scale).state)
  {
    hide Latest, NextId, BufferLength;
    var placed := Placed(s, width, height, scale);
    LatestAlike(s, placed, PlaceRequests(s.display.layerSurface.value, width, height, scale));
    if s.display.compositor.Some? {
      var regioned := WithRegion(placed);
      LatestAlike(placed, regioned, [CreateRegion(s.display.compositor.value, NextId(placed))]);
      var length := BufferLength(width, height);
      if s.display.shm.Some? && length < 0x8000_0000 {
        var pool, pooled := NextId(regioned), WithPool(regioned, length);
        LatestAlike(regioned, pooled, [CreatePool(s.display.shm.value, pool, length)]);
        LatestAlike(pooled, WithBufferId(pooled), []);
        if width * 4 < 0x8000_0000 && height < 0x8000_0000 {
          var buffer, buffered := NextId(pooled), WithBuffer(WithBufferId(pooled), pool, NextId(pooled), width, height);
          LatestAlike(pooled, buffered, [CreateBuffer(pool, buffer, 0, width, height, width * 4, ARGB8888)]);
          if s.display.surface.Some? {
            var region, shown := NextId(placed), s.display.preferredScale;
            LatestAlike(buffered, Presented(buffered, buffer, region),
                        PresentRequests(s.display.surface.value, buffer, region, shown));
          }
        }
      }
    }
  }

  lemma ConfigureLatest(s: State, serial: u32, width: u32, height: u32, text: Image)
    requires Latest(s)
    ensures Latest(HandleConfigure(s, serial, width, height, text).state)
  {
    hide Latest, Show, RoundUp, BufferLength;
    MagnitudeIsZero(s.display.preferredScale);
    var sized := s.(display := s.display.(width := width, height := height));
    LatestAlike(s, sized, []);
    if s.display.layerSurface.Some? {
      var ack := [AckConfigure(s.display.layerSurface.value, serial)];
      LatestAlike(sized, Send(sized, ack), ack);
      var scale := Magnitude(s.display.preferredScale);
      if scale > 0 {
        var w, h := RoundUp(text.width, scale), RoundUp(text.height, scale);
        if w < 0x1_0000_0000 && h < 0x1_0000_0000 {
          ShowLatest(Send(sized, ack), w, h, scale);
        }
      }
    }
  }

  lemma StepLatest(s: State, p: Packet)
    requires Latest(s)
    ensures Latest(Step(s, p).state)
  {
    hide Latest, HandleGlobal, HandleConfigure;
    var drained := SessionLaws.Drained(s);
    LatestAlike(s, drained, []);
    match p.event
    case Global(name, interface, version) => GlobalLatest(drained, p.target, name, interface, version);
    case PreferredScale(factor) =>
      LatestAlike(drained, drained.(display := drained.display.(preferredScale := factor)), []);
    case PreferredTransform(t) =>
      LatestAlike(drained, drained.(display := drained.display.(preferredTransform := t)), []);
    case Configure(serial, width, height, text) => ConfigureLatest(drained, serial, width, height, text);
    case Ignored(_) =>
  }

  lemma {:induction false} RunLatest(s: State, packets: seq<Packet>)
    requires Latest(s)
    ensures Latest(Run(s, packets).state)
    decreases |packets|
  {
    hide Latest, Step;
    if packets != [] {
      StepLatest(s, packets[0]);
      if Step(s, packets[0]).Running? {
        RunLatest(Step(s, packets[0]).state, packets[1..]);
      }
    }
  }

  /** Over every session, panic or not: the display state holds the IDs of the last compositor, layer shell and shared
      memory bound and of the last surface and layer surface created, and none where there is none. */
  lemma DisplayNamesLatest(packets: seq<Packet>)
    ensures var end := Run(Initial(), packets).state;
            && end.display.compositor == LastMade(end.sent, BoundObject("wl_compositor"))
            && end.display.layerShell == LastMade(end.sent, BoundObject("zwlr_layer_shell_v1"))
            && end.display.shm == LastMade(end.sent, BoundObject("wl_shm"))
            && end.display.surface == LastMade(end.sent, SurfaceObject)
            && end.display.layerSurface == LastMade(end.sent, LayerSurfaceObject)
  {
    assert Latest(Initial()) by {
      var empty := State(DEFAULT_DISPLAY, 2, map[], map[], []);
      LatestAlike(empty, Initial(), [GetRegistry(2)]);
    }
    RunLatest(Initial(), packets);
    hide Run, Initial, LastMade;
    var end := Run(Initial(), packets).state;
    assert forall kind :: Tracked(kind) ==> Named(end.display, kind) == LastMade(end.sent, kind);
  }

  // ---------- the settings ----------

  /** The factor of the last preferred scale among the packets. */
  function LastScale(packets: seq<Packet>, before: i32): i32
  {
    if packets == [] then before
    else LastScale(packets[1..], if packets[0].event.PreferredScale? then packets[0].event.factor else before)
  }

  function LastTransform(packets: seq<Packet>, before: u32): u32
  {
    if packets == [] then before
    else LastTransform(packets[1..],
                       if packets[0].event.PreferredTransform? then packets[0].event.transform else before)
  }

  /** The size in the last configure event. */
  function LastSize(packets: seq<Packet>, before: (u32, u32)): (u32, u32)
  {
    if packets == [] then before
    else
      LastSize(packets[1..],
               if packets[0].event.Configure? then (packets[0].event.width, packets[0].event.height) else before)
  }

  lemma GlobalKeepsSettings(s: State, registry: ObjectId, name: u32, interface: string, version: u32)
    ensures var d := HandleGlobal(s, registry, name, interface, version).display;
            && d.preferredScale == s.display.preferredScale && d.preferredTransform == s.display.preferredTransform
            && d.width == s.display.width && d.height == s.display.height
  {
  }

  lemma ShowKeepsDisplay(s: State, width: u32, height: u32, scale: nat)
    requires s.display.layerSurface.Some? && scale > 0
    ensures Show(s, width, height, scale).state.display == s.display
  {
    hide NextId, BufferLength;
  }

  lemma ConfigureKeepsScale(s: State, serial: u32, width: u32, height: u32, text: Image)
    ensures HandleConfigure(s, serial, width, height, text).state.display
         == s.display.(width := width, height := height)
  {
    hide Show, RoundUp, BufferLength;
    MagnitudeIsZero(s.display.preferredScale);
    var sized := s.(display := s.display.(width := width, height := height));
    if s.display.layerSurface.Some? {
      var acknowledged := Send(sized, [AckConfigure(s.display.layerSurface.value, serial)]);
      var scale := Magnitude(s.display.preferredScale);
      if scale > 0 {
        var w, h := RoundUp(text.width, scale), RoundUp(text.height, scale);
        if w < 0x1_0000_0000 && h < 0x1_0000_0000 {
          ShowKeepsDisplay(acknowledged, w, h, scale);
        }
      }
    }
  }

  lemma {:induction false} RunSettings(s: State, packets: seq<Packet>)
    requires Run(s, packets).Running?
    ensures var d := Run(s, packets).state.display;
            && d.preferredScale == LastScale(packets, s.display.preferredScale)
            && d.preferredTransform == LastTransform(packets, s.display.preferredTransform)
            && (d.width, d.height) == LastSize(packets, (s.display.width, s.display.height))
    decreases |packets|
  {
    hide HandleGlobal, HandleConfigure;
    if packets != [] {
      var drained, p := SessionLaws.Drained(s), packets[0];
      match p.event {
        case Global(name, interface, version) =>
          GlobalKeepsSettings(drained, p.target, name, interface, version);
        case Configure(serial, width, height, text) =>
          ConfigureKeepsScale(drained, serial, width, height, text);
        case _ =>
      }
      RunSettings(Step(s, p).state, packets[1..]);
    }
  }

  /** Over every session that has not panicked: scale, transform and size are those of the last event of their kind,
      and 1 and zero before the first. */
  lemma SettingsAreLatest(packets: seq<Packet>)
    requires Run(Initial(), packets).Running?
    ensures var d := Run(Initial(), packets).state.display;
            && d.preferredScale == LastScale(packets, 1)
            && d.preferredTransform == LastTransform(packets, 0)
            && (d.width, d.height) == LastSize(packets, (0, 0))
  {
    RunSettings(Initial(), packets);
  }
}
