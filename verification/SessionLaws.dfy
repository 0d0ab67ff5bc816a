/** What holds over every run of the session: no missing object, no dangling name, one surface. */
module SessionLaws {
  import opened Arithmetic
  import opened Base
  import opened Raster
  import opened Session

  // ---------- the request stream ----------

  /** The objects that exist once the requests have been processed. */
  function KnownAfter(known: set<ObjectId>, rs: seq<Request>): set<ObjectId>
    decreases |rs|
  {
    if rs == [] then known else KnownAfter(known + Creates(rs[0]), rs[1..])
  }

  /** Every request is addressed to, and names, only objects that exist when it is processed. */
  predicate NeedsMet(known: set<ObjectId>, rs: seq<Request>)
    decreases |rs|
  {
    rs == [] || (Needs(rs[0]) <= known && NeedsMet(known + Creates(rs[0]), rs[1..]))
  }

  lemma {:induction false} StreamConcat(known: set<ObjectId>, a: seq<Request>, b: seq<Request>)
    ensures KnownAfter(known, a + b) == KnownAfter(KnownAfter(known, a), b)
    ensures NeedsMet(known, a + b) <==> NeedsMet(known, a) && NeedsMet(KnownAfter(known, a), b)
    decreases |a|
  {
    hide Needs, Creates;
    if a == [] {
      assert a + b == b;
    } else {
      assert (a + b)[1..] == a[1..] + b;
      StreamConcat(known + Creates(a[0]), a[1..], b);
    }
  }

  function Known(s: State): set<ObjectId>
  {
    KnownAfter({DISPLAY}, s.sent)
  }

  predicate StreamOk(s: State)
  {
    NeedsMet({DISPLAY}, s.sent)
  }

  /** Meaning of a well-formed stream, request by request. */
  lemma RequestNamesExist(rs: seq<Request>, i: nat)
    requires NeedsMet({DISPLAY}, rs) && i < |rs|
    ensures Needs(rs[i]) <= KnownAfter({DISPLAY}, rs[..i])
  {
    StreamConcat({DISPLAY}, rs[..i], rs[i..]);
    assert rs == rs[..i] + rs[i..];
  }

  lemma SendOne(s: State, r: Request)
    requires StreamOk(s) && Needs(r) <= Known(s)
    ensures StreamOk(Send(s, [r])) && Known(Send(s, [r])) == Known(s) + Creates(r)
  {
    hide Needs, Creates;
    StreamConcat({DISPLAY}, s.sent, [r]);
    assert [r][1..] == [];
  }

  lemma SendSplit(s: State, a: seq<Request>, b: seq<Request>)
    ensures Send(s, a + b) == Send(Send(s, a), b)
  {
    assert s.sent + (a + b) == s.sent + a + b;
  }

  lemma SendTwo(s: State, a: Request, b: Request)
    requires StreamOk(s) && Needs(a) <= Known(s) && Needs(b) <= Known(s) + Creates(a)
    ensures StreamOk(Send(s, [a, b])) && Known(Send(s, [a, b])) == Known(s) + Creates(a) + Creates(b)
  {
    hide Needs, Creates, StreamOk, Known;
    SendOne(s, a);
    SendOne(Send(s, [a]), b);
    SendSplit(s, [a], [b]);
    assert [a] + [b] == [a, b];
  }

  lemma SendThree(s: State, a: Request, b: Request, c: Request)
    requires StreamOk(s) && Needs(a) <= Known(s) && Needs(b) <= Known(s) + Creates(a)
    requires Needs(c) <= Known(s) + Creates(a) + Creates(b)
    ensures StreamOk(Send(s, [a, b, c]))
    ensures Known(Send(s, [a, b, c])) == Known(s) + Creates(a) + Creates(b) + Creates(c)
  {
    hide Needs, Creates, StreamOk, Known;
    SendTwo(s, a, b);
    SendOne(Send(s, [a, b]), c);
    SendSplit(s, [a, b], [c]);
    assert [a, b] + [c] == [a, b, c];
  }

  // ---------- the invariant ----------

  predicate DisplayKnown(d: DisplayState, known: set<ObjectId>)
  {
    && (d.compositor.Some? ==> d.compositor.value in known)
    && (d.layerShell.Some? ==> d.layerShell.value in known)
    && (d.shm.Some? ==> d.shm.value in known)
    && (d.surface.Some? ==> d.surface.value in known)
    && (d.layerSurface.Some? ==> d.layerSurface.value in known)
  }

  predicate HasLayerSurface(m: map<ObjectId, Kind>)
  {
    exists id :: id in m && m[id] == LayerSurfaceEvents
  }

  /** Handlers are registered for existing objects only, and the layer surface's handler only once
      everything that `handle_configure` unwraps has been set. */
  predicate Inv(s: State)
  {
    && StreamOk(s)
    && DisplayKnown(s.display, Known(s))
    && s.handlers.Keys <= Known(s) && s.queued.Keys <= Known(s)
    && (HasLayerSurface(s.handlers) || HasLayerSurface(s.queued) ==> AllBound(s.display))
  }

  lemma InitialInv()
    ensures Inv(Initial())
  {
    var empty := State(DEFAULT_DISPLAY, 3, map[], map[DISPLAY := DisplayEvents, 2 := RegistryEvents], []);
    assert Initial() == Send(empty, [GetRegistry(2)]);
    SendOne(empty, GetRegistry(2));
  }

  function Drained(s: State): State
  {
    s.(handlers := s.handlers + s.queued, queued := map[])
  }

  lemma DrainKeepsInv(s: State)
    requires Inv(s)
    ensures Inv(Drained(s))
  {
    assert HasLayerSurface(s.handlers + s.queued) ==> HasLayerSurface(s.handlers) || HasLayerSurface(s.queued);
  }

  lemma CreateSurfacesKeepsInv(s: State)
    requires Inv(s)
    ensures Inv(CreateSurfaces(s))
  {
    var d := s.display;
    if d.compositor.Some? && d.layerShell.Some? && d.shm.Some? {
      hide KnownAfter, NeedsMet, Known, StreamOk;
      var surface, layerSurface := NextId(s), NextId(Allocated(s));
      var a, b, c := CreateSurface(d.compositor.value, surface),
                     GetLayerSurface(d.layerShell.value, layerSurface, surface, OVERLAY, "activation"), Commit(surface);
      SendThree(s, a, b, c);
      SameStream(Send(s, [a, b, c]), CreateSurfaces(s));
    }
  }

  lemma SameStream(s: State, t: State)
    requires s.sent == t.sent
    ensures StreamOk(s) == StreamOk(t) && Known(s) == Known(t)
  {
  }

  lemma GlobalKeepsInv(s: State, registry: ObjectId, name: u32, interface: string, version: u32)
    requires Inv(s) && registry in Known(s)
    ensures Inv(HandleGlobal(s, registry, name, interface, version))
  {
    hide KnownAfter, NeedsMet, Known, StreamOk;
    var id := NextId(s);
    var bind := Bind(registry, name, interface, version, id);
    SendOne(s, bind);
    var bound := Send(Allocated(s), [bind]);
    SameStream(Send(s, [bind]), bound);
    if interface == COMPOSITOR {
      var next := bound.(display := s.display.(compositor := Some(id)));
      SameStream(bound, next);
      CreateSurfacesKeepsInv(next);
    } else if interface == LAYER_SHELL {
      var next := bound.(display := s.display.(layerShell := Some(id)));
      SameStream(bound, next);
      CreateSurfacesKeepsInv(next);
    } else if interface == SHM {
      var next := Queue(bound, id, ShmEvents).(display := s.display.(shm := Some(id)));
      SameStream(bound, next);
      assert HasLayerSurface(next.queued) ==> HasLayerSurface(s.queued);
      CreateSurfacesKeepsInv(next);
    }
  }

  // ---------- the stages of a configure event ----------

  lemma PlacedKeepsInv(s: State, width: u32, height: u32, scale: nat)
    requires Inv(s) && s.display.layerSurface.Some? && scale > 0
    ensures Inv(Placed(s, width, height, scale))
  {
    hide KnownAfter, NeedsMet, Known, StreamOk;
    var rs := PlaceRequests(s.display.layerSurface.value, width, height, scale);
    SendThree(s, rs[0], rs[1], rs[2]);
  }

  lemma RegionKeepsInv(s: State)
    requires Inv(s) && s.display.compositor.Some?
    ensures Inv(WithRegion(s)) && Known(WithRegion(s)) == Known(s) + {NextId(s)}
  {
    hide KnownAfter, NeedsMet, Known, StreamOk, NextId;
    SameStream(s, Allocated(s));
    SendOne(Allocated(s), CreateRegion(s.display.compositor.value, NextId(s)));
  }

  lemma PoolKeepsInv(s: State, length: i32)
    requires Inv(s) && s.display.shm.Some?
    ensures Inv(WithPool(s, length)) && Known(WithPool(s, length)) == Known(s) + {NextId(s)}
  {
    hide KnownAfter, NeedsMet, Known, StreamOk, NextId;
    SameStream(s, Allocated(s));
    SendOne(Allocated(s), CreatePool(s.display.shm.value, NextId(s), length));
  }

  lemma BufferKeepsInv(s: State, pool: ObjectId, width: u32, height: u32)
    requires Inv(s) && pool in Known(s) && width * 4 < 0x8000_0000 && height < 0x8000_0000
    ensures var t := WithBuffer(WithBufferId(s), pool, NextId(s), width, height);
            Inv(t) && Known(t) == Known(s) + {NextId(s)}
  {
    hide KnownAfter, NeedsMet, Known, StreamOk, NextId;
    var registered := WithBufferId(s);
    SameStream(s, registered);
    SendOne(registered, CreateBuffer(pool, NextId(s), 0, width, height, width * 4, ARGB8888));
    assert HasLayerSurface(registered.queued) ==> HasLayerSurface(s.queued);
  }

  lemma PresentedKeepsInv(s: State, buffer: ObjectId, region: ObjectId)
    requires Inv(s) && s.display.surface.Some? && buffer in Known(s) && region in Known(s)
    ensures Inv(Presented(s, buffer, region))
  {
    hide KnownAfter, NeedsMet, Known, StreamOk;
    var rs := PresentRequests(s.display.surface.value, buffer, region, s.display.preferredScale);
    SendThree(s, rs[0], rs[1], rs[2]);
    assert rs[..3] == [rs[0], rs[1], rs[2]] && rs[3..] == [rs[3]] && rs == rs[..3] + rs[3..];
    SendOne(Send(s, rs[..3]), rs[3]);
    SendSplit(s, rs[..3], rs[3..]);
  }

  /** The sizes that can be presented. */
  predicate Showable(width: nat, height: nat)
  {
    BufferLength(width, height) < 0x8000_0000 && width * 4 < 0x8000_0000 && height < 0x8000_0000
  }

  /** The stream is well formed however far the event gets; with everything bound it gets through if and only if
      the sizes can be presented. */
  lemma ShowKeepsInv(s: State, width: u32, height: u32, scale: nat)
    requires Inv(s) && s.display.layerSurface.Some? && scale > 0
    ensures match Show(s, width, height, scale)
            case Crashed(c, end) =>
              StreamOk(end) && (AllBound(s.display) ==> c != UnwrapOnNone && !Showable(width, height))
            case Running(next) => Inv(next) && Showable(width, height)
  {
    hide KnownAfter, NeedsMet, Known, StreamOk, NextId, BufferLength, PlaceRequests, PresentRequests;
    PlacedKeepsInv(s, width, height, scale);
    var placed := Placed(s, width, height, scale);
    if placed.display.compositor.Some? {
      RegionKeepsInv(placed);
      var regioned := WithRegion(placed);
      if regioned.display.shm.Some? && BufferLength(width, height) < 0x8000_0000 {
        PoolKeepsInv(regioned, BufferLength(width, height));
        var pooled := WithPool(regioned, BufferLength(width, height));
        SameStream(pooled, WithBufferId(pooled));
        if Showable(width, height) {
          BufferKeepsInv(pooled, NextId(regioned), width, height);
          var buffered := WithBuffer(WithBufferId(pooled), NextId(regioned), NextId(pooled), width, height);
          if buffered.display.surface.Some? {
            PresentedKeepsInv(buffered, NextId(pooled), NextId(placed));
          }
        }
      }
    }
  }

  /** With everything bound, the only crashes left are those of the arithmetic. */
  lemma ConfigureKeepsInv(s: State, serial: u32, width: u32, height: u32, text: Image)
    requires Inv(s)
    ensures match HandleConfigure(s, serial, width, height, text)
            case Crashed(c, end) =>
              && StreamOk(end)
              && (AllBound(s.display) ==> c != UnwrapOnNone && !BufferFits(s.display.preferredScale, text))
            case Running(next) => Inv(next) && BufferFits(s.display.preferredScale, text)
  {
    hide KnownAfter, NeedsMet, Known, StreamOk, RoundUp, BufferLength, Show;
    MagnitudeIsZero(s.display.preferredScale);
    var sized := s.(display := s.display.(width := width, height := height));
    SameStream(s, sized);
    if sized.display.layerSurface.Some? {
      var ack := AckConfigure(sized.display.layerSurface.value, serial);
      SendOne(sized, ack);
      var scale := Magnitude(s.display.preferredScale);
      if scale > 0 {
        var w, h := RoundUp(text.width, scale), RoundUp(text.height, scale);
        if w < 0x1_0000_0000 && h < 0x1_0000_0000 {
          ShowKeepsInv(Send(sized, [ack]), w, h, scale);
        }
      }
    }
  }

  lemma StepKeepsInv(s: State, p: Packet)
    requires Inv(s)
    ensures match Step(s, p)
            case Crashed(c, end) => c != UnwrapOnNone && StreamOk(end)
            case Running(next) => Inv(next)
  {
    hide KnownAfter, NeedsMet, Known, StreamOk, HandleGlobal, HandleConfigure, BufferFits;
    DrainKeepsInv(s);
    var drained := Drained(s);
    if p.target in drained.handlers && drained.handlers[p.target] == KindOf(p.event) {
      match p.event
      case Global(name, interface, version) =>
        GlobalKeepsInv(drained, p.target, name, interface, version);
      case PreferredScale(factor) =>
        SameStream(drained, drained.(display := drained.display.(preferredScale := factor)));
      case PreferredTransform(t) =>
        SameStream(drained, drained.(display := drained.display.(preferredTransform := t)));
      case Configure(serial, width, height, text) =>
        assert HasLayerSurface(drained.handlers);
        ConfigureKeepsInv(drained, serial, width, height, text);
      case Ignored(_) =>
    }
  }

  lemma {:induction false} RunKeepsInv(s: State, packets: seq<Packet>)
    requires Inv(s)
    ensures match Run(s, packets)
            case Crashed(c, end) => c != UnwrapOnNone && StreamOk(end)
            case Running(next) => Inv(next)
    decreases |packets|
  {
    hide Inv, Step;
    if packets != [] {
      StepKeepsInv(s, packets[0]);
      if Step(s, packets[0]).Running? {
        RunKeepsInv(Step(s, packets[0]).state, packets[1..]);
      }
    }
  }

  /** Whatever packets arrive, and whether or not the session ends in a panic: the four `unwrap`s of
      `handle_configure` never meet a `None`, and every request on the stream is addressed to and names only
      objects that an earlier request made. */
  lemma SessionSafety(packets: seq<Packet>)
    ensures Run(Initial(), packets).Crashed? ==> Run(Initial(), packets).crash != UnwrapOnNone
    ensures var sent := Run(Initial(), packets).state.sent;
            forall i :: 0 <= i < |sent| ==> Needs(sent[i]) <= KnownAfter({DISPLAY}, sent[..i])
  {
    hide Needs, Creates, KnownAfter, NeedsMet, Run;
    InitialInv();
    RunKeepsInv(Initial(), packets);
    var sent := Run(Initial(), packets).state.sent;
    forall i | 0 <= i < |sent|
      ensures Needs(sent[i]) <= KnownAfter({DISPLAY}, sent[..i])
    {
      RequestNamesExist(sent, i);
    }
  }

  /** In every reachable state a configure event that reaches the layer surface's handler is carried out
      in full exactly when the scale and the sizes are ones that the arithmetic can handle. */
  lemma ConfigureOutcome(packets: seq<Packet>, s: State, p: Packet)
    requires Run(Initial(), packets) == Running(s) && p.event.Configure?
    requires p.target in Drained(s).handlers && Drained(s).handlers[p.target] == LayerSurfaceEvents
    ensures Step(s, p).Running? <==> BufferFits(s.display.preferredScale, p.event.text)
    ensures s.display.preferredScale == 0 ==> Step(s, p).Crashed? && Step(s, p).crash == BadScale
  {
    hide KnownAfter, NeedsMet, Known, StreamOk, BufferFits, Run;
    InitialInv();
    RunKeepsInv(Initial(), packets);
    DrainKeepsInv(s);
    assert HasLayerSurface(Drained(s).handlers);
    ConfigureKeepsInv(Drained(s), p.event.serial, p.event.width, p.event.height, p.event.text);
  }

  // ---------- how many surfaces ----------

  datatype Made = Surface | LayerSurface

  predicate Makes(m: Made, r: Request)
  {
    if m == Surface then r.CreateSurface? else r.GetLayerSurface?
  }

  function Count(m: Made, rs: seq<Request>): nat
    decreases |rs|
  {
    if rs == [] then 0 else (if Makes(m, rs[0]) then 1 else 0) + Count(m, rs[1..])
  }

  lemma {:induction false} CountConcat(m: Made, a: seq<Request>, b: seq<Request>)
    ensures Count(m, a + b) == Count(m, a) + Count(m, b)
    decreases |a|
  {
    if a == [] {
      assert a + b == b;
    } else {
      assert (a + b)[1..] == a[1..] + b;
      CountConcat(m, a[1..], b);
    }
  }

  predicate Wanted(interface: string)
  {
    interface == COMPOSITOR || interface == LAYER_SHELL || interface == SHM
  }

  /** The wanted interfaces whose objects have been bound. */
  function BoundInterfaces(d: DisplayState): set<string>
  {
    (if d.compositor.Some? then {COMPOSITOR} else {})
    + (if d.layerShell.Some? then {LAYER_SHELL} else {})
    + (if d.shm.Some? then {SHM} else {})
  }

  const ALL_WANTED := {COMPOSITOR, LAYER_SHELL, SHM}

  /** The wanted interfaces known after an event. */
  function Learned(known: set<string>, e: Event): set<string>
  {
    if e.Global? && Wanted(e.interface) then known + {e.interface} else known
  }

  /** The number of wanted globals handled from the moment all three are known, that one included. */
  function Creations(known: set<string>, packets: seq<Packet>): nat
    decreases |packets|
  {
    if packets == [] then 0
    else
      var e := packets[0].event;
      (if e.Global? && Wanted(e.interface) && Learned(known, e) == ALL_WANTED then 1 else 0)
      + Creations(Learned(known, e), packets[1..])
  }

  /** How often an interface is advertised. */
  function Times(interface: string, packets: seq<Packet>): nat
    decreases |packets|
  {
    if packets == [] then 0
    else (if packets[0].event.Global? && packets[0].event.interface == interface then 1 else 0)
         + Times(interface, packets[1..])
  }

  /** What a wanted global makes the client send: the bind, and the new surface right after the bind
      that completes the three. */
  lemma GlobalSends(s: State, registry: ObjectId, name: u32, interface: string, version: u32)
    requires Wanted(interface)
    ensures var next := HandleGlobal(s, registry, name, interface, version);
            var d := next.display;
            && BoundInterfaces(d) == BoundInterfaces(s.display) + {interface}
            && (BoundInterfaces(d) == ALL_WANTED ==>
                  && d.surface.Some? && d.layerSurface.Some? && d.compositor.Some? && d.layerShell.Some?
                  && next.sent == s.sent + [Bind(registry, name, interface, version, NextId(s))] +
                    [CreateSurface(d.compositor.value, d.surface.value),
                     GetLayerSurface(d.layerShell.value, d.layerSurface.value, d.surface.value, OVERLAY, "activation"),
                     Commit(d.surface.value)])
            && (BoundInterfaces(d) != ALL_WANTED ==>
                  next.sent == s.sent + [Bind(registry, name, interface, version, NextId(s))])
  {
  }

  predicate MakesNone(rs: seq<Request>)
  {
    forall i :: 0 <= i < |rs| ==> !rs[i].CreateSurface? && !rs[i].GetLayerSurface?
  }

  lemma {:induction false} CountNone(m: Made, rs: seq<Request>)
    requires MakesNone(rs)
    ensures Count(m, rs) == 0
    decreases |rs|
  {
    if rs != [] {
      CountNone(m, rs[1..]);
    }
  }

  /** What a successful configure event sends after its acknowledgement, and the IDs in it. */
  lemma ShowSends(s: State, width: u32, height: u32, scale: nat)
    returns (rs: seq<Request>, region: ObjectId, pool: ObjectId, buffer: ObjectId, logicalWidth: u32,
        logicalHeight: u32)
    requires s.display.layerSurface.Some? && scale > 0 && Show(s, width, height, scale).Running?
    ensures AllBound(s.display) && Showable(width, height)
    ensures logicalWidth == width / scale && logicalHeight == height / scale
    ensures var d := s.display;
            && rs == [SetSize(d.layerSurface.value, logicalWidth, logicalHeight),
                      SetAnchor(d.layerSurface.value, ANCHOR_BOTTOM + ANCHOR_RIGHT),
                      SetMargin(d.layerSurface.value, 0, RIGHT_MARGIN, BOTTOM_MARGIN, 0),
                      CreateRegion(d.compositor.value, region),
                      CreatePool(d.shm.value, pool, BufferLength(width, height)),
                      CreateBuffer(pool, buffer, 0, width, height, width * 4, ARGB8888),
                      Attach(d.surface.value, buffer),
                      SetBufferScale(d.surface.value, d.preferredScale),
                      SetInputRegion(d.surface.value, region),
                      Commit(d.surface.value)]
    ensures var next := Show(s, width, height, scale).state; next.sent == s.sent + rs && next.display == s.display
  {
    hide BufferLength, NextId;
    QuotientFits(width, scale);
    QuotientFits(height, scale);
    logicalWidth, logicalHeight := width / scale, height / scale;
    var d := s.display;
    var placed := Placed(s, width, height, scale);
    region := NextId(placed);
    var regioned := WithRegion(placed);
    pool := NextId(regioned);
    var pooled := WithPool(regioned, BufferLength(width, height));
    buffer := NextId(pooled);
    var place := PlaceRequests(d.layerSurface.value, width, height, scale);
    var a, b := CreateRegion(d.compositor.value, region), CreatePool(d.shm.value, pool, BufferLength(width, height));
    var c := CreateBuffer(pool, buffer, 0, width, height, width * 4, ARGB8888);
    var present := PresentRequests(d.surface.value, buffer, region, d.preferredScale);
    rs := place + [a] + [b] + [c] + present;
    FiveParts(s.sent, place, [a], [b], [c], present);
    assert Show(s, width, height, scale).state.sent == s.sent + place + [a] + [b] + [c] + present;
  }

  lemma FiveParts<T>(s: seq<T>, a: seq<T>, b: seq<T>, c: seq<T>, d: seq<T>, e: seq<T>)
    ensures s + a + b + c + d + e == s + (a + b + c + d + e)
  {
  }

  lemma SendsNone(m: Made, s: State, rs: seq<Request>)
    requires MakesNone(rs)
    ensures Count(m, s.sent + rs) == Count(m, s.sent)
  {
    hide Count;
    CountNone(m, rs);
    CountConcat(m, s.sent, rs);
  }

  /** A configure event creates no surface, however far it gets. */
  lemma ShowCreatesNone(m: Made, s: State, width: u32, height: u32, scale: nat)
    requires s.display.layerSurface.Some? && scale > 0
    ensures var end := Show(s, width, height, scale).state;
            Count(m, end.sent) == Count(m, s.sent) && end.display == s.display
  {
    hide Count, NextId, BufferLength;
    var placed := Placed(s, width, height, scale);
    SendsNone(m, s, PlaceRequests(s.display.layerSurface.value, width, height, scale));
    if s.display.compositor.Some? {
      var regioned := WithRegion(placed);
      SendsNone(m, placed, [CreateRegion(s.display.compositor.value, NextId(placed))]);
      var length := BufferLength(width, height);
      if s.display.shm.Some? && length < 0x8000_0000 {
        var pool, pooled := NextId(regioned), WithPool(regioned, length);
        SendsNone(m, regioned, [CreatePool(s.display.shm.value, pool, length)]);
        if width * 4 < 0x8000_0000 && height < 0x8000_0000 {
          var buffer, buffered := NextId(pooled), WithBuffer(WithBufferId(pooled), pool, NextId(pooled), width, height);
          SendsNone(m, pooled, [CreateBuffer(pool, buffer, 0, width, height, width * 4, ARGB8888)]);
          if s.display.surface.Some? {
            var region, shown := NextId(placed), s.display.preferredScale;
            SendsNone(m, buffered, PresentRequests(s.display.surface.value, buffer, region, shown));
          }
        }
      }
    }
  }

  lemma GlobalCreates(m: Made, s: State, registry: ObjectId, name: u32, interface: string, version: u32)
    requires Wanted(interface)
    ensures var next := HandleGlobal(s, registry, name, interface, version);
            Count(m, next.sent) == Count(m, s.sent) + if BoundInterfaces(next.display) == ALL_WANTED then 1 else 0
  {
    hide HandleGlobal, BoundInterfaces, NextId, Wanted;
    GlobalSends(s, registry, name, interface, version);
    var next := HandleGlobal(s, registry, name, interface, version);
    var d := next.display;
    var bind := [Bind(registry, name, interface, version, NextId(s))];
    CountNone(m, bind);
    CountConcat(m, s.sent, bind);
    if BoundInterfaces(d) == ALL_WANTED {
      var a, b, c := CreateSurface(d.compositor.value, d.surface.value),
                     GetLayerSurface(d.layerShell.value, d.layerSurface.value, d.surface.value, OVERLAY, "activation"),
                     Commit(d.surface.value);
      CountThree(m, a, b, c);
      CountConcat(m, s.sent + bind, [a, b, c]);
    }
  }

  lemma CountThree(m: Made, a: Request, b: Request, c: Request)
    requires a.CreateSurface? && b.GetLayerSurface? && c.Commit?
    ensures Count(m, [a, b, c]) == 1
  {
    CountNone(m, [c]);
    assert [a, b, c][1..] == [b, c] && [b, c][1..] == [c];
  }

  lemma StepCreates(m: Made, s: State, p: Packet)
    requires Step(s, p).Running?
    ensures var next, known := Step(s, p).state, Learned(BoundInterfaces(s.display), p.event);
            && BoundInterfaces(next.display) == known
            && Count(m, next.sent) == Count(m, s.sent)
                 + if p.event.Global? && Wanted(p.event.interface) && known == ALL_WANTED then 1 else 0
  {
    hide Count, HandleGlobal, CreateSurfaces, HandleConfigure;
    var drained := Drained(s);
    match p.event
    case Global(name, interface, version) =>
      if Wanted(interface) {
        GlobalSends(drained, p.target, name, interface, version);
        GlobalCreates(m, drained, p.target, name, interface, version);
      } else {
        UnwantedIgnored(drained, p.target, name, interface, version);
      }
    case Configure(serial, width, height, text) =>
      ConfigureCreatesNone(m, drained, serial, width, height, text);
    case _ =>
  }

  lemma CrashCreatesNone(m: Made, s: State, p: Packet)
    requires Step(s, p).Crashed?
    ensures Count(m, Step(s, p).state.sent) == Count(m, s.sent)
  {
    hide Count, HandleGlobal, HandleConfigure;
    if p.event.Configure? {
      ConfigureCreatesNone(m, Drained(s), p.event.serial, p.event.width, p.event.height, p.event.text);
    }
  }

  lemma UnwantedIgnored(s: State, registry: ObjectId, name: u32, interface: string, version: u32)
    ensures !Wanted(interface) ==> HandleGlobal(s, registry, name, interface, version) == s
  {
  }

  lemma ConfigureCreatesNone(m: Made, s: State, serial: u32, width: u32, height: u32, text: Image)
    ensures var end := HandleConfigure(s, serial, width, height, text).state;
            Count(m, end.sent) == Count(m, s.sent) && BoundInterfaces(end.display) == BoundInterfaces(s.display)
  {
    hide Count, Show, RoundUp, BufferLength;
    MagnitudeIsZero(s.display.preferredScale);
    var sized := s.(display := s.display.(width := width, height := height));
    if s.display.layerSurface.Some? {
      var ack := [AckConfigure(s.display.layerSurface.value, serial)];
      SendsNone(m, s, ack);
      var scale := Magnitude(s.display.preferredScale);
      if scale > 0 {
        var w, h := RoundUp(text.width, scale), RoundUp(text.height, scale);
        if w < 0x1_0000_0000 && h < 0x1_0000_0000 {
          ShowCreatesNone(m, Send(sized, ack), w, h, scale);
        }
      }
    }
  }

  /** The packets that a session handles: all of them, or those before the one that makes it panic. */
  function Handled(s: State, packets: seq<Packet>): seq<Packet>
    decreases |packets|
  {
    if packets == [] || Step(s, packets[0]).Crashed? then []
    else [packets[0]] + Handled(Step(s, packets[0]).state, packets[1..])
  }

  lemma {:induction false} HandledExact(s: State, packets: seq<Packet>)
    ensures Handled(s, packets) <= packets && Run(s, Handled(s, packets)).Running?
    ensures match Run(s, packets)
            case Running(_) => Handled(s, packets) == packets
            case Crashed(c, end) =>
              var n := |Handled(s, packets)|;
              n < |packets| && Step(Run(s, Handled(s, packets)).state, packets[n]) == Crashed(c, end)
    decreases |packets|
  {
    hide Step;
    if packets != [] && Step(s, packets[0]).Running? {
      var next := Step(s, packets[0]).state;
      HandledExact(next, packets[1..]);
      assert Handled(s, packets)[1..] == Handled(next, packets[1..]);
    }
  }

  /** Over every run, whether or not it ends in a panic, the surfaces created are as many as the wanted
      globals handled from the moment all three objects are known; and so are the layer surfaces. */
  lemma {:induction false} SurfacesCreated(m: Made, s: State, packets: seq<Packet>)
    ensures Count(m, Run(s, packets).state.sent)
            == Count(m, s.sent) + Creations(BoundInterfaces(s.display), Handled(s, packets))
    decreases |packets|
  {
    hide Count, Step, BoundInterfaces, Wanted;
    if packets != [] {
      if Step(s, packets[0]).Crashed? {
        CrashCreatesNone(m, s, packets[0]);
      } else {
        var next := Step(s, packets[0]).state;
        StepCreates(m, s, packets[0]);
        SurfacesCreated(m, next, packets[1..]);
        assert Handled(s, packets)[1..] == Handled(next, packets[1..]);
      }
    }
  }

  /** If what is still missing is advertised exactly once, and the rest not again, one surface is created. */
  lemma {:induction false} OnceEach(known: set<string>, packets: seq<Packet>)
    requires known <= ALL_WANTED
    requires forall i :: i in ALL_WANTED ==> Times(i, packets) == if i in known then 0 else 1
    ensures Creations(known, packets) == if known == ALL_WANTED then 0 else 1
    decreases |packets|
  {
    if packets == [] {
      forall i | i in ALL_WANTED ensures i in known {
        assert Times(i, packets) == 0;
      }
      assert known == ALL_WANTED;
    } else {
      var e := packets[0].event;
      var next := Learned(known, e);
      if e.Global? && Wanted(e.interface) {
        assert e.interface in ALL_WANTED;
        assert e.interface !in known;
      }
      OnceEach(next, packets[1..]);
    }
  }

  /** Each wanted interface advertised exactly once among what the session handles, in any order among
      anything else, panic or not: one surface, one layer surface. */
  lemma OneSurface(packets: seq<Packet>)
    requires var handled := Handled(Initial(), packets);
             Times("wl_compositor", handled) == Times("zwlr_layer_shell_v1", handled) == Times("wl_shm", handled) == 1
    ensures Count(Surface, Run(Initial(), packets).state.sent) == 1
    ensures Count(LayerSurface, Run(Initial(), packets).state.sent) == 1
  {
    hide Run, Times, Creations, Handled;
    assert BoundInterfaces(Initial().display) == {};
    OnceEach({}, Handled(Initial(), packets));
    SurfacesCreated(Surface, Initial(), packets);
    SurfacesCreated(LayerSurface, Initial(), packets);
    CountNone(Surface, Initial().sent);
    CountNone(LayerSurface, Initial().sent);
  }

  /** The wanted interfaces known are those that have been advertised. */
  lemma {:induction false} KnownIsAdvertised(s: State, packets: seq<Packet>, interface: string)
    requires Run(s, packets).Running? && Wanted(interface)
    ensures interface in BoundInterfaces(Run(s, packets).state.display) <==>
            interface in BoundInterfaces(s.display) || Times(interface, packets) > 0
    decreases |packets|
  {
    hide Step, BoundInterfaces, Count;
    if packets != [] {
      StepCreates(Surface, s, packets[0]);
      KnownIsAdvertised(Step(s, packets[0]).state, packets[1..], interface);
    }
  }

  /** The surface comes right after the bind with which all three have been advertised. */
  lemma SurfaceAfterLastBind(packets: seq<Packet>, s: State, registry: ObjectId, name: u32, interface: string,
      version: u32)
    requires Run(Initial(), packets) == Running(s)
    requires interface == "wl_compositor" || interface == "zwlr_layer_shell_v1" || interface == "wl_shm"
    requires Step(s, Packet(registry, Global(name, interface, version))).Running?
    ensures var next := Step(s, Packet(registry, Global(name, interface, version))).state;
            var d := next.display;
            var bind := Bind(registry, name, interface, version, NextId(s));
            if forall i :: i in {"wl_compositor", "zwlr_layer_shell_v1", "wl_shm"} ==>
                           i == interface || Times(i, packets) > 0
            then d.surface.Some? && d.layerSurface.Some? && d.compositor.Some? && d.layerShell.Some?
                 && next.sent == s.sent + [bind]
                   + [CreateSurface(d.compositor.value, d.surface.value),
                      GetLayerSurface(d.layerShell.value, d.layerSurface.value, d.surface.value, 3, "activation"),
                      Commit(d.surface.value)]
            else next.sent == s.sent + [bind]
  {
    hide Run, Times, HandleGlobal;
    GlobalSends(Drained(s), registry, name, interface, version);
    forall i | i in ALL_WANTED
      ensures i in BoundInterfaces(s.display) <==> Times(i, packets) > 0
    {
      assert BoundInterfaces(Initial().display) == {};
      KnownIsAdvertised(Initial(), packets, i);
    }
    assert BoundInterfaces(s.display) <= ALL_WANTED;
  }

  // ---------- the buffer ----------

  /** What a configure event that succeeds makes of the text: the least sizes divisible by the scale, a
      logical size that the scale multiplies back to them, and a pool, stride and buffer size that agree
      with each other and with the bytes `to_white_argb_le` produces for that image. */
  lemma BufferAgreement(s: State, serial: u32, width: u32, height: u32, text: Image)
    returns (r: Image, scale: nat, region: ObjectId, pool: ObjectId, buffer: ObjectId, logicalWidth: u32,
        logicalHeight: u32)
    requires HandleConfigure(s, serial, width, height, text).Running?
    ensures scale == Magnitude(s.display.preferredScale) && scale > 0 && r.pixels == text.pixels
    ensures LeastMultiple(text.width, scale, r.width) && LeastMultiple(text.height, scale, r.height)
    ensures logicalWidth * scale == r.width && logicalHeight * scale == r.height
    ensures r.width * 4 < 0x8000_0000 && r.height < 0x8000_0000
    ensures |Rows(r, r.height)| == r.width * 4 * r.height < 0x8000_0000
    ensures var d := s.display;
            && AllBound(d)
            && HandleConfigure(s, serial, width, height, text).state.sent == s.sent +
              [AckConfigure(d.layerSurface.value, serial),
               SetSize(d.layerSurface.value, logicalWidth, logicalHeight),
               SetAnchor(d.layerSurface.value, 10),
               SetMargin(d.layerSurface.value, 0, 150, 100, 0),
               CreateRegion(d.compositor.value, region),
               CreatePool(d.shm.value, pool, |Rows(r, r.height)|),
               CreateBuffer(pool, buffer, 0, r.width, r.height, r.width * 4, 0),
               Attach(d.surface.value, buffer),
               SetBufferScale(d.surface.value, d.preferredScale),
               SetInputRegion(d.surface.value, region),
               Commit(d.surface.value)]
  {
    hide Rows, RoundUp, Show, LeastMultiple;
    MagnitudeIsZero(s.display.preferredScale);
    scale := Magnitude(s.display.preferredScale);
    r := Image(RoundUp(text.width, scale), RoundUp(text.height, scale), text.pixels);
    BufferIsWhole(r);
    RoundUpIsLeast(text.width, scale);
    RoundUpIsLeast(text.height, scale);
    WholeQuotient(text.width, scale, r.width);
    WholeQuotient(text.height, scale, r.height);
    var sized := s.(display := s.display.(width := width, height := height));
    var ack := [AckConfigure(s.display.layerSurface.value, serial)];
    var rs;
    rs, region, pool, buffer, logicalWidth, logicalHeight := ShowSends(Send(sized, ack), r.width, r.height, scale);
    assert s.sent + ack + rs == s.sent + (ack + rs);
  }

  /** Where a configure event that panics with everything bound has got to: the acknowledgement alone if the scale or
      the 32-bit sizes are to blame, with four requests more if the bytes do not fit a pool, and with the pool too if
      a row or the height does not fit the buffer request. */
  lemma PanicPoint(s: State, serial: u32, width: u32, height: u32, text: Image)
    requires AllBound(s.display) && HandleConfigure(s, serial, width, height, text).Crashed?
    ensures var o, scale := HandleConfigure(s, serial, width, height, text), s.display.preferredScale;
            var sent := o.state.sent;
            && s.sent <= sent
            && if scale == 0 || scale == -0x8000_0000 then o.crash == BadScale && |sent| == |s.sent| + 1
               else
                 && o.crash == Overflow && Magnitude(scale) > 0
                 && var w, h := RoundUp(text.width, Magnitude(scale)), RoundUp(text.height, Magnitude(scale));
                    |sent| == |s.sent| +
                      (if w >= 0x1_0000_0000 || h >= 0x1_0000_0000 || w * h * 4 >= 0x1_0000_0000 then 1
                       else if w * h * 4 >= 0x8000_0000 then 5
                       else 6)
  {
    hide RoundUp, NextId;
    MagnitudeIsZero(s.display.preferredScale);
  }

  lemma WholeQuotient(n: u32, scale: nat, r: nat)
    requires scale > 0 && LeastMultiple(n, scale, r)
    ensures r / scale * scale == r
  {
    assert r == r / scale * scale + r % scale;
  }
}
