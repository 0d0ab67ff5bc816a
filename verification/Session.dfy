/** The client session of the "activate" example: what each event handler does to the display state, to
    the registered handlers and to the stream of requests. */
module Session {
  import opened Arithmetic
  import opened Base
  import opened Raster
  import ObjectIds

  /** The event handlers of the example, by the interface whose events they decode. */
  datatype Kind = DisplayEvents | RegistryEvents | SurfaceEvents | LayerSurfaceEvents | ShmEvents | BufferEvents

  datatype DisplayState = DisplayState(
    compositor: Option<ObjectId>, layerShell: Option<ObjectId>, shm: Option<ObjectId>,
    surface: Option<ObjectId>, layerSurface: Option<ObjectId>,
    preferredScale: i32, preferredTransform: u32, width: u32, height: u32)

  const DEFAULT_DISPLAY := DisplayState(None, None, None, None, None, 1, 0, 0, 0)

  const OVERLAY: u32 := 3
  const ANCHOR_BOTTOM: u32 := 2
  const ANCHOR_RIGHT: u32 := 8
  const ARGB8888: u32 := 0
  const RIGHT_MARGIN: i32 := 150
  const BOTTOM_MARGIN: i32 := 100

  datatype Request =
    | GetRegistry(newId: ObjectId)
    | Bind(registry: ObjectId, name: u32, interface: string, version: u32, newId: ObjectId)
    | CreateSurface(compositor: ObjectId, newId: ObjectId)
    | GetLayerSurface(layerShell: ObjectId, newId: ObjectId, surface: ObjectId, layer: u32, namespace: string)
    | Commit(surface: ObjectId)
    | AckConfigure(layerSurface: ObjectId, serial: u32)
    | SetSize(layerSurface: ObjectId, width: u32, height: u32)
    | SetAnchor(layerSurface: ObjectId, anchor: u32)
    | SetMargin(layerSurface: ObjectId, top: i32, right: i32, bottom: i32, left: i32)
    | CreateRegion(compositor: ObjectId, newId: ObjectId)
    | CreatePool(shm: ObjectId, newId: ObjectId, size: i32)
    | CreateBuffer(pool: ObjectId, newId: ObjectId, offset: i32, bufWidth: i32, bufHeight: i32, stride: i32,
                   format: u32)
    | Attach(surface: ObjectId, buffer: ObjectId)
    | SetBufferScale(surface: ObjectId, scale: i32)
    | SetInputRegion(surface: ObjectId, region: ObjectId)

  /** The object a request is addressed to, and the other existing objects it names. */
  function Needs(r: Request): set<ObjectId>
  {
    match r
    case GetRegistry(_) => {DISPLAY}
    case Bind(registry, _, _, _, _) => {registry}
    case CreateSurface(compositor, _) => {compositor}
    case GetLayerSurface(layerShell, _, surface, _, _) => {layerShell, surface}
    case Commit(surface) => {surface}
    case AckConfigure(ls, _) => {ls}
    case SetSize(ls, _, _) => {ls}
    case SetAnchor(ls, _) => {ls}
    case SetMargin(ls, _, _, _, _) => {ls}
    case CreateRegion(compositor, _) => {compositor}
    case CreatePool(shm, _, _) => {shm}
    case CreateBuffer(pool, _, _, _, _, _, _) => {pool}
    case Attach(surface, buffer) => {surface, buffer}
    case SetBufferScale(surface, _) => {surface}
    case SetInputRegion(surface, region) => {surface, region}
  }

  function Creates(r: Request): set<ObjectId>
  {
    if r.GetRegistry? || r.Bind? || r.CreateSurface? || r.GetLayerSurface? || r.CreateRegion? || r.CreatePool?
       || r.CreateBuffer?
    then {r.newId} else {}
  }

  /** Everything the session consists of. `queued` holds registrations that the next dispatch will see. */
  datatype State = State(
    display: DisplayState, counter: u32, handlers: map<ObjectId, Kind>, queued: map<ObjectId, Kind>,
    sent: seq<Request>)

  /** An event as the handler at its target decodes it. The rendered text that a configure event leads
      to is an input. */
  datatype Event =
    | Global(name: u32, interface: string, version: u32)
    | PreferredScale(factor: i32)
    | PreferredTransform(transform: u32)
    | Configure(serial: u32, width: u32, height: u32, text: Image)
    | Ignored(kind: Kind)

  function KindOf(e: Event): Kind
  {
    match e
    case Global(_, _, _) => RegistryEvents
    case PreferredScale(_) => SurfaceEvents
    case PreferredTransform(_) => SurfaceEvents
    case Configure(_, _, _, _) => LayerSurfaceEvents
    case Ignored(kind) => kind
  }

  datatype Packet = Packet(target: ObjectId, event: Event)

  datatype Crash = UnwrapOnNone | BadScale | Overflow | NoHandler

  /** A crash leaves the state, and the requests sent, as they were when it happened. */
  datatype Outcome = Running(state: State) | Crashed(crash: Crash, state: State)

  // ---------- the steps, as functions of the state ----------

  function NextId(s: State): ObjectId
  {
    ObjectIds.IdAt(s.counter)
  }

  /** The state after allocating `NextId(s)`. */
  function Allocated(s: State): State
  {
    s.(counter := (NextId(s) + 1) % 0x1_0000_0000)
  }

  function Send(s: State, rs: seq<Request>): State
  {
    s.(sent := s.sent + rs)
  }

  function Queue(s: State, id: ObjectId, kind: Kind): State
  {
    s.(queued := s.queued[id := kind])
  }

  function Initial(): State
  {
    var s := Queue(State(DEFAULT_DISPLAY, 2, map[], map[], []), DISPLAY, DisplayEvents);
    var registry := NextId(s);
    Send(Queue(Allocated(s), registry, RegistryEvents), [GetRegistry(registry)])
  }

  function CreateSurfaces(s: State): State
  {
    var d := s.display;
    if d.compositor == None || d.layerShell == None || d.shm == None then s
    else
      var surface := NextId(s);
      var s1 := Allocated(s);
      var layerSurface := NextId(s1);
      var s2 := Allocated(s1);
      var s3 := Queue(Queue(s2, surface, SurfaceEvents), layerSurface, LayerSurfaceEvents);
      Send(s3.(display := d.(surface := Some(surface), layerSurface := Some(layerSurface))),
           [CreateSurface(d.compositor.value, surface),
            GetLayerSurface(d.layerShell.value, layerSurface, surface, OVERLAY, "activation"),
            Commit(surface)])
  }

  const COMPOSITOR := "wl_compositor"
  const LAYER_SHELL := "zwlr_layer_shell_v1"
  const SHM := "wl_shm"

  function HandleGlobal(s: State, registry: ObjectId, name: u32, interface: string, version: u32): State
  {
    var id := NextId(s);
    var bound := Send(Allocated(s), [Bind(registry, name, interface, version, id)]);
    if interface == COMPOSITOR then
      CreateSurfaces(bound.(display := s.display.(compositor := Some(id))))
    else if interface == LAYER_SHELL then
      CreateSurfaces(bound.(display := s.display.(layerShell := Some(id))))
    else if interface == SHM then
      CreateSurfaces(Queue(bound, id, ShmEvents).(display := s.display.(shm := Some(id))))
    else s
  }

  function Magnitude(v: int): nat
  {
    if v < 0 then -v else v
  }

  /** No arithmetic or conversion in `handle_configure` panics: the scale is neither zero nor the
      least `i32`, the rounded sizes fit their types, and so does the length of the pixel buffer. */
  predicate BufferFits(scale: i32, text: Image)
  {
    scale != 0 && scale != -0x8000_0000 &&
    var w, h := RoundUp(text.width, Magnitude(scale)), RoundUp(text.height, Magnitude(scale));
    BufferLength(w, h) < 0x8000_0000 && w * 4 < 0x8000_0000 && h < 0x8000_0000
  }

  lemma BufferIsWhole(image: Image)
    ensures |Rows(image, image.height)| == BufferLength(image.width, image.height)
  {
  }

  lemma MagnitudeIsZero(v: i32)
    ensures Magnitude(v) > 0 <==> v != 0
  {
  }

  function PlaceRequests(layerSurface: ObjectId, width: u32, height: u32, scale: nat): seq<Request>
    requires scale > 0
  {
    QuotientFits(width, scale);
    QuotientFits(height, scale);
    [SetSize(layerSurface, width / scale, height / scale),
     SetAnchor(layerSurface, ANCHOR_BOTTOM + ANCHOR_RIGHT),
     SetMargin(layerSurface, 0, RIGHT_MARGIN, BOTTOM_MARGIN, 0)]
  }

  function PresentRequests(surface: ObjectId, buffer: ObjectId, region: ObjectId, scale: i32): seq<Request>
  {
    [Attach(surface, buffer), SetBufferScale(surface, scale), SetInputRegion(surface, region), Commit(surface)]
  }

  predicate AllBound(d: DisplayState)
  {
    d.compositor.Some? && d.shm.Some? && d.surface.Some? && d.layerSurface.Some?
  }

  // ---------- the stages of a configure event ----------

  function Placed(s: State, width: u32, height: u32, scale: nat): State
    requires s.display.layerSurface.Some? && scale > 0
  {
    Send(s, PlaceRequests(s.display.layerSurface.value, width, height, scale))
  }

  function WithRegion(s: State): State
    requires s.display.compositor.Some?
  {
    Send(Allocated(s), [CreateRegion(s.display.compositor.value, NextId(s))])
  }

  function WithPool(s: State, length: i32): State
    requires s.display.shm.Some?
  {
    Send(Allocated(s), [CreatePool(s.display.shm.value, NextId(s), length)])
  }

  /** The buffer's ID is allocated and its handler registered before its sizes are converted. */
  function WithBufferId(s: State): State
  {
    Queue(Allocated(s), NextId(s), BufferEvents)
  }

  function WithBuffer(s: State, pool: ObjectId, buffer: ObjectId, width: u32, height: u32): State
    requires width * 4 < 0x8000_0000 && height < 0x8000_0000
  {
    Send(s, [CreateBuffer(pool, buffer, 0, width, height, width * 4, ARGB8888)])
  }

  function Presented(s: State, buffer: ObjectId, region: ObjectId): State
    requires s.display.surface.Some?
  {
    Send(s, PresentRequests(s.display.surface.value, buffer, region, s.display.preferredScale))
  }

  /** From the surface's place to its presentation, for an image of the given size. */
  function Show(s: State, width: u32, height: u32, scale: nat): Outcome
    requires s.display.layerSurface.Some? && scale > 0
  {
    var placed := Placed(s, width, height, scale);
    if s.display.compositor == None then Crashed(UnwrapOnNone, placed)
    else
      var region := NextId(placed);
      var regioned := WithRegion(placed);
      if BufferLength(width, height) >= 0x8000_0000 then Crashed(Overflow, regioned)
      else if s.display.shm == None then Crashed(UnwrapOnNone, regioned)
      else
        var pool := NextId(regioned);
        var pooled := WithPool(regioned, BufferLength(width, height));
        var buffer := NextId(pooled);
        var registered := WithBufferId(pooled);
        if width * 4 >= 0x8000_0000 || height >= 0x8000_0000 then Crashed(Overflow, registered)
        else
          var buffered := WithBuffer(registered, pool, buffer, width, height);
          if s.display.surface == None then Crashed(UnwrapOnNone, buffered)
          else Running(Presented(buffered, buffer, region))
  }

  /** The crashes are in the order in which the code can meet them. */
  function HandleConfigure(s: State, serial: u32, width: u32, height: u32, text: Image): Outcome
  {
    var sized := s.(display := s.display.(width := width, height := height));
    if s.display.layerSurface == None then Crashed(UnwrapOnNone, sized)
    else
      var acknowledged := Send(sized, [AckConfigure(s.display.layerSurface.value, serial)]);
      if s.display.preferredScale == 0 || s.display.preferredScale == -0x8000_0000 then Crashed(BadScale, acknowledged)
      else
        MagnitudeIsZero(s.display.preferredScale);
        var scale := Magnitude(s.display.preferredScale);
        var w, h := RoundUp(text.width, scale), RoundUp(text.height, scale);
        if w >= 0x1_0000_0000 || h >= 0x1_0000_0000 || BufferLength(w, h) >= 0x1_0000_0000
        then Crashed(Overflow, acknowledged)
        else Show(acknowledged, w, h, scale)
  }

  /** One turn of the main loop: queued registrations take effect, then the handler at the target runs. */
  function Step(s: State, p: Packet): Outcome
  {
    var drained := s.(handlers := s.handlers + s.queued, queued := map[]);
    if p.target !in drained.handlers || drained.handlers[p.target] != KindOf(p.event) then Crashed(NoHandler, drained)
    else
      match p.event
      case Global(name, interface, version) => Running(HandleGlobal(drained, p.target, name, interface, version))
      case PreferredScale(factor) => Running(drained.(display := drained.display.(preferredScale := factor)))
      case PreferredTransform(t) => Running(drained.(display := drained.display.(preferredTransform := t)))
      case Configure(serial, width, height, text) => HandleConfigure(drained, serial, width, height, text)
      case Ignored(_) => Running(drained)
  }

  /** A whole session: it ends with the first crash. */
  function Run(s: State, packets: seq<Packet>): Outcome
    decreases |packets|
  {
    if packets == [] then Running(s)
    else
      match Step(s, packets[0])
      case Crashed(c, end) => Crashed(c, end)
      case Running(next) => Run(next, packets[1..])
  }

  // ---------- the handlers, as they update the shared state ----------

  class Client {
    var display: DisplayState
    const ids: ObjectIds.Allocator
    var handlers: map<ObjectId, Kind>
    var queued: map<ObjectId, Kind>
    var sent: seq<Request>
    var sharedMemory: seq<byte>

    function View(): State
      reads this, ids
    {
      State(display, ids.nextObjectId, handlers, queued, sent)
    }

    constructor ()
      ensures fresh(ids) && View() == Initial()
    {
      var allocator := new ObjectIds.Allocator();
      var registry := allocator.GetAndIncrementNextObjectId();
      ids, display, handlers, sharedMemory := allocator, DEFAULT_DISPLAY, map[], [];
      queued := map[DISPLAY := DisplayEvents, registry := RegistryEvents];
      sent := [GetRegistry(registry)];
    }

    method NewObject() returns (id: ObjectId)
      modifies ids
      ensures id == NextId(old(View())) && View() == Allocated(old(View()))
    {
      id := ids.GetAndIncrementNextObjectId();
    }

    method RegisterHandler(id: ObjectId, kind: Kind)
      modifies this`queued
      ensures View() == Queue(old(View()), id, kind)
    {
      queued := queued[id := kind];
    }

    method SendRequest(r: Request)
      modifies this`sent
      ensures View() == Send(old(View()), [r])
    {
      sent := sent + [r];
    }

    method SurfaceCreationRigmarole()
      modifies this, ids
      ensures View() == CreateSurfaces(old(View())) && sharedMemory == old(sharedMemory)
    {
      if display.compositor == None || display.layerShell == None || display.shm == None {
        return;
      }
      var compositorOid, layerShellOid := display.compositor.value, display.layerShell.value;
      var surfaceOid := NewObject();
      display := display.(surface := Some(surfaceOid));
      SendRequest(CreateSurface(compositorOid, surfaceOid));
      var layerSurfaceOid := NewObject();
      display := display.(layerSurface := Some(layerSurfaceOid));
      SendRequest(GetLayerSurface(layerShellOid, layerSurfaceOid, surfaceOid, OVERLAY, "activation"));
      RegisterHandler(surfaceOid, SurfaceEvents);
      RegisterHandler(layerSurfaceOid, LayerSurfaceEvents);
      SendRequest(Commit(surfaceOid));
    }

    method OnGlobal(registry: ObjectId, name: u32, interface: string, version: u32)
      modifies this, ids
      ensures View() == HandleGlobal(old(View()), registry, name, interface, version)
    {
      hide NextId, CreateSurfaces;
      if interface == COMPOSITOR {
        var oid := NewObject();
        SendRequest(Bind(registry, name, interface, version, oid));
        display := display.(compositor := Some(oid));
        SurfaceCreationRigmarole();
      } else if interface == LAYER_SHELL {
        var oid := NewObject();
        SendRequest(Bind(registry, name, interface, version, oid));
        display := display.(layerShell := Some(oid));
        SurfaceCreationRigmarole();
      } else if interface == SHM {
        var oid := NewObject();
        RegisterHandler(oid, ShmEvents);
        SendRequest(Bind(registry, name, interface, version, oid));
        display := display.(shm := Some(oid));
        SurfaceCreationRigmarole();
      }
    }

    /** Returns no crash exactly when the specification keeps running. Whether it crashes or not, the whole new
        state and the requests sent are the specified ones; if not, the shared memory holds the rounded image. */
    method OnConfigure(serial: u32, width: u32, height: u32, text: Image) returns (crash: Option<Crash>)
      modifies this, ids
      ensures View() == HandleConfigure(old(View()), serial, width, height, text).state
      ensures crash == match HandleConfigure(old(View()), serial, width, height, text)
                       case Crashed(c, _) => Some(c)
                       case Running(_) => None
      ensures crash == None ==>
                var scale := Magnitude(old(display).preferredScale);
                var w, h := RoundUp(text.width, scale), RoundUp(text.height, scale);
                sharedMemory == Rows(Image(w, h, text.pixels), h)
    {
      hide RoundUp, Rows, BufferLength, Magnitude, Show;
      display := display.(width := width, height := height);
      if display.layerSurface == None {
        return Some(UnwrapOnNone);
      }
      SendRequest(AckConfigure(display.layerSurface.value, serial));
      if display.preferredScale == 0 || display.preferredScale == -0x8000_0000 {
        return Some(BadScale);
      }
      var scale := Magnitude(display.preferredScale);
      MagnitudeIsZero(display.preferredScale);
      var roundedWidth := RoundUpLoop(text.width, scale);
      var roundedHeight := RoundUpLoop(text.height, scale);
      if roundedWidth == None || roundedHeight == None {
        return Some(Overflow);
      }
      var image := Image(roundedWidth.value, roundedHeight.value, text.pixels);
      var pixels := ToWhiteArgbLe(image);
      if pixels == None {
        return Some(Overflow);
      }
      crash := ShowImage(image, scale, pixels.value);
    }

    method ShowImage(image: Image, scale: nat, pixels: seq<byte>) returns (crash: Option<Crash>)
      requires display.layerSurface.Some? && scale > 0 && pixels == Rows(image, image.height)
      modifies this, ids
      ensures View() == Show(old(View()), image.width, image.height, scale).state
      ensures crash == match Show(old(View()), image.width, image.height, scale)
                       case Crashed(c, _) => Some(c)
                       case Running(_) => None
      ensures crash == None ==> sharedMemory == pixels
    {
      hide Rows, BufferLength, NextId, PlaceRequests, PresentRequests;
      PlaceSurface(image, scale);
      if display.compositor == None {
        return Some(UnwrapOnNone);
      }
      var regionOid := CreateEmptyRegion();
      BufferIsWhole(image);
      if |pixels| >= 0x8000_0000 {
        return Some(Overflow);
      }
      if display.shm == None {
        return Some(UnwrapOnNone);
      }
      var poolOid := CreateSharedPool(|pixels|);
      var bufferOid := NewBufferId();
      if image.width * 4 >= 0x8000_0000 || image.height >= 0x8000_0000 {
        return Some(Overflow);
      }
      SendRequest(CreateBuffer(poolOid, bufferOid, 0, image.width, image.height, image.width * 4, ARGB8888));
      sharedMemory := pixels;
      if display.surface == None {
        return Some(UnwrapOnNone);
      }
      PresentBuffer(bufferOid, regionOid);
      crash := None;
    }

    method PlaceSurface(image: Image, scale: nat)
      requires display.layerSurface.Some? && scale > 0
      modifies this`sent
      ensures View() == Placed(old(View()), image.width, image.height, scale)
    {
      var layerSurface := display.layerSurface.value;
      QuotientFits(image.width, scale);
      QuotientFits(image.height, scale);
      SendRequest(SetSize(layerSurface, image.width / scale, image.height / scale));
      SendRequest(SetAnchor(layerSurface, ANCHOR_BOTTOM + ANCHOR_RIGHT));
      SendRequest(SetMargin(layerSurface, 0, RIGHT_MARGIN, BOTTOM_MARGIN, 0));
    }

    method CreateEmptyRegion() returns (regionOid: ObjectId)
      requires display.compositor.Some?
      modifies this`sent, ids
      ensures regionOid == NextId(old(View())) && View() == WithRegion(old(View()))
    {
      regionOid := NewObject();
      SendRequest(CreateRegion(display.compositor.value, regionOid));
    }

    method CreateSharedPool(length: i32) returns (poolOid: ObjectId)
      requires display.shm.Some?
      modifies this`sent, ids
      ensures poolOid == NextId(old(View())) && View() == WithPool(old(View()), length)
    {
      poolOid := NewObject();
      SendRequest(CreatePool(display.shm.value, poolOid, length));
    }

    method NewBufferId() returns (bufferOid: ObjectId)
      modifies this`queued, ids
      ensures bufferOid == NextId(old(View())) && View() == WithBufferId(old(View()))
    {
      bufferOid := NewObject();
      RegisterHandler(bufferOid, BufferEvents);
    }

    method PresentBuffer(buffer: ObjectId, region: ObjectId)
      requires display.surface.Some?
      modifies this`sent
      ensures View() == Presented(old(View()), buffer, region)
    {
      var surface := display.surface.value;
      SendRequest(Attach(surface, buffer));
      SendRequest(SetBufferScale(surface, display.preferredScale));
      SendRequest(SetInputRegion(surface, region));
      SendRequest(Commit(surface));
    }
  }
}
