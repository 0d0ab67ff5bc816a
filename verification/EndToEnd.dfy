/** From the generated writer on one side, through the shared stream, to the generated handler on the other. */
module EndToEnd {
  import opened Base
  import opened Codec
  import opened CodecLaws
  import opened Framing
  import opened Codegen
  import opened Emitted
  import opened CompileLaws
  import opened CodegenLaws
  import opened Transport
  import opened TransportCalls

  /** The arguments do not depend on the opcode that arrives with them. */
  lemma MaskKeepsArgs(t: Target, args: seq<Arg>, objectId: ObjectId, opcode: u16, vs: seq<Value>)
    requires Typed(args, vs) && AllEncodable(vs)
    ensures DecodeArgs(t, args, Masked(Written(t, objectId, opcode, vs))) == Args(vs)
  {
    hide EncodeAll, AllFds, AllEncodable, Typed, DecodeArgs;
    DecodeArgsWritten(t, args, objectId, opcode % 0x100, vs);
    assert Masked(Written(t, objectId, opcode, vs)) == Written(t, objectId, opcode % 0x100, vs);
  }

  /** Whatever is called when the masked packet of event `k` arrives belongs to event `k % 256`. */
  lemma WrongArm(t: Target, interface: Interface, inCrate: bool, k: nat, objectId: ObjectId, vs: seq<Value>)
    requires Emittable(interface, inCrate) && 0x100 <= k < |interface.events| && AllEncodable(vs)
    ensures var r := HandleEvent(t, Generated(interface, inCrate), Masked(Written(t, objectId, k, vs)));
            r.Called? ==>
              && r.handler == "handle_" + interface.events[k % 0x100].name
              && r.handler != "handle_" + interface.events[k].name
  {
    hide HandleEvent, DecodeArgs, EncodeAll, AllFds, AllEncodable;
    var m := Masked(Written(t, objectId, k, vs));
    EventCorrect(t, interface, inCrate, m);
    DistinctAt(interface.events, k % 0x100, k);
    Prefixed("handle_", interface.events[k % 0x100].name, interface.events[k].name);
  }

  lemma ArrivesAtOwnArm(t: Target, interface: Interface, inCrate: bool, k: nat, objectId: ObjectId, vs: seq<Value>)
    requires Emittable(interface, inCrate) && k < |interface.events| && k <= 0xFF
    requires Typed(interface.events[k].args, vs) && AllEncodable(vs)
    ensures var m := Masked(Written(t, objectId, k, vs));
            HandleEvent(t, Generated(interface, inCrate), m) == Called("handle_" + interface.events[k].name, vs, m)
  {
    hide HandleEvent, DecodeArgs, AllEncodable, EncodeAll, AllFds, Typed, Emittable;
    EventCorrect(t, interface, inCrate, Masked(Written(t, objectId, k, vs)));
    MaskKeepsArgs(t, interface.events[k].args, objectId, k, vs);
  }

  /** The packet is the one that the writer emitted for event `k` builds from the values. */
  predicate WritesEvent(t: Target, interface: Interface, inCrate: bool, k: nat, objectId: ObjectId, vs: seq<Value>,
      m: Message)
    requires k < |interface.events| && Typed(interface.events[k].args, vs)
  {
    StructBodies(interface, inCrate, |interface.requests| + k);
    TryIntoPacket(t, Generated(interface, inCrate), |interface.requests| + k, objectId, vs) == Built(m)
  }

  /** For this packet the emitted code calls the handler of event `k` with `vs`. */
  predicate Handles(t: Target, interface: Interface, inCrate: bool, m: Message, k: nat, vs: seq<Value>)
    requires k < |interface.events|
  {
    HandleEvent(t, Generated(interface, inCrate), m) == Called("handle_" + interface.events[k].name, vs, m)
  }

  /** What the emitted writer built is the encoding of the values, and the interface is hygienic. */
  lemma WrittenEvent(t: Target, interface: Interface, inCrate: bool, k: nat, objectId: ObjectId, vs: seq<Value>,
      m: Message)
    requires k < |interface.events| && Typed(interface.events[k].args, vs)
    requires WritesEvent(t, interface, inCrate, k, objectId, vs, m)
    ensures Emittable(interface, inCrate) && AllEncodable(vs) && m == Written(t, objectId, k, vs)
  {
    hide Compiles, HygienicInterface, Run, AllEncodable, Written;
    CompilesExact(interface, inCrate);
    StructBodies(interface, inCrate, |interface.requests| + k);
    assert Emittable(interface, inCrate);
    IntoPacketCorrect(t, interface, inCrate, |interface.requests| + k, objectId, vs);
  }

  /** For every run of any number of senders and receivers: if the emitted writer built the packet of call number `n`
      of `send_packet` for event `k`, and call number `n` of `recv_packet` has returned a packet, then that packet
      reaches the event's own handler with its own argument values if and only if the opcode is at most 255. */
  lemma EventArrives(t: Target, interface: Interface, inCrate: bool, run: seq<Action>, n: nat, k: nat,
      objectId: ObjectId, vs: seq<Value>, m: Message)
    requires Answered(t, run, n, m) && k < |interface.events| && Typed(interface.events[k].args, vs)
    requires n < |Accepted(run)| && WritesEvent(t, interface, inCrate, k, objectId, vs, Accepted(run)[n])
    ensures Handles(t, interface, inCrate, m, k, vs) <==> k <= 255
  {
    hide HandleEvent, WritesEvent, Answered, Typed, HygienicInterface, Accepted;
    AnswerHasOrigin(t, run, n, m);
    WrittenEvent(t, interface, inCrate, k, objectId, vs, Accepted(run)[n]);
    assert m == Masked(Written(t, objectId, k, vs));
    if k <= 0xFF {
      ArrivesAtOwnArm(t, interface, inCrate, k, objectId, vs);
    } else {
      WrongArm(t, interface, inCrate, k, objectId, vs);
    }
  }

  /** And if the generated proxy made the packet for request `i`, the returned packet is read back by the generated
      argument struct as the values passed to the proxy, whatever the opcode. */
  lemma RequestArrives(t: Target, interface: Interface, inCrate: bool, run: seq<Action>, n: nat, i: nat,
      objectId: ObjectId, vs: seq<Value>, m: Message)
    requires Answered(t, run, n, m) && i < |interface.requests| && Typed(interface.requests[i].args, vs)
    requires n < |Accepted(run)|
    requires CallProxy(t, Generated(interface, inCrate), i, objectId, true, vs) == Emitted.Sent(Accepted(run)[n])
    ensures i < |Structs(Generated(interface, inCrate))| && m.objectId == objectId
    ensures TryFromPacket(t, Generated(interface, inCrate), i, m) == Structure(vs)
  {
    hide TryFromPacket, Compiles, HygienicInterface, Run, Answered, Typed, Accepted;
    AnswerHasOrigin(t, run, n, m);
    CompilesExact(interface, inCrate);
    assert Emittable(interface, inCrate);
    RequestCorrect(t, interface, inCrate, i, objectId, true, vs);
    MaskKeepsArgs(t, interface.requests[i].args, objectId, i, vs);
    FromPacketCorrect(t, interface, inCrate, i, Masked(Written(t, objectId, i, vs)));
  }

  // ---------- an event that goes astray ----------

  /** 257 events called "e", "ee", and so on, with one argument each. */
  function ManyEvents(): Interface
  {
    Interface("i", 1, [], seq(0x101, i requires 0 <= i < 0x101 => NthEvent(i)))
  }

  function NthEvent(i: nat): Procedure
  {
    Procedure(seq(i + 1, _ => 'e'), [Arg("a", Uint, None)])
  }

  lemma ManyEventsHygienic()
    ensures HygienicInterface(ManyEvents())
  {
    var events := ManyEvents().events;
    forall i | 0 <= i < |events| ensures events[i].name != "event" && HygienicEvent(Names(events[i].args)) {
      assert "event"[1] == 'v';
      assert Names(events[i].args) == ["a"];
    }
    forall i, j | 0 <= i < j < |events| ensures ProcedureNames(events)[i] != ProcedureNames(events)[j] {
      assert |ProcedureNames(events)[i]| == i + 1 && |ProcedureNames(events)[j]| == j + 1;
    }
  }

  const SEVEN: seq<Value> := [UintValue(7)]

  lemma SevenFits(i: nat)
    requires i < |ManyEvents().events|
    ensures Typed(ManyEvents().events[i].args, SEVEN) && AllEncodable(SEVEN)
  {
  }

  lemma SevenWritten(t: Target)
    ensures AllEncodable(SEVEN) && |EncodeAll(t, SEVEN)| == 4
  {
    assert SEVEN[1..] == [] && EncodeAll(t, SEVEN) == Encode(t, SEVEN[0]) + EncodeAll(t, SEVEN[1..]);
  }

  lemma WrittenAsEvent256(t: Target)
    requires AllEncodable(SEVEN) && |ManyEvents().events| == 0x101
    requires Typed(ManyEvents().events[0x100].args, SEVEN)
    ensures WritesEvent(t, ManyEvents(), true, 0x100, DISPLAY, SEVEN, Written(t, DISPLAY, 0x100, SEVEN))
  {
    hide HygienicInterface, TryIntoPacket, Written;
    ManyEventsHygienic();
    IntoPacketCorrect(t, ManyEvents(), true, 0x100, DISPLAY, SEVEN);
  }

  lemma HandledAsEvent0(t: Target)
    requires AllEncodable(SEVEN) && |ManyEvents().events| == 0x101
    ensures var m := Masked(Written(t, DISPLAY, 0x100, SEVEN));
            HandleEvent(t, Generated(ManyEvents(), true), m)
            == Called("handle_" + ManyEvents().events[0].name, SEVEN, m)
  {
    hide HygienicInterface, HandleEvent, ManyEvents, DecodeArgs, EncodeAll;
    SevenFits(0);
    ManyEventsHygienic();
    EventCorrect(t, ManyEvents(), true, Masked(Written(t, DISPLAY, 0x100, SEVEN)));
    MaskKeepsArgs(t, ManyEvents().events[0].args, DISPLAY, 0x100, SEVEN);
  }

  /** There is a run in which event 256, built by its own writer, calls the handler of event 0. */
  lemma EventGoesAstray(t: Target) returns (run: seq<Action>, m: Message)
    ensures Answered(t, run, 0, m) && |ManyEvents().events| == 0x101
    ensures Typed(ManyEvents().events[0x100].args, SEVEN)
    ensures Accepted(run) != [] && WritesEvent(t, ManyEvents(), true, 0x100, DISPLAY, SEVEN, Accepted(run)[0])
    ensures Handles(t, ManyEvents(), true, m, 0, SEVEN)
  {
    assert |ManyEvents().events| == 0x101;
    SevenFits(0x100);
    SevenWritten(t);
    WrittenAsEvent256(t);
    HandledAsEvent0(t);
    hide HandleEvent, WritesEvent, ManyEvents, IsRun, After, EncodeAll, Answered, Accepted;
    var sent := Written(t, DISPLAY, 0x100, SEVEN);
    run := TransportProgress.OnePacket(t, sent);
    m := Masked(sent);
    DeliveredIsAnswered(t, run, 0);
  }
}
