/** The emitted code means what the interface description says, exactly when the module it is emitted into
    compiles. */
module CodegenLaws {
  import opened Base
  import opened Codec
  import opened CodecLaws
  import opened Codegen
  import opened CompileLaws
  import opened Emitted

  // ---------- meaning of an interface ----------

  function ReadFns(args: seq<Arg>): (fs: seq<ReadFn>)
    ensures |fs| == |args|
  {
    seq(|args|, i requires 0 <= i < |args| => ReadFunc(args[i].argType, Known(args[i])))
  }

  /** The value is one that the interface description allows for the argument. */
  predicate Suits(a: Arg, v: Value)
  {
    match a.argType
    case Uint => v.UintValue?
    case Int => v.IntValue?
    case FixedPoint => v.FixedValue?
    case String => v.StringValue?
    case Object => v.ObjectValue?
    case NewId => if a.interface.Some? then v.NewIdValue? else v.NewObjectValue?
    case Array => v.ArrayValue?
    case FileDescriptor => v.FdValue?
  }

  predicate Typed(args: seq<Arg>, vs: seq<Value>)
  {
    |vs| == |args| && forall i :: 0 <= i < |vs| ==> Suits(args[i], vs[i])
  }

  /** The emitted signatures declare the type of those values. */
  lemma SuitsDeclared(a: Arg, v: Value)
    ensures Suits(a, v) <==> TypeOf(v) == IncomingType(a.argType, Known(a))
  {
  }

  lemma TypedDeclared(args: seq<Arg>, vs: seq<Value>)
    ensures Typed(args, vs) <==>
            && |vs| == |args|
            && forall i :: 0 <= i < |vs| ==> TypeOf(vs[i]) == IncomingType(args[i].argType, Known(args[i]))
  {
    if |vs| == |args| {
      forall i | 0 <= i < |vs|
        ensures Suits(args[i], vs[i]) <==> TypeOf(vs[i]) == IncomingType(args[i].argType, Known(args[i]))
      {
        SuitsDeclared(args[i], vs[i]);
      }
    }
  }

  /** The read table returns the types that the type table declares. */
  lemma TypedMatches(args: seq<Arg>, vs: seq<Value>)
    ensures Typed(args, vs) <==> Matches(ReadFns(args), vs)
  {
    forall i | 0 <= i < |args|
      ensures IncomingType(args[i].argType, Known(args[i])) == ResultType(ReadFns(args)[i])
    {
    }
  }

  /** What decoding a packet against a signature and finishing should give. */
  datatype Decoded = Args(args: seq<Value>) | Error(error: Base.Error) | Crash

  function DecodeArgs(t: Target, args: seq<Arg>, m: Message): Decoded
  {
    match DecodeAll(t, ReadFns(args), m, START)
    case Failed(e, _) => Error(e)
    case Panicked(_) => Crash
    case Got(vs, end) => if Finished(m, end) then Args(vs) else Error(IncompleteError(m, end))
  }

  /** What handling an event should do: procedure number `opcode` decides. */
  function EventMeaning(t: Target, events: seq<Procedure>, m: Message): Ending
  {
    if m.opcode >= |events| then Unknown(m)
    else
      var event := events[m.opcode];
      match DecodeArgs(t, event.args, m)
      case Args(vs) => Called("handle_" + event.name, vs, m)
      case Error(e) => Fails(e)
      case Crash => Panics
  }

  /** What sending a request should do. */
  function RequestMeaning(t: Target, objectId: ObjectId, opcode: u16, connected: bool, vs: seq<Value>): Ending
  {
    if !connected then Fails(ConnectionDeleted)
    else if AllEncodable(vs) then Sent(Written(t, objectId, opcode, vs))
    else Panics
  }

  // ---------- running the emitted reads ----------

  lemma ReadFnsTail(args: seq<Arg>)
    requires args != []
    ensures ReadFns(args)[0] == ReadFunc(args[0].argType, Known(args[0])) && ReadFns(args)[1..] == ReadFns(args[1..])
  {
  }

  lemma RunStep(t: Target, self: Self, first: Stmt, body: seq<Stmt>, rest: seq<Stmt>, scope: Scope)
    requires body != [] && body[0] == first
    ensures Run(t, self, body + rest, scope) ==
            match Execute(t, self, first, scope)
            case Stop(r) => r
            case Continue(next) => Run(t, self, body[1..] + rest, next)
  {
    assert (body + rest)[0] == first;
    assert (body + rest)[1..] == body[1..] + rest;
  }

  /** How the scope looks after all arguments were read into it. */
  predicate ReadInto(before: Scope, after: Scope, reader: string, names: seq<string>, vs: seq<Value>,
                     m: Message, end: Cursor)
    requires |vs| == |names|
  {
    && AllData(after, names)
    && (reader in after && after[reader] == OpenedReader(m, end))
    && (forall x :: x in before && x != reader && x !in names ==> x in after && after[x] == before[x])
    && (Distinct(names) ==> DataOf(after, names) == vs)
  }

  lemma ReadIntoStep(before: Scope, next: Scope, after: Scope, reader: string, names: seq<string>,
                     v: Value, vs: seq<Value>, m: Message, end: Cursor)
    requires names != [] && |vs| == |names| - 1 && names[0] != reader
    requires names[0] in next && next[names[0]] == Data(v)
    requires forall x :: x in before && x != reader && x != names[0] ==> x in next && next[x] == before[x]
    requires ReadInto(next, after, reader, names[1..], vs, m, end)
    ensures ReadInto(before, after, reader, names, [v] + vs, m, end)
  {
    var tail := names[1..];
    assert names[0] in tail ==> exists i :: 0 <= i < |tail| && tail[i] == names[0];
    assert names[0] in after && after[names[0]].Data?;
    forall i | 0 <= i < |names| ensures names[i] in after && after[names[i]].Data? {
      if i > 0 {
        assert names[i] == tail[i - 1];
      }
    }
    if Distinct(names) {
      assert Distinct(tail) by {
        assert forall i :: 0 <= i < |tail| ==> tail[i] == names[i + 1];
      }
      assert names[0] !in tail;
      assert DataOf(after, names) == [v] + DataOf(after, tail);
    }
  }

  /** Reads followed by anything: the reads behave as decoding the signature does. */
  lemma {:induction false} ReadsRun(t: Target, self: Self, args: seq<Arg>, reader: string, rest: seq<Stmt>,
                                    scope: Scope, m: Message, c: Cursor)
    returns (after: Scope)
    requires reader in scope && scope[reader] == OpenedReader(m, c) && reader !in Names(args)
    ensures var r := Run(t, self, Reads(args, reader) + rest, scope);
            match DecodeAll(t, ReadFns(args), m, c)
            case Failed(e, _) => r == Fails(e)
            case Panicked(_) => r == Panics
            case Got(vs, end) =>
              && ReadInto(scope, after, reader, Names(args), vs, m, end)
              && r == Run(t, self, rest, after)
  {
    hide Decode, Execute;
    after := scope;
    if args == [] {
      assert Reads(args, reader) + rest == rest;
    } else {
      ReadsTail(args, reader);
      ReadFnsTail(args);
      var f, x := ReadFunc(args[0].argType, Known(args[0])), args[0].name;
      RunStep(t, self, LetRead(x, reader, f), Reads(args, reader), rest, scope);
      assert Names(args)[0] == x;
      ReadStep(t, self, x, reader, f, scope, m, c);
      var d := Decode(t, f, m, c);
      if d.Got? {
        var next := scope[reader := OpenedReader(m, d.next)][x := Data(d.value)];
        after := ReadsRun(t, self, args[1..], reader, rest, next, m, d.next);
        var tail := DecodeAll(t, ReadFns(args[1..]), m, d.next);
        if tail.Got? {
          ReadIntoStep(scope, next, after, reader, Names(args), d.value, tail.value, m, tail.next);
        }
      }
    }
  }

  lemma ReadStep(t: Target, self: Self, x: string, reader: string, f: ReadFn, scope: Scope, m: Message, c: Cursor)
    requires reader in scope && scope[reader] == OpenedReader(m, c)
    ensures Execute(t, self, LetRead(x, reader, f), scope) ==
            match Decode(t, f, m, c)
            case Got(v, next) => Continue(scope[reader := OpenedReader(m, next)][x := Data(v)])
            case Failed(e, _) => Stop(Fails(e))
            case Panicked(_) => Stop(Panics)
  {
  }

  /** The decoding part of a match arm or of `try_from_packet`, up to the statement that uses the values. */
  lemma DecodersRun(t: Target, self: Self, args: seq<Arg>, reader: string, packet: string, last: Stmt,
                    scope: Scope, m: Message)
    returns (after: Scope)
    requires packet in scope && scope[packet] == PacketSlot(m) && reader !in Names(args)
    ensures var r := Run(t, self, [OpenReader(reader, packet)] + Reads(args, reader) + [Finish(reader), last], scope);
            match DecodeArgs(t, args, m)
            case Error(e) => r == Fails(e)
            case Crash => r == Panics
            case Args(vs) =>
              && |vs| == |args| && AllData(after, Names(args))
              && (Distinct(Names(args)) ==> DataOf(after, Names(args)) == vs)
              && (forall x :: x in scope && x != reader && x !in Names(args) ==> x in after && after[x] == scope[x])
              && r == Run(t, self, [last], after)
  {
    var ready := scope[reader := OpenedReader(m, START)];
    var tail := [Finish(reader), last];
    var body := [OpenReader(reader, packet)] + Reads(args, reader) + tail;
    assert body == [OpenReader(reader, packet)] + (Reads(args, reader) + tail);
    assert body[1..] == Reads(args, reader) + tail;
    assert Run(t, self, body, scope) == Run(t, self, body[1..], ready);
    after := ReadsRun(t, self, args, reader, tail, ready, m, START);
    assert tail[1..] == [last];
  }

  // ---------- events ----------

  lemma {:induction false} FirstArmAt(arms: seq<Arm>, base: nat, opcode: nat)
    requires forall k :: 0 <= k < |arms| ==> arms[k].opcode == base + k
    requires base <= opcode
    ensures FirstArm(arms, opcode) == if opcode - base < |arms| then Some(arms[opcode - base].body) else None
  {
    if arms != [] && base < opcode {
      FirstArmAt(arms[1..], base + 1, opcode);
    }
  }

  /** Opcode selection: arm `i` handles opcode `i`, and an opcode past the list reaches only `unknown_event`. */
  lemma SelectsArm(t: Target, interface: Interface, inCrate: bool, m: Message)
    requires Emittable(interface, inCrate) && interface.events != []
    ensures HandleEvent(t, Generated(interface, inCrate), m) ==
            if m.opcode < |interface.events|
            then Run(t, NO_SELF, EventBody(interface.events[m.opcode]), ArmScope(m))
            else Unknown(m)
  {
    hide Compiles, HygienicInterface;
    CompilesExact(interface, inCrate);
    FirstArmAt(Generated(interface, inCrate).arms, 0, m.opcode);
  }

  /** Running the emitted `handle_event` on any packet whatever does what the interface says. */
  lemma EventCorrect(t: Target, interface: Interface, inCrate: bool, m: Message)
    requires Emittable(interface, inCrate) && interface.events != []
    ensures HandleEvent(t, Generated(interface, inCrate), m) == EventMeaning(t, interface.events, m)
  {
    hide HandleEvent;
    SelectsArm(t, interface, inCrate, m);
    if m.opcode < |interface.events| {
      ArmCorrect(t, interface.events[m.opcode], m);
    }
  }

  lemma ArmCorrect(t: Target, event: Procedure, m: Message)
    requires HygienicEvent(Names(event.args))
    ensures Run(t, NO_SELF, EventBody(event), ArmScope(m)) ==
            match DecodeArgs(t, event.args, m)
            case Args(vs) => Called("handle_" + event.name, vs, m)
            case Error(e) => Fails(e)
            case Crash => Panics
  {
    var last := CallHandler("handle_" + event.name, CONNECTION, PACKET, Names(event.args));
    var after := DecodersRun(t, NO_SELF, event.args, READER, PACKET, last, ArmScope(m), m);
  }

  lemma DecodeArgsWritten(t: Target, args: seq<Arg>, objectId: ObjectId, opcode: u16, vs: seq<Value>)
    requires Typed(args, vs) && AllEncodable(vs)
    ensures DecodeArgs(t, args, Written(t, objectId, opcode, vs)) == Args(vs)
  {
    TypedMatches(args, vs);
    SignatureRoundTrip(t, objectId, opcode, ReadFns(args), vs);
  }

  // ---------- running the emitted writes ----------

  /** Every operand of the pushes stands for its value. */
  predicate Supplied(self: Self, scope: Scope, args: seq<Arg>, fields: bool, vs: seq<Value>)
  {
    |vs| == |args| &&
    forall i :: 0 <= i < |args| ==> OperandValue(self, scope, OperandOf(args[i].name, fields)) == Some(vs[i])
  }

  function AppendAll(t: Target, m: Message, vs: seq<Value>): Message
    requires AllEncodable(vs)
  {
    m.(payload := m.payload + EncodeAll(t, vs), fds := m.fds + AllFds(vs))
  }

  lemma Associative<T>(a: seq<T>, b: seq<T>, c: seq<T>)
    ensures a + b + c == a + (b + c)
  {
  }

  lemma AppendAllStep(t: Target, m: Message, vs: seq<Value>)
    requires vs != [] && AllEncodable(vs)
    ensures Encodable(vs[0]) && AllEncodable(vs[1..])
    ensures AppendAll(t, Append(t, m, vs[0]), vs[1..]) == AppendAll(t, m, vs)
  {
    hide Encode, FdsOf, AllEncodable;
    TailEncodable(vs);
    Associative(m.payload, Encode(t, vs[0]), EncodeAll(t, vs[1..]));
    Associative(m.fds, FdsOf(vs[0]), AllFds(vs[1..]));
  }

  lemma PushStep(t: Target, self: Self, a: Arg, fields: bool, scope: Scope, v: Value, m: Message)
    requires PACKET in scope && scope[PACKET] == PacketSlot(m)
    requires OperandValue(self, scope, OperandOf(a.name, fields)) == Some(v)
    requires TypeOf(v) == IncomingType(a.argType, Known(a))
    ensures Execute(t, self, WriteOf(a, fields), scope) ==
            if Encodable(v) then Continue(scope[PACKET := PacketSlot(Append(t, m, v))]) else Stop(Panics)
  {
    TablesAccept(a, WriteReference(a.argType, Known(a)), IncomingType(a.argType, Known(a)));
  }

  /** What holds of all operands holds of the first and of the others, and pushing changes none of them. */
  lemma SuppliedTail(self: Self, scope: Scope, args: seq<Arg>, fields: bool, vs: seq<Value>, slot: Slot)
    requires Typed(args, vs) && Supplied(self, scope, args, fields, vs) && (fields || PACKET !in Names(args))
    ensures |vs| == |args|
    ensures args == [] ==> AllEncodable(vs) && Writes(args, fields) == []
    ensures args != [] ==>
            && TypeOf(vs[0]) == IncomingType(args[0].argType, Known(args[0]))
            && OperandValue(self, scope, OperandOf(args[0].name, fields)) == Some(vs[0])
            && (AllEncodable(vs) <==> Encodable(vs[0]) && AllEncodable(vs[1..]))
            && Typed(args[1..], vs[1..]) && (fields || PACKET !in Names(args[1..]))
            && Supplied(self, scope[PACKET := slot], args[1..], fields, vs[1..])
  {
    hide Encodable;
    if args != [] {
      WritesTail(args, fields);
      forall i | 0 <= i < |args[1..]|
        ensures OperandValue(self, scope[PACKET := slot], OperandOf(args[1..][i].name, fields)) == Some(vs[1..][i])
      {
        assert Names(args)[i + 1] == args[i + 1].name;
      }
      assert forall i :: 0 < i < |vs| ==> vs[i] == vs[1..][i - 1];
      if Encodable(vs[0]) && AllEncodable(vs[1..]) {
        HeadEncodable(vs);
      }
    }
  }

  /** Pushes followed by anything: they append all the values, or panic at one that cannot be pushed. */
  lemma {:induction false} WritesRun(t: Target, self: Self, args: seq<Arg>, fields: bool, rest: seq<Stmt>,
                                     scope: Scope, vs: seq<Value>, m: Message)
    requires PACKET in scope && scope[PACKET] == PacketSlot(m)
    requires Typed(args, vs) && Supplied(self, scope, args, fields, vs)
    requires fields || PACKET !in Names(args)
    ensures var r := Run(t, self, Writes(args, fields) + rest, scope);
            if AllEncodable(vs) then r == Run(t, self, rest, scope[PACKET := PacketSlot(AppendAll(t, m, vs))])
            else r == Panics
  {
    hide Execute, Append, Encodable, AllEncodable, Writes, WriteOf, Names, Supplied, Typed;
    SuppliedTail(self, scope, args, fields, vs, PacketSlot(m));
    if args == [] {
      assert Writes(args, fields) + rest == rest;
      assert AppendAll(t, m, vs) == m;
      assert scope[PACKET := PacketSlot(m)] == scope;
    } else {
      var a, v := args[0], vs[0];
      WritesTail(args, fields);
      RunStep(t, self, WriteOf(a, fields), Writes(args, fields), rest, scope);
      PushStep(t, self, a, fields, scope, v, m);
      if Encodable(v) {
        var next := scope[PACKET := PacketSlot(Append(t, m, v))];
        SuppliedTail(self, scope, args, fields, vs, next[PACKET]);
        WritesRun(t, self, args[1..], fields, rest, next, vs[1..], Append(t, m, v));
        if AllEncodable(vs) {
          AppendAllStep(t, m, vs);
          var whole := AppendAll(t, m, vs);
          assert next[PACKET := PacketSlot(whole)] == scope[PACKET := PacketSlot(whole)];
        }
      }
    }
  }

  lemma EmptyAppended(t: Target, objectId: ObjectId, opcode: u16, vs: seq<Value>)
    requires AllEncodable(vs)
    ensures AppendAll(t, Message(objectId, opcode, [], []), vs) == Written(t, objectId, opcode, vs)
  {
    hide EncodeAll, AllFds, AllEncodable;
  }

  lemma BoundNames(names: seq<string>, i: nat)
    requires Distinct(names) && i < |names|
    ensures IndexOf(names, names[i]) == i
  {
  }

  /** What every emitted writer starts with. */
  lemma NewPacketRun(t: Target, self: Self, opcode: u16, rest: seq<Stmt>, scope: Scope)
    ensures Run(t, self, [NewPacket(PACKET, opcode)] + rest, scope)
         == Run(t, self, rest, scope[PACKET := PacketSlot(Message(self.objectId, opcode, [], []))])
  {
    assert ([NewPacket(PACKET, opcode)] + rest)[1..] == rest;
  }

  lemma UpgradeRun(t: Target, self: Self, rest: seq<Stmt>, scope: Scope)
    ensures Run(t, self, [UpgradeConnection(UPGRADED)] + rest, scope) ==
            if self.connected then Run(t, self, rest, scope[UPGRADED := ConnectionSlot]) else Fails(ConnectionDeleted)
  {
    assert ([UpgradeConnection(UPGRADED)] + rest)[1..] == rest;
  }

  lemma ParametersSupplied(self: Self, scope: Scope, args: seq<Arg>, vs: seq<Value>)
    requires |vs| == |args| && Distinct(Names(args))
    requires forall x :: x in Bind(Declarations(args), vs) ==> x in scope && scope[x] == Bind(Declarations(args), vs)[x]
    ensures Supplied(self, scope, args, false, vs)
  {
    DeclarationNames(args);
    forall k | 0 <= k < |args|
      ensures OperandValue(self, scope, OperandOf(args[k].name, false)) == Some(vs[k])
    {
      assert Names(args)[k] == args[k].name;
      BoundNames(Names(args), k);
      assert args[k].name in Bind(Declarations(args), vs);
    }
  }

  lemma FieldsSupplied(self: Self, scope: Scope, args: seq<Arg>, vs: seq<Value>)
    requires |vs| == |args| && Distinct(Names(args))
    requires self.fields == FieldValues(Declarations(args), vs)
    ensures Supplied(self, scope, args, true, vs)
  {
    DeclarationNames(args);
    forall k | 0 <= k < |args|
      ensures OperandValue(self, scope, OperandOf(args[k].name, true)) == Some(vs[k])
    {
      assert Names(args)[k] == args[k].name;
      BoundNames(Names(args), k);
    }
  }

  // ---------- requests ----------

  lemma ProxyCorrect(t: Target, req: Procedure, i: u16, objectId: ObjectId, connected: bool, vs: seq<Value>)
    requires Typed(req.args, vs) && HygienicRequest(Names(req.args))
    ensures Run(t, Self(objectId, map[], connected), ProxyBody(req, i), Bind(Declarations(req.args), vs))
         == RequestMeaning(t, objectId, i, connected, vs)
  {
    hide Supplied, Writes, Encodable, AppendAll, Written;
    var args := req.args;
    var self := Self(objectId, map[], connected);
    var empty := Message(objectId, i, [], []);
    var scope, tail := Bind(Declarations(args), vs), [SendPacket(UPGRADED, PACKET)];
    var made := scope[PACKET := PacketSlot(empty)];
    var ready := made[UPGRADED := ConnectionSlot];
    var writes := Writes(args, false) + tail;
    ProxyBodyParts(req, i);
    NewPacketRun(t, self, i, [UpgradeConnection(UPGRADED)] + writes, scope);
    UpgradeRun(t, self, writes, made);
    if connected {
      DeclarationNames(args);
      ParametersSupplied(self, ready, args, vs);
      WritesRun(t, self, args, false, tail, ready, vs, empty);
      if AllEncodable(vs) {
        EmptyAppended(t, objectId, i, vs);
      }
    }
  }

  /** The emitted proxy of request `i` sends opcode `i` to the proxy's object with the arguments in order. */
  lemma RequestCorrect(t: Target, interface: Interface, inCrate: bool, i: nat, objectId: ObjectId, connected: bool,
      vs: seq<Value>)
    requires Emittable(interface, inCrate) && i < |interface.requests| && Typed(interface.requests[i].args, vs)
    ensures CallProxy(t, Generated(interface, inCrate), i, objectId, connected, vs)
         == RequestMeaning(t, objectId, i, connected, vs)
  {
    hide Compiles, Run;
    CompilesExact(interface, inCrate);
    ProxyCorrect(t, interface.requests[i], i, objectId, connected, vs);
  }

  // ---------- argument structs ----------

  /** The procedure that argument struct number `k` belongs to, and its opcode: requests come first. */
  function StructProcedure(interface: Interface, k: nat): Procedure
    requires k < |interface.requests| + |interface.events|
  {
    if k < |interface.requests| then interface.requests[k] else interface.events[k - |interface.requests|]
  }

  function StructOpcode(interface: Interface, k: nat): (i: nat)
    requires k < |interface.requests| + |interface.events|
    ensures HygienicInterface(interface) ==> i < MAX_PROCEDURES
  {
    if k < |interface.requests| then k else k - |interface.requests|
  }

  lemma IntoCorrect(t: Target, p: Procedure, i: u16, objectId: ObjectId, vs: seq<Value>)
    requires Distinct(Names(p.args)) && Typed(p.args, vs)
    ensures Run(t, Self(objectId, FieldValues(Declarations(p.args), vs), true), IntoPacketBody(p, i), map[])
         == if AllEncodable(vs) then Built(Written(t, objectId, i, vs)) else Panics
  {
    hide Supplied, Writes, Encodable, AppendAll, Written, FieldValues;
    var args := p.args;
    var self := Self(objectId, FieldValues(Declarations(args), vs), true);
    var empty := Message(objectId, i, [], []);
    var tail := [ReturnPacket(PACKET)];
    var ready: Scope := map[PACKET := PacketSlot(empty)];
    assert IntoPacketBody(p, i) == [NewPacket(PACKET, i)] + (Writes(args, true) + tail);
    NewPacketRun(t, self, i, Writes(args, true) + tail, map[]);
    FieldsSupplied(self, ready, args, vs);
    WritesRun(t, self, args, true, tail, ready, vs, empty);
    if AllEncodable(vs) {
      EmptyAppended(t, objectId, i, vs);
    }
  }

  lemma FromCorrect(t: Target, p: Procedure, m: Message)
    requires HygienicStruct(Names(p.args))
    ensures Run(t, NO_SELF, FromPacketBody(p), map[STRUCT_VALUE := PacketSlot(m)]) ==
            match DecodeArgs(t, p.args, m)
            case Args(vs) => Structure(vs)
            case Error(e) => Fails(e)
            case Crash => Panics
  {
    var after := DecodersRun(t, NO_SELF, p.args, STRUCT_READER, STRUCT_VALUE, MakeStruct(Names(p.args)),
                             map[STRUCT_VALUE := PacketSlot(m)], m);
  }

  lemma StructBodies(interface: Interface, inCrate: bool, k: nat)
    requires k < |interface.requests| + |interface.events|
    ensures k < |Structs(Generated(interface, inCrate))|
    ensures var s, p := Structs(Generated(interface, inCrate))[k], StructProcedure(interface, k);
            && s.fields == Declarations(p.args) && s.fromPacket == FromPacketBody(p)
            && s.intoPacket == IntoPacketBody(p, StructOpcode(interface, k))
    ensures Emittable(interface, inCrate) ==> HygienicStruct(Names(StructProcedure(interface, k).args))
  {
    var p, kind, n := StructAt(interface, inCrate, k);
  }

  /** `try_into_packet` of argument struct `k` builds the packet of its procedure with the fields in order, or
      panics at a string or array that cannot be pushed. */
  lemma IntoPacketCorrect(t: Target, interface: Interface, inCrate: bool, k: nat, objectId: ObjectId, vs: seq<Value>)
    requires Emittable(interface, inCrate) && k < |interface.requests| + |interface.events|
    requires Typed(StructProcedure(interface, k).args, vs)
    ensures k < |Structs(Generated(interface, inCrate))| && |vs| == |Structs(Generated(interface, inCrate))[k].fields|
    ensures TryIntoPacket(t, Generated(interface, inCrate), k, objectId, vs)
         == if AllEncodable(vs) then Built(Written(t, objectId, StructOpcode(interface, k), vs)) else Panics
  {
    hide Compiles, Run, HygienicInterface;
    CompilesExact(interface, inCrate);
    StructBodies(interface, inCrate, k);
    IntoCorrect(t, StructProcedure(interface, k), StructOpcode(interface, k), objectId, vs);
  }

  /** `try_from_packet` on any packet whatever decodes it against the signature. */
  lemma FromPacketCorrect(t: Target, interface: Interface, inCrate: bool, k: nat, m: Message)
    requires Emittable(interface, inCrate) && k < |interface.requests| + |interface.events|
    ensures k < |Structs(Generated(interface, inCrate))|
    ensures TryFromPacket(t, Generated(interface, inCrate), k, m) ==
            match DecodeArgs(t, StructProcedure(interface, k).args, m)
            case Args(vs) => Structure(vs)
            case Error(e) => Fails(e)
            case Crash => Panics
  {
    hide Compiles, Run, HygienicInterface;
    CompilesExact(interface, inCrate);
    StructBodies(interface, inCrate, k);
    FromCorrect(t, StructProcedure(interface, k), m);
  }

  /** The two ways of writing a request agree, and the struct reads back what either wrote. */
  lemma WritersAgree(t: Target, interface: Interface, inCrate: bool, i: nat, objectId: ObjectId, vs: seq<Value>)
    requires Emittable(interface, inCrate) && i < |interface.requests|
    requires Typed(interface.requests[i].args, vs) && AllEncodable(vs)
    ensures var code := Generated(interface, inCrate);
            var built := TryIntoPacket(t, code, i, objectId, vs);
            && built.Built?
            && CallProxy(t, code, i, objectId, true, vs) == Sent(built.packet)
            && TryFromPacket(t, code, i, built.packet) == Structure(vs)
  {
    hide CallProxy, TryIntoPacket, TryFromPacket, Written;
    RequestCorrect(t, interface, inCrate, i, objectId, true, vs);
    IntoPacketCorrect(t, interface, inCrate, i, objectId, vs);
    DecodeArgsWritten(t, interface.requests[i].args, objectId, i, vs);
    FromPacketCorrect(t, interface, inCrate, i, Written(t, objectId, i, vs));
  }

  // ---------- exactly the hygienic interfaces work ----------

  /** A value of each type. */
  function Sample(ty: ValueType): (v: Value)
    ensures TypeOf(v) == ty && Encodable(v)
  {
    match ty
    case U32 => UintValue(0)
    case I32 => IntValue(0)
    case Fixed => FixedValue(0)
    case Text => StringValue([])
    case OptionalObjectId => ObjectValue(None)
    case NewObjectId => NewIdValue(1)
    case NewObject => NewObjectValue([], 0, 1)
    case Bytes => ArrayValue([])
    case RawFd => FdValue(0)
  }

  function Samples(args: seq<Arg>): (vs: seq<Value>)
    ensures Typed(args, vs) && AllEncodable(vs)
  {
    seq(|args|, i requires 0 <= i < |args| => Sample(IncomingType(args[i].argType, Known(args[i]))))
  }

  /** The handler named after event `i` gets exactly the values that were written, whatever they are. */
  ghost predicate AlwaysDelivers(t: Target, interface: Interface, inCrate: bool, i: nat, objectId: ObjectId)
    requires i < |interface.events| && i < MAX_PROCEDURES
  {
    forall vs: seq<Value> | Typed(interface.events[i].args, vs) && AllEncodable(vs) ::
      var m := Written(t, objectId, i, vs);
      HandleEvent(t, Generated(interface, inCrate), m) == Called("handle_" + interface.events[i].name, vs, m)
  }

  /** The proxy of request `i` sends exactly the packet of its argument values, whatever they are. */
  ghost predicate AlwaysSends(t: Target, interface: Interface, inCrate: bool, i: nat, objectId: ObjectId)
    requires i < |interface.requests| && i < MAX_PROCEDURES
  {
    forall vs: seq<Value> | Typed(interface.requests[i].args, vs) && AllEncodable(vs) ::
      CallProxy(t, Generated(interface, inCrate), i, objectId, true, vs) == Sent(Written(t, objectId, i, vs))
  }

  /** Argument struct `k` becomes exactly the packet of its field values and is read back from it. */
  ghost predicate AlwaysReadsBack(t: Target, interface: Interface, inCrate: bool, k: nat, objectId: ObjectId)
    requires k < |interface.requests| + |interface.events| && StructOpcode(interface, k) < MAX_PROCEDURES
  {
    StructBodies(interface, inCrate, k);
    forall vs: seq<Value> | Typed(StructProcedure(interface, k).args, vs) && AllEncodable(vs) ::
      var m := Written(t, objectId, StructOpcode(interface, k), vs);
      && TryIntoPacket(t, Generated(interface, inCrate), k, objectId, vs) == Built(m)
      && TryFromPacket(t, Generated(interface, inCrate), k, m) == Structure(vs)
  }

  /** Events: every list of values of the declared types reaches the handler of event `i` unchanged if and only
      if the whole interface is hygienic, for the module compiles as a whole, and emitted for the library's crate. */
  lemma EventHygieneExact(t: Target, interface: Interface, inCrate: bool, i: nat, objectId: ObjectId)
    requires i < |interface.events| && i < MAX_PROCEDURES
    ensures AlwaysDelivers(t, interface, inCrate, i, objectId) <==> Emittable(interface, inCrate)
  {
    hide Compiles, HygienicInterface, Written;
    var args := interface.events[i].args;
    CompilesExact(interface, inCrate);
    if Emittable(interface, inCrate) {
      forall vs: seq<Value> | Typed(args, vs) && AllEncodable(vs)
        ensures var m := Written(t, objectId, i, vs);
                HandleEvent(t, Generated(interface, inCrate), m) == Called("handle_" + interface.events[i].name, vs, m)
      {
        OpcodeOfWritten(t, objectId, i, vs);
        EventCorrect(t, interface, inCrate, Written(t, objectId, i, vs));
        DecodeArgsWritten(t, args, objectId, i, vs);
      }
    } else {
      var m := Written(t, objectId, i, Samples(args));
      assert HandleEvent(t, Generated(interface, inCrate), m) == DoesNotCompile;
    }
  }

  lemma OpcodeOfWritten(t: Target, objectId: ObjectId, opcode: u16, vs: seq<Value>)
    requires AllEncodable(vs)
    ensures Written(t, objectId, opcode, vs).opcode == opcode
  {
  }

  /** Requests: the proxy of request `i` sends every list of values of the declared types if and only if the
      whole interface is hygienic and emitted for the library's crate. */
  lemma RequestHygieneExact(t: Target, interface: Interface, inCrate: bool, i: nat, objectId: ObjectId)
    requires i < |interface.requests| && i < MAX_PROCEDURES
    ensures AlwaysSends(t, interface, inCrate, i, objectId) <==> Emittable(interface, inCrate)
  {
    hide Compiles, HygienicInterface, Written;
    var args := interface.requests[i].args;
    CompilesExact(interface, inCrate);
    if Emittable(interface, inCrate) {
      forall vs: seq<Value> | Typed(args, vs) && AllEncodable(vs)
        ensures CallProxy(t, Generated(interface, inCrate), i, objectId, true, vs) == Sent(Written(t, objectId, i, vs))
      {
        RequestCorrect(t, interface, inCrate, i, objectId, true, vs);
      }
    } else {
      assert CallProxy(t, Generated(interface, inCrate), i, objectId, true, Samples(args)) == DoesNotCompile;
    }
  }

  /** Argument structs: struct `k` becomes a packet and comes back, for all field values, if and only if the whole
      interface is hygienic and emitted for the library's crate. */
  lemma StructHygieneExact(t: Target, interface: Interface, inCrate: bool, k: nat, objectId: ObjectId)
    requires k < |interface.requests| + |interface.events| && StructOpcode(interface, k) < MAX_PROCEDURES
    ensures AlwaysReadsBack(t, interface, inCrate, k, objectId) <==> Emittable(interface, inCrate)
  {
    hide Compiles, HygienicInterface, Written;
    var args, i := StructProcedure(interface, k).args, StructOpcode(interface, k);
    CompilesExact(interface, inCrate);
    StructBodies(interface, inCrate, k);
    if Emittable(interface, inCrate) {
      forall vs: seq<Value> | Typed(args, vs) && AllEncodable(vs)
        ensures var m := Written(t, objectId, i, vs);
                && TryIntoPacket(t, Generated(interface, inCrate), k, objectId, vs) == Built(m)
                && TryFromPacket(t, Generated(interface, inCrate), k, m) == Structure(vs)
      {
        IntoPacketCorrect(t, interface, inCrate, k, objectId, vs);
        FromPacketCorrect(t, interface, inCrate, k, Written(t, objectId, i, vs));
        DecodeArgsWritten(t, args, objectId, i, vs);
      }
    } else {
      assert TryIntoPacket(t, Generated(interface, inCrate), k, objectId, Samples(args)) == DoesNotCompile;
    }
  }

  /** Everything that is emitted for an interface works. */
  ghost predicate Works(t: Target, interface: Interface, inCrate: bool, objectId: ObjectId)
  {
    && (forall i :: 0 <= i < |interface.events| && i < MAX_PROCEDURES ==>
          AlwaysDelivers(t, interface, inCrate, i, objectId))
    && (forall i :: 0 <= i < |interface.requests| && i < MAX_PROCEDURES ==>
          AlwaysSends(t, interface, inCrate, i, objectId))
    && (forall k :: 0 <= k < |interface.requests| + |interface.events| ==>
          StructOpcode(interface, k) < MAX_PROCEDURES ==> AlwaysReadsBack(t, interface, inCrate, k, objectId))
  }

  /** All events are delivered, all requests sent and all argument structs read back, for all values, if and only if
      the interface is hygienic and, if it has any of them, the module is for the library's own crate. */
  lemma HygieneExact(t: Target, interface: Interface, inCrate: bool, objectId: ObjectId)
    ensures Works(t, interface, inCrate, objectId) <==> Emittable(interface, inCrate)
  {
    hide HygienicInterface, AlwaysDelivers, AlwaysSends, AlwaysReadsBack;
    forall i | 0 <= i < |interface.events| && i < MAX_PROCEDURES
      ensures AlwaysDelivers(t, interface, inCrate, i, objectId) <==> Emittable(interface, inCrate)
    {
      EventHygieneExact(t, interface, inCrate, i, objectId);
    }
    forall i | 0 <= i < |interface.requests| && i < MAX_PROCEDURES
      ensures AlwaysSends(t, interface, inCrate, i, objectId) <==> Emittable(interface, inCrate)
    {
      RequestHygieneExact(t, interface, inCrate, i, objectId);
    }
    forall k | 0 <= k < |interface.requests| + |interface.events| && StructOpcode(interface, k) < MAX_PROCEDURES
      ensures AlwaysReadsBack(t, interface, inCrate, k, objectId) <==> Emittable(interface, inCrate)
    {
      StructHygieneExact(t, interface, inCrate, k, objectId);
    }
    if interface.events == [] && interface.requests == [] {
      EmptyIsEmittable(interface, inCrate);
    } else {
      assert StructOpcode(interface, 0) == 0;
    }
  }

  lemma EmptyIsEmittable(interface: Interface, inCrate: bool)
    requires interface.events == [] && interface.requests == []
    ensures Emittable(interface, inCrate)
  {
  }

  // ---------- what breaks the module ----------

  /** Emitted for any other crate than the library's own, no interface with a request or an event compiles. */
  lemma OrphanImpl(t: Target, interface: Interface, m: Message, i: nat, objectId: ObjectId, vs: seq<Value>)
    ensures var code := Generated(interface, false);
            && (code.arms != [] ==> HandleEvent(t, code, m) == DoesNotCompile)
            && (i < |code.proxies| && |vs| == |code.proxies[i].params| ==>
                  CallProxy(t, code, i, objectId, true, vs) == DoesNotCompile)
            && (i < |Structs(code)| ==> TryFromPacket(t, code, i, m) == DoesNotCompile)
  {
    hide Compiles, HygienicInterface, Run;
    CompilesExact(interface, false);
    if i < |Structs(Generated(interface, false))| {
      StructBodies(interface, false, i);
    }
  }

  /** One argument more than a signature can hold. */
  lemma TooManyArguments(t: Target, events: seq<Procedure>, i: nat, m: Message)
    requires i < |events| && |events[i].args| > MOST_PARAMETERS - 3
    ensures HandleEvent(t, Generated(Interface("i", 1, [], events), true), m) == DoesNotCompile
  {
    hide Compiles;
    var interface := Interface("i", 1, [], events);
    CompilesExact(interface, true);
    assert !HygienicEvent(Names(interface.events[i].args));
  }

  /** An argument called like the struct's reader: nothing in the arm of the event uses that name. */
  lemma ReaderArgument(t: Target, m: Message)
    ensures var arg := Arg("__reader", Uint, None);
            HandleEvent(t, Generated(Interface("i", 1, [], [Procedure("a", [arg])]), true), m) == DoesNotCompile
  {
    var arg := Arg("__reader", Uint, None);
    var interface := Interface("i", 1, [], [Procedure("a", [arg])]);
    hide Compiles;
    CompilesExact(interface, true);
    assert Names(interface.events[0].args)[0] == STRUCT_READER;
  }

  /** A request argument that only the proxy trips over spoils every event of the interface. */
  lemma ConnectionArgument(t: Target, events: seq<Procedure>, m: Message)
    requires events != []
    ensures var arg := Arg("connection", Uint, None);
            HandleEvent(t, Generated(Interface("i", 1, [Procedure("a", [arg])], events), true), m) == DoesNotCompile
  {
    var arg := Arg("connection", Uint, None);
    var interface := Interface("i", 1, [Procedure("a", [arg])], events);
    hide Compiles;
    CompilesExact(interface, true);
    assert Names(interface.requests[0].args)[0] == UPGRADED;
  }

  /** Two events of one name. */
  lemma SameEventTwice(t: Target, m: Message)
    ensures var interface := Interface("i", 1, [], [Procedure("a", []), Procedure("a", [])]);
            HandleEvent(t, Generated(interface, true), m) == DoesNotCompile
  {
    var interface := Interface("i", 1, [], [Procedure("a", []), Procedure("a", [])]);
    hide Compiles;
    CompilesExact(interface, true);
    assert ProcedureNames(interface.events)[0] == ProcedureNames(interface.events)[1];
  }

  /** An event called "event": its handler is called like the emitted dispatcher. */
  lemma EventCalledEvent(t: Target, m: Message)
    ensures HandleEvent(t, Generated(Interface("i", 1, [], [Procedure("event", [])]), true), m) == DoesNotCompile
  {
    var interface := Interface("i", 1, [], [Procedure("event", [])]);
    hide Compiles;
    CompilesExact(interface, true);
    assert interface.events[0].name == "event";
  }

  /** An argument called like a prelude pattern, which `let` cannot bind. */
  lemma PatternArgument(t: Target, m: Message)
    ensures var arg := Arg("None", Uint, None);
            HandleEvent(t, Generated(Interface("i", 1, [], [Procedure("a", [arg])]), true), m) == DoesNotCompile
  {
    var arg := Arg("None", Uint, None);
    var interface := Interface("i", 1, [], [Procedure("a", [arg])]);
    hide Compiles;
    CompilesExact(interface, true);
    assert Names(interface.events[0].args)[0] == "None";
  }
}
