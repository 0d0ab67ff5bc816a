/** The code generator: what `wlproto` emits for an interface, as a small statement language, and the
    tokenizer's loops that emit it. */
module Codegen {
  import opened Base
  import opened Codec

  // ---------- the interface description ----------

  datatype ArgType = Uint | Int | FixedPoint | String | Object | NewId | Array | FileDescriptor

  datatype Arg = Arg(name: string, argType: ArgType, interface: Option<string>)

  datatype Procedure = Procedure(name: string, args: seq<Arg>)

  datatype Interface = Interface(name: string, version: u32, requests: seq<Procedure>, events: seq<Procedure>)

  // ---------- the emitted code ----------

  /** The pushing methods of `Packet`. */
  datatype PushFn =
    | PushUint | PushInt | PushFixed | PushStr | PushObject
    | PushNewIdKnownInterface | PushNewIdUnknownInterface | PushArray | PushFd

  /** Where an operand comes from: a variable in scope or a field of `self`. */
  datatype Operand = Variable(name: string) | Field(name: string)

  datatype Stmt =
    | OpenReader(reader: string, packet: string)                    // let mut reader = packet.read();
    | LetRead(name: string, reader: string, read: ReadFn)           // let name = reader.read_f()?;
    | Finish(reader: string)                                        // reader.finish()?;
    | CallHandler(handler: string, connection: string, packet: string, args: seq<string>)
    | MakeStruct(fields: seq<string>)                               // Ok(Self { fields })
    | NewPacket(packet: string, opcode: nat)                        // let mut packet = Packet::new(object_id, opcode);
    | UpgradeConnection(name: string)                               // let name = match self.connection.upgrade() ...
    | Push(packet: string, push: PushFn, borrow: bool, operand: Operand)
    | SendPacket(connection: string, packet: string)                // connection.send_packet(&packet)
    | ReturnPacket(packet: string)                                  // Ok(packet)

  /** A struct field or a parameter. What the emitted signatures borrow is declared by the type it borrows. */
  datatype Declared = Declared(name: string, valueType: ValueType)

  datatype Arm = Arm(opcode: nat, body: seq<Stmt>)

  datatype Prototype = Prototype(name: string, params: seq<Declared>)

  datatype Proxy = Proxy(name: string, params: seq<Declared>, body: seq<Stmt>)

  datatype ArgStruct = ArgStruct(name: string, fields: seq<Declared>, fromPacket: seq<Stmt>, intoPacket: seq<Stmt>)

  /** One Rust module: whether it is written for the crate that defines `Packet`; the handler trait with its
      prototypes and the arms of its `handle_event`; the request proxy; and the one list of argument structs, split
      at the chain point. */
  datatype Code = Code(
    inCrate: bool,
    handlerTrait: string, prototypes: seq<Prototype>, arms: seq<Arm>,
    proxyStruct: string, proxies: seq<Proxy>,
    requestStructs: seq<ArgStruct>, eventStructs: seq<ArgStruct>)

  // ---------- the tables ----------

  function IncomingType(a: ArgType, knownInterface: bool): ValueType
  {
    match a
    case Uint => U32
    case Int => I32
    case FixedPoint => Fixed
    case String => Text
    case Object => OptionalObjectId
    case NewId => if knownInterface then NewObjectId else NewObject
    case Array => Bytes
    case FileDescriptor => RawFd
  }

  function ReadFunc(a: ArgType, knownInterface: bool): ReadFn
  {
    match a
    case Uint => ReadUint
    case Int => ReadInt
    case FixedPoint => ReadFixed
    case String => ReadStr
    case Object => ReadObject
    case NewId => if knownInterface then ReadNewIdKnownInterface else ReadNewIdUnknownInterface
    case Array => ReadArray
    case FileDescriptor => ReadFd
  }

  function WriteFunc(a: ArgType, knownInterface: bool): PushFn
  {
    match a
    case Uint => PushUint
    case Int => PushInt
    case FixedPoint => PushFixed
    case String => PushStr
    case Object => PushObject
    case NewId => if knownInterface then PushNewIdKnownInterface else PushNewIdUnknownInterface
    case Array => PushArray
    case FileDescriptor => PushFd
  }

  function WriteReference(a: ArgType, knownInterface: bool): bool
  {
    match a
    case Uint => false
    case Int => false
    case FixedPoint => false
    case Object => false
    case FileDescriptor => false
    case String => true
    case Array => true
    case NewId => !knownInterface
  }

  function Known(a: Arg): bool
  {
    a.interface.Some?
  }

  // ---------- what the emitted code should be, argument by argument ----------

  const READER := "__packet_reader"
  const PACKET := "__packet"
  const CONNECTION := "__connection"
  const UPGRADED := "connection"
  const STRUCT_READER := "__reader"
  const STRUCT_VALUE := "__value"

  function Names(args: seq<Arg>): (names: seq<string>)
    ensures |names| == |args|
  {
    seq(|args|, i requires 0 <= i < |args| => args[i].name)
  }

  function Declarations(args: seq<Arg>): (ds: seq<Declared>)
    ensures |ds| == |args|
  {
    seq(|args|, i requires 0 <= i < |args| => Declared(args[i].name, IncomingType(args[i].argType, Known(args[i]))))
  }

  function Reads(args: seq<Arg>, reader: string): (stmts: seq<Stmt>)
    ensures |stmts| == |args|
  {
    seq(|args|, i requires 0 <= i < |args| =>
      LetRead(args[i].name, reader, ReadFunc(args[i].argType, Known(args[i]))))
  }

  function Writes(args: seq<Arg>, fields: bool): (stmts: seq<Stmt>)
    ensures |stmts| == |args|
  {
    seq(|args|, i requires 0 <= i < |args| =>
      Push(PACKET, WriteFunc(args[i].argType, Known(args[i])), WriteReference(args[i].argType, Known(args[i])),
           if fields then Field(args[i].name) else Variable(args[i].name)))
  }

  function EventBody(p: Procedure): seq<Stmt>
  {
    [OpenReader(READER, PACKET)]
    + Reads(p.args, READER)
    + [Finish(READER), CallHandler("handle_" + p.name, CONNECTION, PACKET, Names(p.args))]
  }

  function ProxyBody(p: Procedure, opcode: nat): seq<Stmt>
  {
    [NewPacket(PACKET, opcode), UpgradeConnection(UPGRADED)]
    + Writes(p.args, false)
    + [SendPacket(UPGRADED, PACKET)]
  }

  function FromPacketBody(p: Procedure): seq<Stmt>
  {
    [OpenReader(STRUCT_READER, STRUCT_VALUE)]
    + Reads(p.args, STRUCT_READER)
    + [Finish(STRUCT_READER), MakeStruct(Names(p.args))]
  }

  function IntoPacketBody(p: Procedure, opcode: nat): seq<Stmt>
  {
    [NewPacket(PACKET, opcode)] + Writes(p.args, true) + [ReturnPacket(PACKET)]
  }

  function Decimal(n: nat): string
  {
    var digit := ["0", "1", "2", "3", "4", "5", "6", "7", "8", "9"][n % 10];
    if n < 10 then digit else Decimal(n / 10) + digit
  }

  function VersionedName(interface: Interface): string
  {
    interface.name + "_v" + Decimal(interface.version)
  }

  function PrototypeOf(p: Procedure): Prototype
  {
    Prototype("handle_" + p.name, Declarations(p.args))
  }

  function ArmOf(p: Procedure, i: nat): Arm
  {
    Arm(i, EventBody(p))
  }

  function ProxyOf(p: Procedure, i: nat): Proxy
  {
    Proxy("send_" + p.name, Declarations(p.args), ProxyBody(p, i))
  }

  const REQUEST := "request"
  const EVENT := "event"

  function StructOf(versionedName: string, kind: string, p: Procedure, i: nat): ArgStruct
  {
    ArgStruct(versionedName + "_" + kind + "_" + p.name + "_args", Declarations(p.args), FromPacketBody(p),
              IntoPacketBody(p, i))
  }

  /** The code emitted for an interface, for the library's own crate or for another one: arm, proxy and struct `i`
      belong to procedure `i` of their list. */
  function Generated(interface: Interface, inCrate: bool): Code
  {
    var events, requests, name := interface.events, interface.requests, VersionedName(interface);
    Code(inCrate,
         name + "_event_handler",
         seq(|events|, i requires 0 <= i < |events| => PrototypeOf(events[i])),
         seq(|events|, i requires 0 <= i < |events| => ArmOf(events[i], i)),
         name + "_request_proxy",
         seq(|requests|, i requires 0 <= i < |requests| => ProxyOf(requests[i], i)),
         seq(|requests|, i requires 0 <= i < |requests| => StructOf(name, REQUEST, requests[i], i)),
         seq(|events|, i requires 0 <= i < |events| => StructOf(name, EVENT, events[i], i)))
  }

  // ---------- the tokenizer's loops ----------

  method TokenizeEvent(event: Procedure, eventIndex: nat) returns (prototype: Prototype, arm: Arm)
    ensures prototype == PrototypeOf(event) && arm == ArmOf(event, eventIndex)
  {
    var args: seq<Declared> := [];
    var argNames: seq<string> := [];
    var argDecoders: seq<Stmt> := [];
    for k := 0 to |event.args|
      invariant args == Declarations(event.args)[..k]
      invariant argNames == Names(event.args)[..k]
      invariant argDecoders == Reads(event.args, READER)[..k]
    {
      var arg := event.args[k];
      argNames := argNames + [arg.name];
      args := args + [Declared(arg.name, IncomingType(arg.argType, arg.interface.Some?))];
      argDecoders := argDecoders + [LetRead(arg.name, READER, ReadFunc(arg.argType, arg.interface.Some?))];
    }
    assert args == Declarations(event.args) && argNames == Names(event.args);
    assert argDecoders == Reads(event.args, READER);
    prototype := Prototype("handle_" + event.name, args);
    arm := Arm(eventIndex,
               [OpenReader(READER, PACKET)] + argDecoders
               + [Finish(READER), CallHandler("handle_" + event.name, CONNECTION, PACKET, argNames)]);
  }

  method TokenizeProxy(req: Procedure, reqIndex: nat) returns (proxy: Proxy)
    ensures proxy == ProxyOf(req, reqIndex)
  {
    var args: seq<Declared> := [];
    var argWriteFuncCalls: seq<Stmt> := [];
    for k := 0 to |req.args|
      invariant args == Declarations(req.args)[..k]
      invariant argWriteFuncCalls == Writes(req.args, false)[..k]
    {
      var arg := req.args[k];
      var writeFunc := WriteFunc(arg.argType, arg.interface.Some?);
      var writeRef := WriteReference(arg.argType, arg.interface.Some?);
      args := args + [Declared(arg.name, IncomingType(arg.argType, arg.interface.Some?))];
      argWriteFuncCalls := argWriteFuncCalls + [Push(PACKET, writeFunc, writeRef, Variable(arg.name))];
    }
    assert args == Declarations(req.args) && argWriteFuncCalls == Writes(req.args, false);
    proxy := Proxy("send_" + req.name, args,
                   [NewPacket(PACKET, reqIndex), UpgradeConnection(UPGRADED)] + argWriteFuncCalls
                   + [SendPacket(UPGRADED, PACKET)]);
  }

  method TokenizeArgStruct(versionedName: string, kind: string, procedure: Procedure, index: nat) returns (s: ArgStruct)
    ensures s == StructOf(versionedName, kind, procedure, index)
  {
    var fields: seq<Declared> := [];
    var fieldNames: seq<string> := [];
    var fieldReads: seq<Stmt> := [];
    var fieldWrites: seq<Stmt> := [];
    for k := 0 to |procedure.args|
      invariant fields == Declarations(procedure.args)[..k]
      invariant fieldNames == Names(procedure.args)[..k]
      invariant fieldReads == Reads(procedure.args, STRUCT_READER)[..k]
      invariant fieldWrites == Writes(procedure.args, true)[..k]
    {
      var arg := procedure.args[k];
      var known := arg.interface.Some?;
      fieldNames := fieldNames + [arg.name];
      fields := fields + [Declared(arg.name, IncomingType(arg.argType, known))];
      fieldReads := fieldReads + [LetRead(arg.name, STRUCT_READER, ReadFunc(arg.argType, known))];
      fieldWrites := fieldWrites
        + [Push(PACKET, WriteFunc(arg.argType, known), WriteReference(arg.argType, known), Field(arg.name))];
    }
    assert fields == Declarations(procedure.args) && fieldNames == Names(procedure.args);
    assert fieldReads == Reads(procedure.args, STRUCT_READER) && fieldWrites == Writes(procedure.args, true);
    s := ArgStruct(versionedName + "_" + kind + "_" + procedure.name + "_args", fields,
                   [OpenReader(STRUCT_READER, STRUCT_VALUE)] + fieldReads
                   + [Finish(STRUCT_READER), MakeStruct(fieldNames)],
                   [NewPacket(PACKET, index)] + fieldWrites + [ReturnPacket(PACKET)]);
  }

  method TokenizeInterface(interface: Interface, inCrate: bool) returns (code: Code)
    ensures code == Generated(interface, inCrate)
  {
    var name := VersionedName(interface);
    var prototypes: seq<Prototype> := [];
    var arms: seq<Arm> := [];
    for i := 0 to |interface.events|
      invariant prototypes == Generated(interface, inCrate).prototypes[..i]
      invariant arms == Generated(interface, inCrate).arms[..i]
    {
      var prototype, arm := TokenizeEvent(interface.events[i], i);
      prototypes := prototypes + [prototype];
      arms := arms + [arm];
    }
    var proxies: seq<Proxy> := [];
    for i := 0 to |interface.requests|
      invariant proxies == Generated(interface, inCrate).proxies[..i]
    {
      var proxy := TokenizeProxy(interface.requests[i], i);
      proxies := proxies + [proxy];
    }
    var requestStructs: seq<ArgStruct> := [];
    for i := 0 to |interface.requests|
      invariant requestStructs == Generated(interface, inCrate).requestStructs[..i]
    {
      var s := TokenizeArgStruct(name, REQUEST, interface.requests[i], i);
      requestStructs := requestStructs + [s];
    }
    var eventStructs: seq<ArgStruct> := [];
    for i := 0 to |interface.events|
      invariant eventStructs == Generated(interface, inCrate).eventStructs[..i]
    {
      var s := TokenizeArgStruct(name, EVENT, interface.events[i], i);
      eventStructs := eventStructs + [s];
    }
    code := Code(inCrate, name + "_event_handler", prototypes, arms, name + "_request_proxy", proxies,
                 requestStructs, eventStructs);
  }
}
