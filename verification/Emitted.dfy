/** What the Rust compiler makes of emitted code and what the code does once it runs. A module compiles as a
    whole or not at all. */
module Emitted {
  import opened Base
  import opened Codec
  import opened Codegen

  // ---------- what compiles ----------

  datatype SlotType = DataType(valueType: ValueType) | ReaderType | PacketType | ConnectionType

  type Types = map<string, SlotType>

  /** Names of the prelude that a `let` or a parameter cannot bind: there they are patterns. */
  const PRELUDE := {"Ok", "Err", "Some", "None"}

  function Taken(push: PushFn): ValueType
  {
    match push
    case PushUint => U32
    case PushInt => I32
    case PushFixed => Fixed
    case PushStr => Text
    case PushObject => OptionalObjectId
    case PushNewIdKnownInterface => NewObjectId
    case PushNewIdUnknownInterface => NewObject
    case PushArray => Bytes
    case PushFd => RawFd
  }

  /** Whether a pushing method borrows its argument. */
  predicate Borrows(push: PushFn)
  {
    push in {PushStr, PushArray, PushNewIdUnknownInterface}
  }

  predicate Accepts(push: PushFn, borrow: bool, ty: ValueType)
  {
    ty == Taken(push) && borrow == Borrows(push)
  }

  function DeclaredNames(ds: seq<Declared>): (names: seq<string>)
    ensures |names| == |ds|
  {
    seq(|ds|, i requires 0 <= i < |ds| => ds[i].name)
  }

  /** The types of parameters. */
  function ParameterTypes(params: seq<Declared>): Types
  {
    var names := DeclaredNames(params);
    map x | x in names :: DataType(params[IndexOf(names, x)].valueType)
  }

  predicate IsData(types: Types, x: string, ty: ValueType)
  {
    x in types && types[x] == DataType(ty)
  }

  /** The variables called like the declarations have the declared types. */
  predicate Conform(types: Types, names: seq<string>, ds: seq<Declared>)
  {
    |names| == |ds| && forall i :: 0 <= i < |ds| ==> IsData(types, names[i], ds[i].valueType)
  }

  predicate OperandHas(types: Types, fields: seq<Declared>, operand: Operand, ty: ValueType)
  {
    match operand
    case Variable(x) => IsData(types, x, ty)
    case Field(x) => Declared(x, ty) in fields
  }

  /** What surrounds a function body: the fields of `self`, those of the struct that a function makes, and the
      methods of the handler trait. */
  datatype Context = Context(fields: seq<Declared>, made: seq<Declared>, handlers: seq<Prototype>)

  /** A statement that ends a function. */
  predicate Ends(s: Stmt)
  {
    s.CallHandler? || s.MakeStruct? || s.SendPacket? || s.ReturnPacket?
  }

  /** The types in scope after a statement, or nothing if it does not type-check. */
  function Check(c: Context, s: Stmt, types: Types): Option<Types>
  {
    match s
    case OpenReader(reader, packet) =>
      if packet in types && types[packet] == PacketType && reader !in PRELUDE
      then Some(types[reader := ReaderType]) else None
    case LetRead(name, reader, read) =>
      if reader in types && types[reader] == ReaderType && name !in PRELUDE
      then Some(types[name := DataType(ResultType(read))]) else None
    case Finish(reader) =>
      if reader in types && types[reader] == ReaderType then Some(types) else None
    case CallHandler(handler, connection, packet, args) =>
      if && connection in types && types[connection] == ConnectionType
         && packet in types && types[packet] == PacketType
         && (exists p :: p in c.handlers && p.name == handler && Conform(types, args, p.params))
      then Some(types) else None
    case MakeStruct(names) =>
      if names == DeclaredNames(c.made) && Conform(types, names, c.made) then Some(types) else None
    case NewPacket(packet, opcode) =>
      if opcode <= 0xFFFF && packet !in PRELUDE then Some(types[packet := PacketType]) else None
    case UpgradeConnection(name) =>
      if name !in PRELUDE then Some(types[name := ConnectionType]) else None
    case Push(packet, push, borrow, operand) =>
      if && packet in types && types[packet] == PacketType
         && OperandHas(types, c.fields, operand, Taken(push)) && borrow == Borrows(push)
      then Some(types) else None
    case SendPacket(connection, packet) =>
      if && connection in types && types[connection] == ConnectionType
         && packet in types && types[packet] == PacketType
      then Some(types) else None
    case ReturnPacket(packet) =>
      if packet in types && types[packet] == PacketType then Some(types) else None
  }

  /** A function body type-checks, and its last statement is the one that ends it. */
  predicate BodyChecks(c: Context, body: seq<Stmt>, types: Types)
  {
    body != [] &&
    match Check(c, body[0], types)
    case None => false
    case Some(next) => if Ends(body[0]) then |body| == 1 else BodyChecks(c, body[1..], next)
  }

  const ARM_TYPES: Types := map[CONNECTION := ConnectionType, PACKET := PacketType]

  const STRUCT_TYPES: Types := map[STRUCT_VALUE := PacketType]

  predicate ArmCompiles(handlers: seq<Prototype>, arm: Arm)
  {
    arm.opcode <= 0xFFFF && BodyChecks(Context([], [], handlers), arm.body, ARM_TYPES)
  }

  /** How many parameters a Rust function can have. */
  const MOST_PARAMETERS := 0xFFFF

  /** `self`, the connection and the packet come before the event's arguments. */
  predicate PrototypeCompiles(p: Prototype)
  {
    |p.params| + 3 <= MOST_PARAMETERS
  }

  /** `self` comes before the request's arguments. */
  predicate ProxyCompiles(proxy: Proxy)
  {
    var names := DeclaredNames(proxy.params);
    && |proxy.params| + 1 <= MOST_PARAMETERS
    && Distinct(names) && (forall i :: 0 <= i < |names| ==> names[i] !in PRELUDE)
    && BodyChecks(Context([], [], []), proxy.body, ParameterTypes(proxy.params))
  }

  predicate StructCompiles(s: ArgStruct)
  {
    && Distinct(DeclaredNames(s.fields))
    && BodyChecks(Context([], s.fields, []), s.fromPacket, STRUCT_TYPES)
    && BodyChecks(Context(s.fields, [], []), s.intoPacket, map[])
  }

  /** The methods of the handler trait: the two that every trait gets, and the prototypes. */
  function TraitMethods(code: Code): seq<string>
  {
    ["unknown_event", "handle_event"]
    + seq(|code.prototypes|, i requires 0 <= i < |code.prototypes| => code.prototypes[i].name)
  }

  function ProxyMethods(code: Code): seq<string>
  {
    ["new"] + seq(|code.proxies|, i requires 0 <= i < |code.proxies| => code.proxies[i].name)
  }

  function Structs(code: Code): seq<ArgStruct>
  {
    code.requestStructs + code.eventStructs
  }

  function StructNames(structs: seq<ArgStruct>): (names: seq<string>)
    ensures |names| == |structs|
  {
    seq(|structs|, i requires 0 <= i < |structs| => structs[i].name)
  }

  /** The types of the module. */
  function TypeNames(code: Code): seq<string>
  {
    [code.handlerTrait, code.proxyStruct] + StructNames(Structs(code))
  }

  /** Every argument struct comes with a conversion into `Packet` from a pair of an object ID and the struct. That
      is an implementation of a foreign trait for a foreign type with no local type among its arguments, as a pair
      counts as foreign, unless the module is part of the crate that defines `Packet`. */
  predicate CoherentImpls(code: Code)
  {
    code.inCrate || Structs(code) == []
  }

  /** The whole module compiles: no name is defined twice, every body type-checks, every signature is short enough,
      and no implementation is an orphan. */
  predicate Compiles(code: Code)
  {
    && CoherentImpls(code)
    && (forall i :: 0 <= i < |code.prototypes| ==> PrototypeCompiles(code.prototypes[i]))
    && Distinct(TypeNames(code)) && Distinct(TraitMethods(code)) && Distinct(ProxyMethods(code))
    && (forall i :: 0 <= i < |code.arms| ==> ArmCompiles(code.prototypes, code.arms[i]))
    && (forall i :: 0 <= i < |code.proxies| ==> ProxyCompiles(code.proxies[i]))
    && (forall i :: 0 <= i < |Structs(code)| ==> StructCompiles(Structs(code)[i]))
  }

  // ---------- what the emitted code does ----------

  /** What a name can stand for while emitted code runs. */
  datatype Slot =
    | Data(value: Value)
    | OpenedReader(source: Message, cursor: Cursor)
    | PacketSlot(packet: Message)
    | ConnectionSlot

  type Scope = map<string, Slot>

  /** `self`: the object a proxy sends to, the struct's fields, and whether the connection still exists. */
  datatype Self = Self(objectId: ObjectId, fields: map<string, Value>, connected: bool)

  /** How a run of emitted code ends. */
  datatype Ending =
    | Called(handler: string, args: seq<Value>, packet: Message)
    | Unknown(packet: Message)
    | Structure(fields: seq<Value>)
    | Sent(packet: Message)
    | Built(packet: Message)
    | Fails(error: Error)
    | Panics
    | Stuck           // an ill-typed operation, which code that compiles never meets
    | DoesNotCompile

  function Append(t: Target, m: Message, v: Value): Message
    requires Encodable(v)
  {
    m.(payload := m.payload + Encode(t, v), fds := m.fds + FdsOf(v))
  }

  function OperandValue(self: Self, scope: Scope, operand: Operand): Option<Value>
  {
    match operand
    case Variable(x) => if x in scope && scope[x].Data? then Some(scope[x].value) else None
    case Field(x) => if x in self.fields then Some(self.fields[x]) else None
  }

  predicate AllData(scope: Scope, names: seq<string>)
  {
    forall i :: 0 <= i < |names| ==> names[i] in scope && scope[names[i]].Data?
  }

  function DataOf(scope: Scope, names: seq<string>): (vs: seq<Value>)
    requires AllData(scope, names)
    ensures |vs| == |names|
  {
    seq(|names|, i requires 0 <= i < |names| => scope[names[i]].value)
  }

  /** One statement either extends the scope or ends the function. */
  datatype Step = Continue(scope: Scope) | Stop(ending: Ending)

  function Execute(t: Target, self: Self, s: Stmt, scope: Scope): Step
  {
    match s
    case OpenReader(reader, packet) =>
      if packet in scope && scope[packet].PacketSlot?
      then Continue(scope[reader := OpenedReader(scope[packet].packet, START)])
      else Stop(Stuck)
    case LetRead(name, reader, read) =>
      if reader !in scope || !scope[reader].OpenedReader? then Stop(Stuck)
      else
        (match Decode(t, read, scope[reader].source, scope[reader].cursor)
         case Got(v, next) => Continue(scope[reader := OpenedReader(scope[reader].source, next)][name := Data(v)])
         case Failed(e, _) => Stop(Fails(e))
         case Panicked(_) => Stop(Panics))
    case Finish(reader) =>
      if reader !in scope || !scope[reader].OpenedReader? then Stop(Stuck)
      else if Finished(scope[reader].source, scope[reader].cursor) then Continue(scope)
      else Stop(Fails(IncompleteError(scope[reader].source, scope[reader].cursor)))
    case CallHandler(handler, connection, packet, args) =>
      if && connection in scope && scope[connection].ConnectionSlot?
         && packet in scope && scope[packet].PacketSlot?
         && AllData(scope, args)
      then Stop(Called(handler, DataOf(scope, args), scope[packet].packet))
      else Stop(Stuck)
    case MakeStruct(fields) =>
      if AllData(scope, fields) then Stop(Structure(DataOf(scope, fields))) else Stop(Stuck)
    case NewPacket(packet, opcode) =>
      if opcode <= 0xFFFF then Continue(scope[packet := PacketSlot(Message(self.objectId, opcode, [], []))])
      else Stop(Stuck)
    case UpgradeConnection(name) =>
      if self.connected then Continue(scope[name := ConnectionSlot]) else Stop(Fails(ConnectionDeleted))
    case Push(packet, push, borrow, operand) =>
      if packet !in scope || !scope[packet].PacketSlot? then Stop(Stuck)
      else
        (match OperandValue(self, scope, operand)
         case None => Stop(Stuck)
         case Some(v) =>
           if !Accepts(push, borrow, TypeOf(v)) then Stop(Stuck)
           else if !Encodable(v) then Stop(Panics)
           else Continue(scope[packet := PacketSlot(Append(t, scope[packet].packet, v))]))
    case SendPacket(connection, packet) =>
      if && connection in scope && scope[connection].ConnectionSlot? && packet in scope && scope[packet].PacketSlot?
      then Stop(Sent(scope[packet].packet))
      else Stop(Stuck)
    case ReturnPacket(packet) =>
      if packet in scope && scope[packet].PacketSlot? then Stop(Built(scope[packet].packet)) else Stop(Stuck)
  }

  function Run(t: Target, self: Self, body: seq<Stmt>, scope: Scope): Ending
  {
    if body == [] then Stuck
    else
      match Execute(t, self, body[0], scope)
      case Stop(r) => r
      case Continue(next) => Run(t, self, body[1..], next)
  }

  /** The first arm whose literal is the packet's opcode, tried in order. */
  function FirstArm(arms: seq<Arm>, opcode: nat): Option<seq<Stmt>>
  {
    if arms == [] then None
    else if arms[0].opcode == opcode then Some(arms[0].body)
    else FirstArm(arms[1..], opcode)
  }

  const NO_SELF := Self(DISPLAY, map[], true)

  function ArmScope(m: Message): Scope
  {
    map[CONNECTION := ConnectionSlot, PACKET := PacketSlot(m)]
  }

  /** `handle_event`, which exists only where there are events. */
  function HandleEvent(t: Target, code: Code, m: Message): Ending
    requires code.arms != []
  {
    if !Compiles(code) then DoesNotCompile
    else
      match FirstArm(code.arms, m.opcode)
      case None => Unknown(m)
      case Some(body) => Run(t, NO_SELF, body, ArmScope(m))
  }

  function Bind(params: seq<Declared>, vs: seq<Value>): Scope
    requires |params| == |vs|
  {
    var names := DeclaredNames(params);
    map x | x in names :: Data(vs[IndexOf(names, x)])
  }

  /** The method of proxy number `i`. */
  function CallProxy(t: Target, code: Code, i: nat, objectId: ObjectId, connected: bool, vs: seq<Value>): Ending
    requires i < |code.proxies| && |vs| == |code.proxies[i].params|
  {
    if !Compiles(code) then DoesNotCompile
    else Run(t, Self(objectId, map[], connected), code.proxies[i].body, Bind(code.proxies[i].params, vs))
  }

  /** `try_from_packet` of argument struct number `i`. */
  function TryFromPacket(t: Target, code: Code, i: nat, m: Message): Ending
    requires i < |Structs(code)|
  {
    if !Compiles(code) then DoesNotCompile
    else Run(t, NO_SELF, Structs(code)[i].fromPacket, map[STRUCT_VALUE := PacketSlot(m)])
  }

  function FieldValues(fields: seq<Declared>, vs: seq<Value>): map<string, Value>
    requires |fields| == |vs|
  {
    var names := DeclaredNames(fields);
    map x | x in names :: vs[IndexOf(names, x)]
  }

  /** `try_into_packet` of argument struct number `i` with the given field values. */
  function TryIntoPacket(t: Target, code: Code, i: nat, objectId: ObjectId, vs: seq<Value>): Ending
    requires i < |Structs(code)| && |vs| == |Structs(code)[i].fields|
  {
    if !Compiles(code) then DoesNotCompile
    else
      var s := Structs(code)[i];
      Run(t, Self(objectId, FieldValues(s.fields, vs), true), s.intoPacket, map[])
  }
}
