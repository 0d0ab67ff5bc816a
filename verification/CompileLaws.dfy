/** The module emitted for an interface compiles exactly when the names in the interface collide neither with
    each other nor with the names that the generator itself uses; and what compiles never gets stuck. */
module CompileLaws {
  import opened Base
  import opened Codec
  import opened Codegen
  import opened Emitted

  // ---------- hygiene ----------

  predicate Bindable(names: seq<string>)
  {
    forall i :: 0 <= i < |names| ==> names[i] !in {"Ok", "Err", "Some", "None"}
  }

  predicate HygienicStruct(names: seq<string>)
  {
    Distinct(names) && Bindable(names) && "__reader" !in names
  }

  predicate HygienicEvent(names: seq<string>)
  {
    && HygienicStruct(names) && |names| <= 65532
    && "__packet_reader" !in names && "__packet" !in names && "__connection" !in names
  }

  predicate HygienicRequest(names: seq<string>)
  {
    HygienicStruct(names) && |names| <= 65534 && "__packet" !in names && "connection" !in names
  }

  function ProcedureNames(ps: seq<Procedure>): (names: seq<string>)
    ensures |names| == |ps|
    ensures Distinct(names) <==> forall i, j :: 0 <= i < j < |ps| ==> ps[i].name != ps[j].name
  {
    var each := seq(|ps|, i requires 0 <= i < |ps| => ps[i].name);
    assert forall i :: 0 <= i < |ps| ==> each[i] == ps[i].name;
    each
  }

  predicate DistinctProcedures(ps: seq<Procedure>)
  {
    Distinct(ProcedureNames(ps))
  }

  const MAX_PROCEDURES := 0x1_0000

  /** What an interface description must look like for the code emitted for it to be a Rust module. */
  predicate HygienicInterface(interface: Interface)
  {
    && |interface.events| <= MAX_PROCEDURES && |interface.requests| <= MAX_PROCEDURES
    && DistinctProcedures(interface.events) && DistinctProcedures(interface.requests)
    && (forall i :: 0 <= i < |interface.events| ==> interface.events[i].name != "event")
    && (forall i :: 0 <= i < |interface.events| ==> HygienicEvent(Names(interface.events[i].args)))
    && (forall i :: 0 <= i < |interface.requests| ==> HygienicRequest(Names(interface.requests[i].args)))
  }

  /** And what else it takes: code with argument structs is only for the crate that defines `Packet`. */
  predicate Emittable(interface: Interface, inCrate: bool)
  {
    HygienicInterface(interface) && (inCrate || (interface.events == [] && interface.requests == []))
  }

  // ---------- checking the emitted reads ----------

  lemma DeclarationNames(args: seq<Arg>)
    ensures DeclaredNames(Declarations(args)) == Names(args)
  {
  }

  lemma ReadsTail(args: seq<Arg>, reader: string)
    requires args != []
    ensures Reads(args, reader)[0] == LetRead(args[0].name, reader, ReadFunc(args[0].argType, Known(args[0])))
    ensures Reads(args, reader)[1..] == Reads(args[1..], reader)
    ensures Names(args)[0] == args[0].name && Names(args)[1..] == Names(args[1..])
  {
  }

  /** The types in scope once all arguments have been read into variables. */
  function ReadTypes(types: Types, args: seq<Arg>): Types
    decreases |args|
  {
    if args == [] then types
    else
      var ty := ResultType(ReadFunc(args[0].argType, Known(args[0])));
      ReadTypes(types[args[0].name := DataType(ty)], args[1..])
  }

  lemma {:induction false} ReadTypesElsewhere(types: Types, args: seq<Arg>, x: string)
    requires x !in Names(args)
    ensures x in ReadTypes(types, args) <==> x in types
    ensures x in types ==> ReadTypes(types, args)[x] == types[x]
    decreases |args|
  {
    if args != [] {
      ReadsTail(args, "");
      var ty := ResultType(ReadFunc(args[0].argType, Known(args[0])));
      assert x != args[0].name && x !in Names(args)[1..];
      ReadTypesElsewhere(types[args[0].name := DataType(ty)], args[1..], x);
    }
  }

  lemma {:induction false} ReadTypesData(types: Types, args: seq<Arg>, x: string)
    requires x in Names(args)
    ensures x in ReadTypes(types, args) && ReadTypes(types, args)[x].DataType?
    decreases |args|
  {
    ReadsTail(args, "");
    var ty := ResultType(ReadFunc(args[0].argType, Known(args[0])));
    var next := types[args[0].name := DataType(ty)];
    if x in Names(args[1..]) {
      ReadTypesData(next, args[1..], x);
    } else {
      ReadTypesElsewhere(next, args[1..], x);
      assert x == args[0].name;
    }
  }

  lemma ReadResult(a: Arg)
    ensures ResultType(ReadFunc(a.argType, Known(a))) == IncomingType(a.argType, Known(a))
  {
  }

  /** With distinct names every variable has the type that its argument declares. */
  lemma {:induction false} ReadTypesConform(types: Types, args: seq<Arg>)
    requires Distinct(Names(args))
    ensures Conform(ReadTypes(types, args), Names(args), Declarations(args))
    decreases |args|
  {
    if args != [] {
      ReadsTail(args, "");
      ReadResult(args[0]);
      var ty := ResultType(ReadFunc(args[0].argType, Known(args[0])));
      var next := types[args[0].name := DataType(ty)];
      assert Distinct(Names(args)[1..]) && args[0].name !in Names(args)[1..];
      ReadTypesConform(next, args[1..]);
      ReadTypesElsewhere(next, args[1..], args[0].name);
      forall i | 0 <= i < |args|
        ensures IsData(ReadTypes(types, args), Names(args)[i], Declarations(args)[i].valueType)
      {
        if i > 0 {
          assert Names(args)[i] == Names(args[1..])[i - 1];
          assert Declarations(args)[i] == Declarations(args[1..])[i - 1];
        }
      }
    }
  }

  lemma CheckFirst(c: Context, first: Stmt, body: seq<Stmt>, rest: seq<Stmt>, types: Types)
    requires body != [] && body[0] == first && !Ends(first)
    ensures BodyChecks(c, body + rest, types) <==>
            Check(c, first, types).Some? && BodyChecks(c, body[1..] + rest, Check(c, first, types).value)
  {
    assert (body + rest)[0] == first;
    assert (body + rest)[1..] == body[1..] + rest;
  }

  lemma CheckOne(c: Context, first: Stmt, rest: seq<Stmt>, types: Types)
    requires !Ends(first)
    ensures BodyChecks(c, [first] + rest, types) <==>
            Check(c, first, types).Some? && BodyChecks(c, rest, Check(c, first, types).value)
  {
    assert ([first] + rest)[1..] == rest;
  }

  /** The emitted reads check exactly when no argument is called like the reader or like a prelude pattern. */
  lemma {:induction false} ReadsCheck(c: Context, args: seq<Arg>, reader: string, last: Stmt, types: Types)
    requires reader in types && types[reader] == ReaderType
    ensures BodyChecks(c, Reads(args, reader) + [Finish(reader), last], types) <==>
            && reader !in Names(args) && Bindable(Names(args))
            && BodyChecks(c, [last], ReadTypes(types, args))
    decreases |args|
  {
    hide BodyChecks, Conform, OperandHas;
    var rest := [Finish(reader), last];
    if args == [] {
      assert Reads(args, reader) + rest == rest == [Finish(reader)] + [last];
      CheckFirst(c, Finish(reader), [Finish(reader)], [last], types);
      assert [Finish(reader)][1..] + [last] == [last];
    } else {
      ReadsTail(args, reader);
      var x, f := args[0].name, ReadFunc(args[0].argType, Known(args[0]));
      var next := types[x := DataType(ResultType(f))];
      CheckFirst(c, LetRead(x, reader, f), Reads(args, reader), rest, types);
      assert Bindable(Names(args)) <==> x !in PRELUDE && Bindable(Names(args[1..])) by {
        assert forall i :: 0 < i < |args| ==> Names(args)[i] == Names(args[1..])[i - 1];
      }
      assert reader in Names(args) <==> reader == x || reader in Names(args)[1..];
      if x == reader {
        ReaderLost(c, args[1..], reader, last, next);
      } else {
        ReadsCheck(c, args[1..], reader, last, next);
      }
    }
  }

  /** Once the reader's name stands for an argument, nothing that uses the reader checks. */
  lemma ReaderLost(c: Context, args: seq<Arg>, reader: string, last: Stmt, types: Types)
    requires reader in types && types[reader] != ReaderType
    ensures !BodyChecks(c, Reads(args, reader) + [Finish(reader), last], types)
  {
    var body := Reads(args, reader) + [Finish(reader), last];
    if args != [] {
      ReadsTail(args, reader);
    }
    assert body[0].LetRead? || body[0] == Finish(reader);
    assert Check(c, body[0], types) == None;
  }

  /** The reading bodies: the arm's and the struct's. */
  lemma DecodersCheck(c: Context, args: seq<Arg>, reader: string, packet: string, last: Stmt, types: Types)
    requires packet in types && types[packet] == PacketType && reader !in PRELUDE
    ensures BodyChecks(c, [OpenReader(reader, packet)] + Reads(args, reader) + [Finish(reader), last], types) <==>
            && reader !in Names(args) && Bindable(Names(args))
            && BodyChecks(c, [last], ReadTypes(types[reader := ReaderType], args))
  {
    hide BodyChecks;
    var tail := Reads(args, reader) + [Finish(reader), last];
    var open := OpenReader(reader, packet);
    assert [open] + Reads(args, reader) + [Finish(reader), last] == [open] + tail;
    CheckOne(c, open, tail, types);
    ReadsCheck(c, args, reader, last, types[reader := ReaderType]);
  }

  // ---------- checking the emitted writes ----------

  lemma WritesTail(args: seq<Arg>, fields: bool)
    requires args != []
    ensures Writes(args, fields)[0] == WriteOf(args[0], fields)
    ensures Writes(args, fields)[1..] == Writes(args[1..], fields)
    ensures Names(args)[1..] == Names(args[1..]) && Names(args)[0] == args[0].name
  {
  }

  function OperandOf(name: string, fields: bool): Operand
  {
    if fields then Field(name) else Variable(name)
  }

  function WriteOf(a: Arg, fields: bool): Stmt
  {
    Push(PACKET, WriteFunc(a.argType, Known(a)), WriteReference(a.argType, Known(a)), OperandOf(a.name, fields))
  }

  /** The tables agree: each push takes exactly what the type table declares, passed as the reference table says. */
  lemma TablesAccept(a: Arg, borrow: bool, ty: ValueType)
    ensures var known := Known(a);
            Accepts(WriteFunc(a.argType, known), borrow, ty) <==>
              borrow == WriteReference(a.argType, known) && ty == IncomingType(a.argType, known)
  {
  }

  predicate AllOperands(c: Context, types: Types, args: seq<Arg>, fields: bool)
  {
    forall i :: 0 <= i < |args| ==>
      OperandHas(types, c.fields, OperandOf(args[i].name, fields), IncomingType(args[i].argType, Known(args[i])))
  }

  /** The emitted writes check exactly when every operand has the type that its argument declares. */
  lemma {:induction false} WritesCheck(c: Context, args: seq<Arg>, fields: bool, rest: seq<Stmt>, types: Types)
    requires PACKET in types && types[PACKET] == PacketType
    ensures BodyChecks(c, Writes(args, fields) + rest, types) <==>
            AllOperands(c, types, args, fields) && BodyChecks(c, rest, types)
    decreases |args|
  {
    hide BodyChecks, OperandHas;
    if args == [] {
      assert Writes(args, fields) + rest == rest;
    } else {
      WritesTail(args, fields);
      var a := args[0];
      TablesAccept(a, WriteReference(a.argType, Known(a)), IncomingType(a.argType, Known(a)));
      CheckFirst(c, WriteOf(args[0], fields), Writes(args, fields), rest, types);
      WritesCheck(c, args[1..], fields, rest, types);
      assert AllOperands(c, types, args, fields) <==>
        OperandHas(types, c.fields, OperandOf(args[0].name, fields), IncomingType(args[0].argType, Known(args[0])))
        && AllOperands(c, types, args[1..], fields)
      by {
        assert forall i :: 0 < i < |args| ==> args[i] == args[1..][i - 1];
      }
    }
  }

  // ---------- arm, proxy and struct ----------

  lemma LastChecks(c: Context, last: Stmt, types: Types)
    requires Ends(last)
    ensures BodyChecks(c, [last], types) <==> Check(c, last, types).Some?
  {
  }

  /** A match arm checks if its names are clean and the trait declares its handler; and it checks only then. */
  lemma ArmExact(handlers: seq<Prototype>, event: Procedure, i: nat)
    requires PrototypeOf(event) in handlers && Distinct(Names(event.args))
    ensures ArmCompiles(handlers, ArmOf(event, i)) <==>
            && i <= 0xFFFF && Bindable(Names(event.args))
            && READER !in Names(event.args) && PACKET !in Names(event.args) && CONNECTION !in Names(event.args)
  {
    hide BodyChecks;
    var c, args, names := Context([], [], handlers), event.args, Names(event.args);
    var last := CallHandler("handle_" + event.name, CONNECTION, PACKET, names);
    var types := ReadTypes(ARM_TYPES[READER := ReaderType], args);
    DecodersCheck(c, args, READER, PACKET, last, ARM_TYPES);
    LastChecks(c, last, types);
    ReadTypesConform(ARM_TYPES[READER := ReaderType], args);
    KeepsOrLoses(ARM_TYPES[READER := ReaderType], args, PACKET);
    KeepsOrLoses(ARM_TYPES[READER := ReaderType], args, CONNECTION);
    assert Conform(types, names, PrototypeOf(event).params);
  }

  lemma KeepsOrLoses(types: Types, args: seq<Arg>, x: string)
    requires x in types && !types[x].DataType?
    ensures x in ReadTypes(types, args)
    ensures ReadTypes(types, args)[x] == types[x] <==> x !in Names(args)
  {
    if x in Names(args) {
      ReadTypesData(types, args, x);
    } else {
      ReadTypesElsewhere(types, args, x);
    }
  }

  lemma DeclaredFields(args: seq<Arg>, c: Context)
    requires c.fields == Declarations(args)
    ensures AllOperands(c, map[PACKET := PacketType], args, true)
  {
    forall i | 0 <= i < |args|
      ensures Declared(args[i].name, IncomingType(args[i].argType, Known(args[i]))) in c.fields
    {
      assert c.fields[i] == Declared(args[i].name, IncomingType(args[i].argType, Known(args[i])));
    }
  }

  /** An argument struct compiles exactly when its field names are clean and its opcode is one. */
  lemma StructExact(versionedName: string, kind: string, p: Procedure, i: nat)
    ensures StructCompiles(StructOf(versionedName, kind, p, i)) <==> i <= 0xFFFF && HygienicStruct(Names(p.args))
  {
    hide BodyChecks;
    var s, names := StructOf(versionedName, kind, p, i), Names(p.args);
    DeclarationNames(p.args);
    if Distinct(names) {
      var c, last := Context([], s.fields, []), MakeStruct(names);
      DecodersCheck(c, p.args, STRUCT_READER, STRUCT_VALUE, last, STRUCT_TYPES);
      LastChecks(c, last, ReadTypes(STRUCT_TYPES[STRUCT_READER := ReaderType], p.args));
      ReadTypesConform(STRUCT_TYPES[STRUCT_READER := ReaderType], p.args);
      IntoPacketChecks(Context(s.fields, [], []), p, i);
    }
  }

  lemma IntoPacketChecks(c: Context, p: Procedure, i: nat)
    requires c.fields == Declarations(p.args)
    ensures BodyChecks(c, IntoPacketBody(p, i), map[]) <==> i <= 0xFFFF
  {
    hide BodyChecks;
    var tail := [ReturnPacket(PACKET)];
    assert IntoPacketBody(p, i) == [NewPacket(PACKET, i)] + (Writes(p.args, true) + tail);
    CheckOne(c, NewPacket(PACKET, i), Writes(p.args, true) + tail, map[]);
    WritesCheck(c, p.args, true, tail, map[PACKET := PacketType]);
    DeclaredFields(p.args, c);
    LastChecks(c, tail[0], map[PACKET := PacketType]);
  }

  lemma ParameterHas(params: seq<Declared>, i: nat)
    requires Distinct(DeclaredNames(params)) && i < |params|
    ensures IsData(ParameterTypes(params), params[i].name, params[i].valueType)
  {
    var names := DeclaredNames(params);
    assert names[i] == params[i].name;
    assert IndexOf(names, names[i]) == i;
  }

  /** The parameters are there for the pushes except where the two locals hide them. */
  lemma ParametersVisible(args: seq<Arg>, types: Types, c: Context)
    requires Distinct(Names(args))
    requires types == ParameterTypes(Declarations(args))[PACKET := PacketType][UPGRADED := ConnectionType]
    ensures AllOperands(c, types, args, false) <==> PACKET !in Names(args) && UPGRADED !in Names(args)
  {
    var params, names := Declarations(args), Names(args);
    DeclarationNames(args);
    forall i | 0 <= i < |args|
      ensures OperandHas(types, c.fields, OperandOf(args[i].name, false), IncomingType(args[i].argType, Known(args[i])))
              <==> names[i] != PACKET && names[i] != UPGRADED
    {
      ParameterHas(params, i);
      assert params[i].name == names[i] == args[i].name;
    }
    assert PACKET in names ==> exists i :: 0 <= i < |names| && names[i] == PACKET;
    assert UPGRADED in names ==> exists i :: 0 <= i < |names| && names[i] == UPGRADED;
  }

  lemma ProxyBodyChecks(c: Context, req: Procedure, i: nat)
    requires Distinct(Names(req.args))
    ensures BodyChecks(c, ProxyBody(req, i), ParameterTypes(Declarations(req.args))) <==>
            i <= 0xFFFF && PACKET !in Names(req.args) && UPGRADED !in Names(req.args)
  {
    hide BodyChecks, ParameterTypes, Distinct, Writes, AllOperands;
    var params := ParameterTypes(Declarations(req.args));
    var made := params[PACKET := PacketType];
    var types := made[UPGRADED := ConnectionType];
    var tail := [SendPacket(UPGRADED, PACKET)];
    var writes := Writes(req.args, false) + tail;
    ProxyBodyParts(req, i);
    CheckOne(c, NewPacket(PACKET, i), [UpgradeConnection(UPGRADED)] + writes, params);
    CheckOne(c, UpgradeConnection(UPGRADED), writes, made);
    WritesCheck(c, req.args, false, tail, types);
    ParametersVisible(req.args, types, c);
    LastChecks(c, tail[0], types);
  }

  lemma ProxyBodyParts(req: Procedure, i: nat)
    ensures ProxyBody(req, i) ==
            [NewPacket(PACKET, i)]
            + ([UpgradeConnection(UPGRADED)] + (Writes(req.args, false) + [SendPacket(UPGRADED, PACKET)]))
  {
  }

  /** A proxy method compiles exactly when its parameter names are clean and its opcode is one. */
  lemma ProxyExact(req: Procedure, i: nat)
    ensures ProxyCompiles(ProxyOf(req, i)) <==>
            && i <= 0xFFFF && |req.args| + 1 <= MOST_PARAMETERS
            && Distinct(Names(req.args)) && Bindable(Names(req.args))
            && PACKET !in Names(req.args) && UPGRADED !in Names(req.args)
  {
    hide BodyChecks, ParameterTypes;
    DeclarationNames(req.args);
    if Distinct(Names(req.args)) {
      ProxyBodyChecks(Context([], [], []), req, i);
    }
  }

  // ---------- the names of the module ----------

  lemma AffixedNames(prefix: string, a: string, b: string, suffix: string)
    requires prefix + a + suffix == prefix + b + suffix
    ensures a == b
  {
    var x, y := prefix + a + suffix, prefix + b + suffix;
    assert |a| == |b|;
    assert x[|prefix|..|prefix| + |a|] == a && y[|prefix|..|prefix| + |b|] == b;
  }

  /** Struct names are distinct where procedure names are: requests and events differ after the prefix. */
  lemma StructNamesDiffer(name: string, kind1: string, p: Procedure, kind2: string, q: Procedure, i: nat, j: nat)
    requires kind1 in {REQUEST, EVENT} && kind2 in {REQUEST, EVENT} && (kind1 == kind2 ==> p.name != q.name)
    ensures StructOf(name, kind1, p, i).name != StructOf(name, kind2, q, j).name
  {
    var x, y := StructOf(name, kind1, p, i).name, StructOf(name, kind2, q, j).name;
    if x == y {
      assert x == name + "_" + kind1 + "_" + p.name + "_args" && y == name + "_" + kind2 + "_" + q.name + "_args";
      assert x[|name| + 1] == kind1[0] && y[|name| + 1] == kind2[0];
      assert kind1 == kind2;
      AffixedNames(name + "_" + kind1 + "_", p.name, q.name, "_args");
    }
  }

  lemma LastCharacter(s: string, suffix: string)
    requires suffix != []
    ensures s + suffix != [] && (s + suffix)[|s + suffix| - 1] == suffix[|suffix| - 1]
  {
  }

  lemma StructsDiffer(interface: Interface, inCrate: bool, i: nat, j: nat)
    requires DistinctProcedures(interface.events) && DistinctProcedures(interface.requests)
    requires i < j < |Structs(Generated(interface, inCrate))|
    ensures Structs(Generated(interface, inCrate))[i].name != Structs(Generated(interface, inCrate))[j].name
  {
    hide Distinct;
    var p, kind1, m := StructAt(interface, inCrate, i);
    var q, kind2, n := StructAt(interface, inCrate, j);
    if kind1 == kind2 {
      DistinctAt(if kind1 == REQUEST then interface.requests else interface.events, m, n);
    }
    StructNamesDiffer(VersionedName(interface), kind1, p, kind2, q, m, n);
  }

  lemma DistinctAt(ps: seq<Procedure>, i: nat, j: nat)
    requires DistinctProcedures(ps) && i < j < |ps|
    ensures ps[i].name != ps[j].name
  {
    assert ProcedureNames(ps)[i] != ProcedureNames(ps)[j];
  }

  lemma LastOfStruct(interface: Interface, inCrate: bool, j: nat)
    requires j < |Structs(Generated(interface, inCrate))|
    ensures var name := Structs(Generated(interface, inCrate))[j].name; name != [] && name[|name| - 1] == 's'
  {
    var q, kind, n := StructAt(interface, inCrate, j);
    LastCharacter(VersionedName(interface) + "_" + kind + "_" + q.name, "_args");
  }

  lemma DistinctConcat<T>(a: seq<T>, b: seq<T>)
    ensures Distinct(a + b) <==>
            Distinct(a) && Distinct(b) && forall i, j :: 0 <= i < |a| && 0 <= j < |b| ==> a[i] != b[j]
  {
    var all := a + b;
    if Distinct(all) {
      forall i, j | 0 <= i < |a| && 0 <= j < |b| ensures a[i] != b[j] {
        assert all[i] == a[i] && all[|a| + j] == b[j];
      }
      forall i, j | 0 <= i < j < |a| ensures a[i] != a[j] {
        assert all[i] == a[i] && all[j] == a[j];
      }
      forall i, j | 0 <= i < j < |b| ensures b[i] != b[j] {
        assert all[|a| + i] == b[i] && all[|a| + j] == b[j];
      }
    }
  }

  lemma TypeNamesDistinct(interface: Interface, inCrate: bool)
    requires DistinctProcedures(interface.events) && DistinctProcedures(interface.requests)
    ensures Distinct(TypeNames(Generated(interface, inCrate)))
  {
    hide DistinctProcedures, StructOf, Structs;
    var code, name := Generated(interface, inCrate), VersionedName(interface);
    var structs, fixed := Structs(code), [code.handlerTrait, code.proxyStruct];
    LastCharacter(name, "_event_handler");
    LastCharacter(name, "_request_proxy");
    DistinctConcat(fixed, StructNames(structs));
    forall i, j | 0 <= i < j < |structs| ensures StructNames(structs)[i] != StructNames(structs)[j] {
      StructsDiffer(interface, inCrate, i, j);
    }
    forall j | 0 <= j < |structs| ensures fixed[0] != StructNames(structs)[j] && fixed[1] != StructNames(structs)[j] {
      LastOfStruct(interface, inCrate, j);
    }
  }

  lemma StructAt(interface: Interface, inCrate: bool, i: nat) returns (p: Procedure, kind: string, n: nat)
    requires i < |interface.requests| + |interface.events|
    ensures Structs(Generated(interface, inCrate))[i] == StructOf(VersionedName(interface), kind, p, n)
    ensures if i < |interface.requests| then kind == REQUEST && n == i && p == interface.requests[n]
            else kind == EVENT && n == i - |interface.requests| && p == interface.events[n]
  {
    n := if i < |interface.requests| then i else i - |interface.requests|;
    kind := if i < |interface.requests| then REQUEST else EVENT;
    p := if i < |interface.requests| then interface.requests[n] else interface.events[n];
  }

  lemma Prefixed(prefix: string, a: string, b: string)
    ensures prefix + a == prefix + b <==> a == b
  {
    assert (prefix + a)[|prefix|..] == a && (prefix + b)[|prefix|..] == b;
  }

  function AllPrefixed(prefix: string, names: seq<string>): (all: seq<string>)
    ensures |all| == |names|
  {
    seq(|names|, i requires 0 <= i < |names| => prefix + names[i])
  }

  /** Prefixed names are distinct where the names are. */
  lemma PrefixedDistinct(prefix: string, names: seq<string>)
    ensures Distinct(AllPrefixed(prefix, names)) <==> Distinct(names)
  {
    var all := AllPrefixed(prefix, names);
    forall i, j | 0 <= i < j < |names| ensures all[i] == all[j] <==> names[i] == names[j] {
      Prefixed(prefix, names[i], names[j]);
    }
  }

  /** The trait's method names are distinct exactly when the events' names are and none of them is "event". */
  lemma TraitMethodsExact(interface: Interface, inCrate: bool)
    ensures Distinct(TraitMethods(Generated(interface, inCrate))) <==>
            && DistinctProcedures(interface.events)
            && (forall i :: 0 <= i < |interface.events| ==> interface.events[i].name != "event")
  {
    var names, fixed := ProcedureNames(interface.events), ["unknown_event", "handle_event"];
    var methods := AllPrefixed("handle_", names);
    assert TraitMethods(Generated(interface, inCrate)) == fixed + methods;
    hide Distinct;
    DistinctConcat(fixed, methods);
    PrefixedDistinct("handle_", names);
    FixedMethods();
    forall j | 0 <= j < |methods|
      ensures fixed[0] != methods[j]
      ensures fixed[1] == methods[j] <==> interface.events[j].name == "event"
    {
      Prefixed("handle_", names[j], "event");
      assert methods[j][0] == 'h';
    }
  }

  lemma FixedMethods()
    ensures Distinct(["unknown_event", "handle_event"]) && Distinct(["new"])
    ensures "handle_event" == "handle_" + "event"
  {
    assert "unknown_event"[0] != "handle_event"[0];
  }

  lemma ProxyMethodsExact(interface: Interface, inCrate: bool)
    ensures Distinct(ProxyMethods(Generated(interface, inCrate))) <==> DistinctProcedures(interface.requests)
  {
    var names, fixed := ProcedureNames(interface.requests), ["new"];
    var methods := AllPrefixed("send_", names);
    assert ProxyMethods(Generated(interface, inCrate)) == fixed + methods;
    hide Distinct;
    DistinctConcat(fixed, methods);
    PrefixedDistinct("send_", names);
    FixedMethods();
    forall j | 0 <= j < |methods| ensures fixed[0] != methods[j] {
      assert methods[j][0] == 's';
    }
  }

  // ---------- the module ----------

  predicate AllCompile(structs: seq<ArgStruct>)
  {
    forall i :: 0 <= i < |structs| ==> StructCompiles(structs[i])
  }

  lemma AllCompileConcat(a: seq<ArgStruct>, b: seq<ArgStruct>)
    ensures AllCompile(a + b) <==> AllCompile(a) && AllCompile(b)
  {
    hide StructCompiles;
    if AllCompile(a + b) {
      forall i | 0 <= i < |a| ensures StructCompiles(a[i]) {
        assert (a + b)[i] == a[i];
      }
      forall i | 0 <= i < |b| ensures StructCompiles(b[i]) {
        assert (a + b)[|a| + i] == b[i];
      }
    }
  }

  predicate AllHygienicStructs(ps: seq<Procedure>)
  {
    forall i :: 0 <= i < |ps| ==> HygienicStruct(Names(ps[i].args))
  }

  lemma StructsExact(name: string, kind: string, ps: seq<Procedure>, structs: seq<ArgStruct>)
    requires |structs| == |ps| && forall i :: 0 <= i < |ps| ==> structs[i] == StructOf(name, kind, ps[i], i)
    ensures AllCompile(structs) <==> |ps| <= MAX_PROCEDURES && AllHygienicStructs(ps)
  {
    hide StructCompiles, HygienicStruct, StructOf;
    forall i | 0 <= i < |ps|
      ensures StructCompiles(structs[i]) <==> i <= 0xFFFF && HygienicStruct(Names(ps[i].args))
    {
      StructExact(name, kind, ps[i], i);
    }
    if AllCompile(structs) {
      assert ps != [] ==> StructCompiles(structs[|ps| - 1]);
      forall i | 0 <= i < |ps| ensures HygienicStruct(Names(ps[i].args)) {
        assert StructCompiles(structs[i]);
      }
    }
  }

  lemma AllStructsExact(interface: Interface, inCrate: bool)
    ensures AllCompile(Structs(Generated(interface, inCrate))) <==>
            && |interface.events| <= MAX_PROCEDURES && |interface.requests| <= MAX_PROCEDURES
            && AllHygienicStructs(interface.events) && AllHygienicStructs(interface.requests)
  {
    hide AllCompile, AllHygienicStructs, StructOf;
    var code, name := Generated(interface, inCrate), VersionedName(interface);
    AllCompileConcat(code.requestStructs, code.eventStructs);
    StructsExact(name, REQUEST, interface.requests, code.requestStructs);
    StructsExact(name, EVENT, interface.events, code.eventStructs);
  }

  /** The emitted module compiles if and only if the interface description is hygienic and, where there are
      argument structs, the module is for the library's own crate. */
  lemma CompilesExact(interface: Interface, inCrate: bool)
    ensures Compiles(Generated(interface, inCrate)) <==> Emittable(interface, inCrate)
  {
    hide StructCompiles, ProxyCompiles, ArmCompiles, Distinct, DistinctProcedures, Bindable, HygienicStruct;
    var code := Generated(interface, inCrate);
    TraitMethodsExact(interface, inCrate);
    ProxyMethodsExact(interface, inCrate);
    AllStructsExact(interface, inCrate);
    if DistinctProcedures(interface.events) && DistinctProcedures(interface.requests) {
      TypeNamesDistinct(interface, inCrate);
    }
    forall i | 0 <= i < |interface.events|
      ensures ArmCompiles(code.prototypes, code.arms[i]) && PrototypeCompiles(code.prototypes[i])
              && HygienicStruct(Names(interface.events[i].args)) && i <= 0xFFFF
              <==> HygienicEvent(Names(interface.events[i].args)) && i <= 0xFFFF
    {
      EventExact(code.prototypes, interface.events[i], i);
    }
    forall i | 0 <= i < |interface.requests|
      ensures ProxyCompiles(code.proxies[i]) && HygienicStruct(Names(interface.requests[i].args)) && i <= 0xFFFF
              <==> HygienicRequest(Names(interface.requests[i].args)) && i <= 0xFFFF
    {
      RequestExact(interface.requests[i], i);
    }
  }

  lemma EventExact(handlers: seq<Prototype>, event: Procedure, i: nat)
    requires i < |handlers| && handlers[i] == PrototypeOf(event)
    ensures ArmCompiles(handlers, ArmOf(event, i)) && PrototypeCompiles(handlers[i])
            && HygienicStruct(Names(event.args)) && i <= 0xFFFF
            <==> HygienicEvent(Names(event.args)) && i <= 0xFFFF
  {
    hide ArmCompiles;
    if HygienicStruct(Names(event.args)) {
      ArmExact(handlers, event, i);
    }
  }

  lemma RequestExact(req: Procedure, i: nat)
    ensures ProxyCompiles(ProxyOf(req, i)) && HygienicStruct(Names(req.args)) && i <= 0xFFFF
            <==> HygienicRequest(Names(req.args)) && i <= 0xFFFF
  {
    hide ProxyCompiles;
    ProxyExact(req, i);
  }

  // ---------- what compiles never gets stuck ----------

  function TypeOfSlot(s: Slot): SlotType
  {
    match s
    case Data(v) => DataType(TypeOf(v))
    case OpenedReader(_, _) => ReaderType
    case PacketSlot(_) => PacketType
    case ConnectionSlot => ConnectionType
  }

  /** The scope holds what the types say. */
  predicate Holds(scope: Scope, types: Types)
  {
    forall x :: x in types ==> x in scope && TypeOfSlot(scope[x]) == types[x]
  }

  predicate HasFields(self: Self, fields: seq<Declared>)
  {
    forall i :: 0 <= i < |fields| ==>
      fields[i].name in self.fields && TypeOf(self.fields[fields[i].name]) == fields[i].valueType
  }

  lemma DecodedType(t: Target, f: ReadFn, m: Message, c: Cursor)
    ensures Decode(t, f, m, c).Got? ==> TypeOf(Decode(t, f, m, c).value) == ResultType(f)
  {
    hide DecodeWord, DecodeStr, DecodeBlock;
  }

  /** A statement that type-checks is executed, and leaves the scope as the types say. */
  lemma CheckedExecutes(t: Target, self: Self, c: Context, s: Stmt, scope: Scope, types: Types)
    requires Check(c, s, types).Some? && Holds(scope, types) && HasFields(self, c.fields)
    ensures match Execute(t, self, s, scope)
            case Stop(ending) => ending != Stuck && ending != DoesNotCompile
            case Continue(next) => !Ends(s) && Holds(next, Check(c, s, types).value)
  {
    hide Decode, Encode, Encodable, Finished;
    match s
    case LetRead(name, reader, read) =>
      assert TypeOfSlot(scope[reader]) == ReaderType;
      DecodedType(t, read, scope[reader].source, scope[reader].cursor);
    case CallHandler(handler, connection, packet, args) =>
      forall i | 0 <= i < |args| ensures args[i] in scope && scope[args[i]].Data? {
        assert TypeOfSlot(scope[args[i]]).DataType?;
      }
      assert TypeOfSlot(scope[connection]) == ConnectionType && TypeOfSlot(scope[packet]) == PacketType;
    case MakeStruct(names) =>
      forall i | 0 <= i < |names| ensures names[i] in scope && scope[names[i]].Data? {
        assert TypeOfSlot(scope[names[i]]).DataType?;
      }
    case Push(packet, push, borrow, operand) =>
      assert TypeOfSlot(scope[packet]) == PacketType;
      OperandThere(self, c, scope, types, operand, Taken(push));
    case OpenReader(_, packet) => assert TypeOfSlot(scope[packet]) == PacketType;
    case Finish(reader) => assert TypeOfSlot(scope[reader]) == ReaderType;
    case NewPacket(_, _) =>
    case UpgradeConnection(_) =>
    case SendPacket(connection, packet) =>
      assert TypeOfSlot(scope[connection]) == ConnectionType && TypeOfSlot(scope[packet]) == PacketType;
    case ReturnPacket(packet) => assert TypeOfSlot(scope[packet]) == PacketType;
  }

  lemma OperandThere(self: Self, c: Context, scope: Scope, types: Types, operand: Operand, ty: ValueType)
    requires Holds(scope, types) && HasFields(self, c.fields) && OperandHas(types, c.fields, operand, ty)
    ensures OperandValue(self, scope, operand).Some? && TypeOf(OperandValue(self, scope, operand).value) == ty
  {
    match operand
    case Variable(x) => assert TypeOfSlot(scope[x]) == DataType(ty);
    case Field(x) =>
      var i :| 0 <= i < |c.fields| && c.fields[i] == Declared(x, ty);
  }

  /** A body that type-checks, whatever it is, runs to a proper end. */
  lemma {:induction false} CheckedNeverStuck(t: Target, self: Self, c: Context, body: seq<Stmt>, scope: Scope,
      types: Types)
    requires BodyChecks(c, body, types) && Holds(scope, types) && HasFields(self, c.fields)
    ensures Run(t, self, body, scope) != Stuck && Run(t, self, body, scope) != DoesNotCompile
    decreases |body|
  {
    hide Check, Execute, Holds, HasFields, Ends;
    CheckedExecutes(t, self, c, body[0], scope, types);
    if Execute(t, self, body[0], scope).Continue? {
      CheckedNeverStuck(t, self, c, body[1..], Execute(t, self, body[0], scope).scope, Check(c, body[0], types).value);
    }
  }

  predicate AllTyped(ds: seq<Declared>, vs: seq<Value>)
  {
    |vs| == |ds| && forall i :: 0 <= i < |ds| ==> TypeOf(vs[i]) == ds[i].valueType
  }

  lemma {:induction false} ArmNeverStuck(t: Target, code: Code, arms: seq<Arm>, m: Message)
    requires forall i :: 0 <= i < |arms| ==> ArmCompiles(code.prototypes, arms[i])
    ensures match FirstArm(arms, m.opcode)
            case None => true
            case Some(body) =>
              && Run(t, NO_SELF, body, ArmScope(m)) != Stuck
              && Run(t, NO_SELF, body, ArmScope(m)) != DoesNotCompile
  {
    hide BodyChecks, Run;
    if arms != [] {
      if arms[0].opcode == m.opcode {
        CheckedNeverStuck(t, NO_SELF, Context([], [], code.prototypes), arms[0].body, ArmScope(m), ARM_TYPES);
      } else {
        ArmNeverStuck(t, code, arms[1..], m);
      }
    }
  }

  lemma BoundHolds(params: seq<Declared>, vs: seq<Value>)
    requires AllTyped(params, vs)
    ensures Holds(Bind(params, vs), ParameterTypes(params))
  {
  }

  lemma FieldsHeld(objectId: ObjectId, fields: seq<Declared>, vs: seq<Value>)
    requires AllTyped(fields, vs) && Distinct(DeclaredNames(fields))
    ensures HasFields(Self(objectId, FieldValues(fields, vs), true), fields)
  {
    var names := DeclaredNames(fields);
    forall i | 0 <= i < |fields| ensures IndexOf(names, names[i]) == i {
    }
    assert forall i :: 0 <= i < |fields| ==> names[i] == fields[i].name;
  }

  /** Any module that compiles, emitted by this generator or not, runs to a proper end whichever of its
      functions is called, with whatever packet or well-typed values. */
  lemma CompiledNeverStuck(t: Target, code: Code, m: Message, i: nat, objectId: ObjectId, connected: bool,
      vs: seq<Value>)
    requires Compiles(code)
    ensures code.arms != [] ==> HandleEvent(t, code, m) != Stuck && HandleEvent(t, code, m) != DoesNotCompile
    ensures i < |code.proxies| && AllTyped(code.proxies[i].params, vs) ==>
            CallProxy(t, code, i, objectId, connected, vs) != Stuck
    ensures i < |Structs(code)| ==> TryFromPacket(t, code, i, m) != Stuck
    ensures i < |Structs(code)| && AllTyped(Structs(code)[i].fields, vs) ==>
            TryIntoPacket(t, code, i, objectId, vs) != Stuck
  {
    hide Run, BodyChecks, FirstArm, Bind, FieldValues, ParameterTypes, Distinct;
    ArmNeverStuck(t, code, code.arms, m);
    if i < |code.proxies| && AllTyped(code.proxies[i].params, vs) {
      var proxy := code.proxies[i];
      assert ProxyCompiles(proxy);
      BoundHolds(proxy.params, vs);
      CheckedNeverStuck(t, Self(objectId, map[], connected), Context([], [], []), proxy.body, Bind(proxy.params, vs),
                        ParameterTypes(proxy.params));
    }
    if i < |Structs(code)| {
      var s := Structs(code)[i];
      assert StructCompiles(s);
      StructNeverStuck(t, s, m, objectId, vs);
    }
  }

  lemma StructNeverStuck(t: Target, s: ArgStruct, m: Message, objectId: ObjectId, vs: seq<Value>)
    requires StructCompiles(s)
    ensures Run(t, NO_SELF, s.fromPacket, map[STRUCT_VALUE := PacketSlot(m)]) != Stuck
    ensures AllTyped(s.fields, vs) ==>
            Run(t, Self(objectId, FieldValues(s.fields, vs), true), s.intoPacket, map[]) != Stuck
  {
    hide Run, BodyChecks, FieldValues, Distinct;
    CheckedNeverStuck(t, NO_SELF, Context([], s.fields, []), s.fromPacket, map[STRUCT_VALUE := PacketSlot(m)],
                      STRUCT_TYPES);
    if AllTyped(s.fields, vs) {
      FieldsHeld(objectId, s.fields, vs);
      CheckedNeverStuck(t, Self(objectId, FieldValues(s.fields, vs), true), Context(s.fields, [], []), s.intoPacket,
                        map[], map[]);
    }
  }

  // ---------- what compiles is well typed ----------

  /** A handler is called by the name and with the types of a prototype, and a struct gets its fields' types. */
  ghost predicate WellTyped(c: Context, r: Ending)
  {
    match r
    case Called(handler, vs, _) => exists p :: p in c.handlers && p.name == handler && AllTyped(p.params, vs)
    case Structure(vs) => AllTyped(c.made, vs)
    case _ => true
  }

  lemma DataTyped(scope: Scope, types: Types, names: seq<string>, ds: seq<Declared>)
    requires Holds(scope, types) && Conform(types, names, ds)
    ensures AllData(scope, names) && AllTyped(ds, DataOf(scope, names))
  {
    forall i | 0 <= i < |names| ensures names[i] in scope && TypeOfSlot(scope[names[i]]) == DataType(ds[i].valueType) {
    }
  }

  lemma StopsWellTyped(t: Target, self: Self, c: Context, s: Stmt, scope: Scope, types: Types)
    requires Check(c, s, types).Some? && Holds(scope, types) && HasFields(self, c.fields)
    requires Execute(t, self, s, scope).Stop?
    ensures WellTyped(c, Execute(t, self, s, scope).ending)
  {
    hide Decode, Encode, Encodable, Finished, Holds, HasFields, Conform;
    match s
    case CallHandler(handler, connection, packet, args) =>
      var p :| p in c.handlers && p.name == handler && Conform(types, args, p.params);
      DataTyped(scope, types, args, p.params);
    case MakeStruct(names) => DataTyped(scope, types, names, c.made);
    case _ =>
  }

  lemma {:induction false} RunsWellTyped(t: Target, self: Self, c: Context, body: seq<Stmt>, scope: Scope,
      types: Types)
    requires BodyChecks(c, body, types) && Holds(scope, types) && HasFields(self, c.fields)
    ensures WellTyped(c, Run(t, self, body, scope))
    decreases |body|
  {
    hide Check, Execute, Holds, HasFields, Ends, WellTyped;
    CheckedExecutes(t, self, c, body[0], scope, types);
    if Execute(t, self, body[0], scope).Continue? {
      RunsWellTyped(t, self, c, body[1..], Execute(t, self, body[0], scope).scope, Check(c, body[0], types).value);
    } else {
      StopsWellTyped(t, self, c, body[0], scope, types);
    }
  }

  lemma {:induction false} ArmsWellTyped(t: Target, code: Code, arms: seq<Arm>, m: Message)
    requires forall i :: 0 <= i < |arms| ==> ArmCompiles(code.prototypes, arms[i])
    ensures FirstArm(arms, m.opcode).Some? ==>
            WellTyped(Context([], [], code.prototypes), Run(t, NO_SELF, FirstArm(arms, m.opcode).value, ArmScope(m)))
  {
    hide BodyChecks, Run, WellTyped;
    if arms != [] {
      if arms[0].opcode == m.opcode {
        RunsWellTyped(t, NO_SELF, Context([], [], code.prototypes), arms[0].body, ArmScope(m), ARM_TYPES);
      } else {
        ArmsWellTyped(t, code, arms[1..], m);
      }
    }
  }

  /** In any module that compiles, emitted by this generator or not, whatever packet arrives: a handler that is called
      is declared and gets values of the types it declares, and a struct that is read has fields of their types. */
  lemma CompiledWellTyped(t: Target, code: Code, m: Message, i: nat)
    requires Compiles(code)
    ensures code.arms != [] && HandleEvent(t, code, m).Called? ==>
            exists p :: p in code.prototypes && p.name == HandleEvent(t, code, m).handler
                        && AllTyped(p.params, HandleEvent(t, code, m).args)
    ensures i < |Structs(code)| && TryFromPacket(t, code, i, m).Structure? ==>
            AllTyped(Structs(code)[i].fields, TryFromPacket(t, code, i, m).fields)
  {
    hide Run, BodyChecks, FirstArm, Distinct, AllTyped;
    ArmsWellTyped(t, code, code.arms, m);
    if i < |Structs(code)| {
      var s := Structs(code)[i];
      assert StructCompiles(s);
      RunsWellTyped(t, NO_SELF, Context([], s.fields, []), s.fromPacket, map[STRUCT_VALUE := PacketSlot(m)],
                    STRUCT_TYPES);
    }
  }
}
