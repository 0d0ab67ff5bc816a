/** The names that the generator makes up, and the generator held against code that it has written: the modules
    shipped with the library. */
module Published {
  import opened Base
  import opened Codec
  import opened Codegen

  // ---------- names ----------

  /** What a string of decimal digits stands for. */
  function Weight(s: string): int
  {
    if s == "" then 0 else 10 * Weight(s[..|s| - 1]) + (s[|s| - 1] as int - '0' as int)
  }

  /** The decimal form of a number: digits, the number's weight, and no leading zero. */
  lemma {:induction false} DecimalExact(n: nat)
    ensures var s := Decimal(n);
            && s != "" && Weight(s) == n
            && (forall i :: 0 <= i < |s| ==> '0' <= s[i] <= '9')
            && (|s| > 1 ==> s[0] != '0')
  {
    if n >= 10 {
      DecimalExact(n / 10);
      var front, s := Decimal(n / 10), Decimal(n);
      assert s[..|s| - 1] == front;
      assert s[0] == front[0];
      assert |front| == 1 ==> front[..|front| - 1] == "";
    } else {
      assert Decimal(n)[..0] == "";
    }
  }

  /** Name and version can be told from the versioned name: two interfaces share one only if they share both. */
  lemma VersionedNameInjective(a: Interface, b: Interface)
    ensures VersionedName(a) == VersionedName(b) <==> a.name == b.name && a.version == b.version
  {
    if VersionedName(a) == VersionedName(b) {
      DecimalExact(a.version);
      DecimalExact(b.version);
      var s, m, n := VersionedName(a), |Decimal(a.version)|, |Decimal(b.version)|;
      hide Decimal, Weight;
      LastV(a);
      LastV(b);
      assert !(|s| - n <= |s| - 1 - m) && !(|s| - m <= |s| - 1 - n);
      assert s[|s| - m..] == Decimal(a.version) == Decimal(b.version);
      assert s[..|s| - m - 2] == a.name == b.name;
    }
  }

  lemma LastV(a: Interface)
    ensures var s, n := VersionedName(a), |Decimal(a.version)|;
            && |s| == |a.name| + 2 + n && s[|s| - 1 - n] == 'v'
            && s[..|a.name|] == a.name && s[|s| - n..] == Decimal(a.version)
            && forall i :: |s| - n <= i < |s| ==> s[i] != 'v'
  {
    DecimalExact(a.version);
    hide Decimal;
    var s, digits := VersionedName(a), Decimal(a.version);
    assert forall i :: |s| - |digits| <= i < |s| ==> s[i] == digits[i - (|s| - |digits|)];
  }

  // ---------- the shipped modules ----------

  /** `wl_display`, version 1. */
  const SYNC := Procedure("sync", [Arg("callback", NewId, Some("wl_callback"))])

  const GET_REGISTRY := Procedure("get_registry", [Arg("registry", NewId, Some("wl_registry"))])

  const ERROR := Procedure("error",
    [Arg("object_id", Object, None), Arg("code", Uint, None), Arg("message", String, None)])

  const DELETE_ID := Procedure("delete_id", [Arg("id", Uint, None)])

  const WL_DISPLAY := Interface("wl_display", 1, [SYNC, GET_REGISTRY], [ERROR, DELETE_ID])

  const WL_DISPLAY_PROTOTYPES := [
    Prototype("handle_error",
              [Declared("object_id", OptionalObjectId), Declared("code", U32), Declared("message", Text)]),
    Prototype("handle_delete_id", [Declared("id", U32)])]

  const WL_DISPLAY_ARMS := [
    Arm(0, [OpenReader("__packet_reader", "__packet"),
            LetRead("object_id", "__packet_reader", ReadObject),
            LetRead("code", "__packet_reader", ReadUint),
            LetRead("message", "__packet_reader", ReadStr),
            Finish("__packet_reader"),
            CallHandler("handle_error", "__connection", "__packet", ["object_id", "code", "message"])]),
    Arm(1, [OpenReader("__packet_reader", "__packet"),
            LetRead("id", "__packet_reader", ReadUint),
            Finish("__packet_reader"),
            CallHandler("handle_delete_id", "__connection", "__packet", ["id"])])]

  const WL_DISPLAY_PROXIES := [
    Proxy("send_sync", [Declared("callback", NewObjectId)],
          [NewPacket("__packet", 0), UpgradeConnection("connection"),
           Push("__packet", PushNewIdKnownInterface, false, Variable("callback")),
           SendPacket("connection", "__packet")]),
    Proxy("send_get_registry", [Declared("registry", NewObjectId)],
          [NewPacket("__packet", 1), UpgradeConnection("connection"),
           Push("__packet", PushNewIdKnownInterface, false, Variable("registry")),
           SendPacket("connection", "__packet")])]

  const SYNC_STRUCT := ArgStruct("wl_display_v1_request_sync_args", [Declared("callback", NewObjectId)],
    [OpenReader("__reader", "__value"), LetRead("callback", "__reader", ReadNewIdKnownInterface), Finish("__reader"),
     MakeStruct(["callback"])],
    [NewPacket("__packet", 0), Push("__packet", PushNewIdKnownInterface, false, Field("callback")),
     ReturnPacket("__packet")])

  const GET_REGISTRY_STRUCT := ArgStruct("wl_display_v1_request_get_registry_args",
    [Declared("registry", NewObjectId)],
    [OpenReader("__reader", "__value"), LetRead("registry", "__reader", ReadNewIdKnownInterface), Finish("__reader"),
     MakeStruct(["registry"])],
    [NewPacket("__packet", 1), Push("__packet", PushNewIdKnownInterface, false, Field("registry")),
     ReturnPacket("__packet")])

  const ERROR_STRUCT := ArgStruct("wl_display_v1_event_error_args",
    [Declared("object_id", OptionalObjectId), Declared("code", U32), Declared("message", Text)],
    [OpenReader("__reader", "__value"), LetRead("object_id", "__reader", ReadObject),
     LetRead("code", "__reader", ReadUint), LetRead("message", "__reader", ReadStr), Finish("__reader"),
     MakeStruct(["object_id", "code", "message"])],
    [NewPacket("__packet", 0), Push("__packet", PushObject, false, Field("object_id")),
     Push("__packet", PushUint, false, Field("code")), Push("__packet", PushStr, true, Field("message")),
     ReturnPacket("__packet")])

  const DELETE_ID_STRUCT := ArgStruct("wl_display_v1_event_delete_id_args", [Declared("id", U32)],
    [OpenReader("__reader", "__value"), LetRead("id", "__reader", ReadUint), Finish("__reader"), MakeStruct(["id"])],
    [NewPacket("__packet", 1), Push("__packet", PushUint, false, Field("id")), ReturnPacket("__packet")])

  // ---------- unrolling the emitted code of short argument lists ----------

  function DeclaredOf(a: Arg): Declared
  {
    Declared(a.name, IncomingType(a.argType, a.interface.Some?))
  }

  function ReadOf(a: Arg, reader: string): Stmt
  {
    LetRead(a.name, reader, ReadFunc(a.argType, a.interface.Some?))
  }

  function WriteOf(a: Arg, operand: Operand): Stmt
  {
    Push("__packet", WriteFunc(a.argType, a.interface.Some?), WriteReference(a.argType, a.interface.Some?), operand)
  }

  lemma OneArg(a: Arg, reader: string)
    ensures Names([a]) == [a.name] && Declarations([a]) == [DeclaredOf(a)] && Reads([a], reader) == [ReadOf(a, reader)]
    ensures Writes([a], true) == [WriteOf(a, Field(a.name))] && Writes([a], false) == [WriteOf(a, Variable(a.name))]
  {
  }

  lemma TwoArgs(a: Arg, b: Arg, reader: string)
    ensures Names([a, b]) == [a.name, b.name] && Declarations([a, b]) == [DeclaredOf(a), DeclaredOf(b)]
    ensures Reads([a, b], reader) == [ReadOf(a, reader), ReadOf(b, reader)]
    ensures Writes([a, b], true) == [WriteOf(a, Field(a.name)), WriteOf(b, Field(b.name))]
  {
  }

  lemma ThreeArgs(a: Arg, b: Arg, c: Arg, reader: string)
    ensures Names([a, b, c]) == [a.name, b.name, c.name]
    ensures Declarations([a, b, c]) == [DeclaredOf(a), DeclaredOf(b), DeclaredOf(c)]
    ensures Reads([a, b, c], reader) == [ReadOf(a, reader), ReadOf(b, reader), ReadOf(c, reader)]
    ensures Writes([a, b, c], true) ==
            [WriteOf(a, Field(a.name)), WriteOf(b, Field(b.name)), WriteOf(c, Field(c.name))]
  {
  }

  lemma ArmOfOne(name: string, a: Arg, i: nat)
    ensures ArmOf(Procedure(name, [a]), i) ==
            Arm(i, [OpenReader("__packet_reader", "__packet"), ReadOf(a, "__packet_reader"), Finish("__packet_reader"),
                    CallHandler("handle_" + name, "__connection", "__packet", [a.name])])
  {
    OneArg(a, "__packet_reader");
    hide Names, Reads, ReadOf;
  }

  lemma ArmOfThree(name: string, a: Arg, b: Arg, c: Arg, i: nat)
    ensures ArmOf(Procedure(name, [a, b, c]), i) ==
            Arm(i, [OpenReader("__packet_reader", "__packet"), ReadOf(a, "__packet_reader"),
                    ReadOf(b, "__packet_reader"), ReadOf(c, "__packet_reader"), Finish("__packet_reader"),
                    CallHandler("handle_" + name, "__connection", "__packet", [a.name, b.name, c.name])])
  {
    ThreeArgs(a, b, c, "__packet_reader");
    hide Names, Reads, ReadOf;
  }

  lemma ProxyOfOne(name: string, a: Arg, i: nat)
    ensures ProxyOf(Procedure(name, [a]), i) ==
            Proxy("send_" + name, [DeclaredOf(a)],
                  [NewPacket("__packet", i), UpgradeConnection("connection"), WriteOf(a, Variable(a.name)),
                   SendPacket("connection", "__packet")])
  {
    OneArg(a, "");
    hide Declarations, Writes, WriteOf, DeclaredOf;
  }

  /** The parts of a struct whose arguments are declared, read and written by these. */
  function StructParts(name: string, names: seq<string>, declared: seq<Declared>, decoders: seq<Stmt>,
      pushes: seq<Stmt>, i: nat): ArgStruct
  {
    ArgStruct(name, declared, [OpenReader("__reader", "__value")] + decoders + [Finish("__reader"), MakeStruct(names)],
              [NewPacket("__packet", i)] + pushes + [ReturnPacket("__packet")])
  }

  lemma StructOfOne(prefix: string, kind: string, name: string, a: Arg, i: nat)
    ensures StructOf(prefix, kind, Procedure(name, [a]), i) ==
            StructParts(prefix + "_" + kind + "_" + name + "_args", [a.name], [DeclaredOf(a)],
                        [ReadOf(a, "__reader")], [WriteOf(a, Field(a.name))], i)
  {
    OneArg(a, "__reader");
    hide Names, Declarations, Reads, Writes, ReadOf, WriteOf, DeclaredOf;
  }

  lemma StructOfTwo(prefix: string, kind: string, name: string, a: Arg, b: Arg, i: nat)
    ensures StructOf(prefix, kind, Procedure(name, [a, b]), i) ==
            StructParts(prefix + "_" + kind + "_" + name + "_args", [a.name, b.name], [DeclaredOf(a), DeclaredOf(b)],
                        [ReadOf(a, "__reader"), ReadOf(b, "__reader")],
                        [WriteOf(a, Field(a.name)), WriteOf(b, Field(b.name))], i)
  {
    TwoArgs(a, b, "__reader");
    hide Names, Declarations, Reads, Writes, ReadOf, WriteOf, DeclaredOf;
  }

  lemma StructOfThree(prefix: string, kind: string, name: string, a: Arg, b: Arg, c: Arg, i: nat)
    ensures StructOf(prefix, kind, Procedure(name, [a, b, c]), i) ==
            StructParts(prefix + "_" + kind + "_" + name + "_args", [a.name, b.name, c.name],
                        [DeclaredOf(a), DeclaredOf(b), DeclaredOf(c)],
                        [ReadOf(a, "__reader"), ReadOf(b, "__reader"), ReadOf(c, "__reader")],
                        [WriteOf(a, Field(a.name)), WriteOf(b, Field(b.name)), WriteOf(c, Field(c.name))], i)
  {
    ThreeArgs(a, b, c, "__reader");
    hide Names, Declarations, Reads, Writes, ReadOf, WriteOf, DeclaredOf;
  }

  // ---------- as shipped ----------

  lemma DisplayEventsAreAsShipped()
    ensures [PrototypeOf(ERROR), PrototypeOf(DELETE_ID)] == WL_DISPLAY_PROTOTYPES
    ensures [ArmOf(ERROR, 0), ArmOf(DELETE_ID, 1)] == WL_DISPLAY_ARMS
  {
    var a, b, c := Arg("object_id", Object, None), Arg("code", Uint, None), Arg("message", String, None);
    var id := Arg("id", Uint, None);
    ThreeArgs(a, b, c, "");
    OneArg(id, "");
    ArmOfThree("error", a, b, c, 0);
    ArmOfOne("delete_id", id, 1);
    assert "handle_" + "error" == "handle_error" && "handle_" + "delete_id" == "handle_delete_id";
    hide ArmOf, Declarations, Names, Reads, Writes;
  }

  lemma SyncProxyIsAsShipped()
    ensures ProxyOf(SYNC, 0) == WL_DISPLAY_PROXIES[0]
  {
    hide ProxyOf;
    ProxyOfOne("sync", Arg("callback", NewId, Some("wl_callback")), 0);
    assert "send_" + "sync" == "send_sync";
  }

  lemma GetRegistryProxyIsAsShipped()
    ensures ProxyOf(GET_REGISTRY, 1) == WL_DISPLAY_PROXIES[1]
  {
    hide ProxyOf;
    ProxyOfOne("get_registry", Arg("registry", NewId, Some("wl_registry")), 1);
    assert "send_" + "get_registry" == "send_get_registry";
  }

  lemma SyncStructIsAsShipped()
    ensures StructOf("wl_display_v1", REQUEST, SYNC, 0) == SYNC_STRUCT
  {
    hide StructOf;
    StructOfOne("wl_display_v1", REQUEST, "sync", Arg("callback", NewId, Some("wl_callback")), 0);
    assert "wl_display_v1" + "_" + REQUEST + "_" + "sync" + "_args" == "wl_display_v1_request_sync_args";
  }

  lemma GetRegistryStructName()
    ensures "wl_display_v1" + "_" + REQUEST + "_" + "get_registry" + "_args"
         == "wl_display_v1_request_get_registry_args"
  {
  }

  lemma DeleteIdStructName()
    ensures "wl_display_v1" + "_" + EVENT + "_" + "delete_id" + "_args" == "wl_display_v1_event_delete_id_args"
  {
  }

  lemma GetRegistryStructIsAsShipped()
    ensures StructOf("wl_display_v1", REQUEST, GET_REGISTRY, 1) == GET_REGISTRY_STRUCT
  {
    hide StructOf;
    StructOfOne("wl_display_v1", REQUEST, "get_registry", Arg("registry", NewId, Some("wl_registry")), 1);
    GetRegistryStructName();
  }

  lemma DeleteIdStructIsAsShipped()
    ensures StructOf("wl_display_v1", EVENT, DELETE_ID, 1) == DELETE_ID_STRUCT
  {
    hide StructOf;
    StructOfOne("wl_display_v1", EVENT, "delete_id", Arg("id", Uint, None), 1);
    DeleteIdStructName();
  }

  lemma ErrorStructIsAsShipped()
    ensures StructOf("wl_display_v1", EVENT, ERROR, 0) == ERROR_STRUCT
  {
    hide StructOf;
    StructOfThree("wl_display_v1", EVENT, "error", Arg("object_id", Object, None), Arg("code", Uint, None),
                  Arg("message", String, None), 0);
    assert "wl_display_v1" + "_" + EVENT + "_" + "error" + "_args" == "wl_display_v1_event_error_args";
  }

  lemma DisplayName()
    ensures VersionedName(WL_DISPLAY) == "wl_display_v1"
    ensures "wl_display_v1" + "_event_handler" == "wl_display_v1_event_handler"
    ensures "wl_display_v1" + "_request_proxy" == "wl_display_v1_request_proxy"
  {
    assert Decimal(1) == "1";
  }

  lemma PairOf<T>(s: seq<T>, a: T, b: T)
    requires |s| == 2 && s[0] == a && s[1] == b
    ensures s == [a, b]
  {
  }

  /** For `wl_display` the generator emits the module that the library ships. */
  lemma DisplayIsAsShipped()
    ensures Generated(WL_DISPLAY, true) ==
            Code(true, "wl_display_v1_event_handler", WL_DISPLAY_PROTOTYPES, WL_DISPLAY_ARMS,
                 "wl_display_v1_request_proxy", WL_DISPLAY_PROXIES,
                 [SYNC_STRUCT, GET_REGISTRY_STRUCT], [ERROR_STRUCT, DELETE_ID_STRUCT])
  {
    var code := Generated(WL_DISPLAY, true);
    DisplayName();
    hide VersionedName, PrototypeOf, ArmOf, ProxyOf, StructOf;
    PairOf(code.prototypes, PrototypeOf(ERROR), PrototypeOf(DELETE_ID));
    PairOf(code.arms, ArmOf(ERROR, 0), ArmOf(DELETE_ID, 1));
    PairOf(code.proxies, ProxyOf(SYNC, 0), ProxyOf(GET_REGISTRY, 1));
    PairOf(code.requestStructs, StructOf("wl_display_v1", REQUEST, SYNC, 0),
           StructOf("wl_display_v1", REQUEST, GET_REGISTRY, 1));
    PairOf(code.eventStructs, StructOf("wl_display_v1", EVENT, ERROR, 0),
           StructOf("wl_display_v1", EVENT, DELETE_ID, 1));
    DisplayEventsAreAsShipped();
    SyncProxyIsAsShipped();
    GetRegistryProxyIsAsShipped();
    SyncStructIsAsShipped();
    GetRegistryStructIsAsShipped();
    ErrorStructIsAsShipped();
    DeleteIdStructIsAsShipped();
  }

  /** And for argument types that `wl_display` does not use, the argument structs that the library ships: a new ID of
      any interface, ... */
  lemma BindStructIsAsShipped()
    ensures StructOf("wl_registry_v1", REQUEST,
                     Procedure("bind", [Arg("name", Uint, None), Arg("id", NewId, None)]), 0) ==
            ArgStruct("wl_registry_v1_request_bind_args", [Declared("name", U32), Declared("id", NewObject)],
              [OpenReader("__reader", "__value"), LetRead("name", "__reader", ReadUint),
               LetRead("id", "__reader", ReadNewIdUnknownInterface), Finish("__reader"), MakeStruct(["name", "id"])],
              [NewPacket("__packet", 0), Push("__packet", PushUint, false, Field("name")),
               Push("__packet", PushNewIdUnknownInterface, true, Field("id")), ReturnPacket("__packet")])
  {
    hide StructOf;
    StructOfTwo("wl_registry_v1", REQUEST, "bind", Arg("name", Uint, None), Arg("id", NewId, None), 0);
    assert "wl_registry_v1" + "_" + REQUEST + "_" + "bind" + "_args" == "wl_registry_v1_request_bind_args";
  }

  /** ... a descriptor and a signed integer, ... */
  lemma CreatePoolStructIsAsShipped()
    ensures StructOf("wl_shm_v2", REQUEST,
                     Procedure("create_pool", [Arg("id", NewId, Some("wl_shm_pool")), Arg("fd", FileDescriptor, None),
                                               Arg("size", Int, None)]), 0) ==
            ArgStruct("wl_shm_v2_request_create_pool_args",
              [Declared("id", NewObjectId), Declared("fd", RawFd), Declared("size", I32)],
              [OpenReader("__reader", "__value"), LetRead("id", "__reader", ReadNewIdKnownInterface),
               LetRead("fd", "__reader", ReadFd), LetRead("size", "__reader", ReadInt), Finish("__reader"),
               MakeStruct(["id", "fd", "size"])],
              [NewPacket("__packet", 0), Push("__packet", PushNewIdKnownInterface, false, Field("id")),
               Push("__packet", PushFd, false, Field("fd")), Push("__packet", PushInt, false, Field("size")),
               ReturnPacket("__packet")])
  {
    hide StructOf;
    StructOfThree("wl_shm_v2", REQUEST, "create_pool", Arg("id", NewId, Some("wl_shm_pool")),
                  Arg("fd", FileDescriptor, None), Arg("size", Int, None), 0);
    assert "wl_shm_v2" + "_" + REQUEST + "_" + "create_pool" + "_args" == "wl_shm_v2_request_create_pool_args";
  }

  /** ... an array, ... */
  lemma EnterStructIsAsShipped()
    ensures StructOf("wl_keyboard_v10", EVENT,
                     Procedure("enter", [Arg("serial", Uint, None), Arg("surface", Object, Some("wl_surface")),
                                         Arg("keys", Array, None)]), 1) ==
            ArgStruct("wl_keyboard_v10_event_enter_args",
              [Declared("serial", U32), Declared("surface", OptionalObjectId), Declared("keys", Bytes)],
              [OpenReader("__reader", "__value"), LetRead("serial", "__reader", ReadUint),
               LetRead("surface", "__reader", ReadObject), LetRead("keys", "__reader", ReadArray), Finish("__reader"),
               MakeStruct(["serial", "surface", "keys"])],
              [NewPacket("__packet", 1), Push("__packet", PushUint, false, Field("serial")),
               Push("__packet", PushObject, false, Field("surface")), Push("__packet", PushArray, true, Field("keys")),
               ReturnPacket("__packet")])
  {
    hide StructOf;
    StructOfThree("wl_keyboard_v10", EVENT, "enter", Arg("serial", Uint, None),
                  Arg("surface", Object, Some("wl_surface")), Arg("keys", Array, None), 1);
    assert "wl_keyboard_v10" + "_" + EVENT + "_" + "enter" + "_args" == "wl_keyboard_v10_event_enter_args";
  }

  /** ... and fixed-point numbers. */
  lemma MotionStructIsAsShipped()
    ensures StructOf("wl_data_device_v4", EVENT,
                     Procedure("motion", [Arg("time", Uint, None), Arg("x", FixedPoint, None),
                                          Arg("y", FixedPoint, None)]), 3) ==
            ArgStruct("wl_data_device_v4_event_motion_args",
              [Declared("time", U32), Declared("x", Fixed), Declared("y", Fixed)],
              [OpenReader("__reader", "__value"), LetRead("time", "__reader", ReadUint),
               LetRead("x", "__reader", ReadFixed), LetRead("y", "__reader", ReadFixed), Finish("__reader"),
               MakeStruct(["time", "x", "y"])],
              [NewPacket("__packet", 3), Push("__packet", PushUint, false, Field("time")),
               Push("__packet", PushFixed, false, Field("x")), Push("__packet", PushFixed, false, Field("y")),
               ReturnPacket("__packet")])
  {
    hide StructOf;
    StructOfThree("wl_data_device_v4", EVENT, "motion", Arg("time", Uint, None), Arg("x", FixedPoint, None),
                  Arg("y", FixedPoint, None), 3);
    assert "wl_data_device_v4" + "_" + EVENT + "_" + "motion" + "_args" == "wl_data_device_v4_event_motion_args";
  }
}
