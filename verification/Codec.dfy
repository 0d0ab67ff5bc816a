/** What the fields of a packet look like on the wire and how a reader's two cursors walk them:
    the specification that the mutable packet, its reader and the generated code are proved against. */
module Codec {
  import opened Base
  import opened Wire

  /** The contents of a packet. */
  datatype Message = Message(objectId: ObjectId, opcode: u16, payload: seq<byte>, fds: seq<Fd>)

  /** The value of one argument. Strings are held as their UTF-8 bytes. */
  datatype Value =
    | UintValue(unsigned: u32)
    | IntValue(signed: i32)
    | FixedValue(inner: i32)
    | StringValue(text: seq<byte>)
    | ObjectValue(reference: Option<ObjectId>)
    | NewIdValue(newId: ObjectId)
    | NewObjectValue(interface: seq<byte>, version: u32, id: ObjectId)
    | ArrayValue(bytes: seq<byte>)
    | FdValue(fd: Fd)

  /** The types that arguments have in generated code. */
  datatype ValueType = U32 | I32 | Fixed | Text | OptionalObjectId | NewObjectId | NewObject | Bytes | RawFd

  function TypeOf(v: Value): ValueType
  {
    match v
    case UintValue(_) => U32
    case IntValue(_) => I32
    case FixedValue(_) => Fixed
    case StringValue(_) => Text
    case ObjectValue(_) => OptionalObjectId
    case NewIdValue(_) => NewObjectId
    case NewObjectValue(_, _, _) => NewObject
    case ArrayValue(_) => Bytes
    case FdValue(_) => RawFd
  }

  /** The reading methods of `PacketReader`. */
  datatype ReadFn =
    | ReadUint | ReadInt | ReadFixed | ReadStr | ReadObject
    | ReadNewIdKnownInterface | ReadNewIdUnknownInterface | ReadArray | ReadFd

  function ResultType(f: ReadFn): ValueType
  {
    match f
    case ReadUint => U32
    case ReadInt => I32
    case ReadFixed => Fixed
    case ReadStr => Text
    case ReadObject => OptionalObjectId
    case ReadNewIdKnownInterface => NewObjectId
    case ReadNewIdUnknownInterface => NewObject
    case ReadArray => Bytes
    case ReadFd => RawFd
  }

  // ---------- text ----------

  predicate NulFree(s: seq<byte>)
  {
    forall i :: 0 <= i < |s| ==> s[i] != 0
  }

  predicate Tail(s: seq<byte>, i: nat)
  {
    i < |s| && 0x80 <= s[i] <= 0xBF
  }

  /** Well-formed UTF-8: the grammar in section 4 of RFC 3629. */
  predicate ValidUtf8(s: seq<byte>)
  {
    s == [] ||
    var b := s[0];
    var second := if |s| > 1 then s[1] else 0;
    if b <= 0x7F then ValidUtf8(s[1..])
    else if 0xC2 <= b <= 0xDF then Tail(s, 1) && ValidUtf8(s[2..])
    else if 0xE0 <= b <= 0xEF then
      && Tail(s, 1) && Tail(s, 2)
      && (b == 0xE0 ==> second >= 0xA0) && (b == 0xED ==> second <= 0x9F)
      && ValidUtf8(s[3..])
    else if 0xF0 <= b <= 0xF4 then
      && Tail(s, 1) && Tail(s, 2) && Tail(s, 3)
      && (b == 0xF0 ==> second >= 0x90) && (b == 0xF4 ==> second <= 0x8F)
      && ValidUtf8(s[4..])
    else false
  }

  /** The position of the first zero byte. */
  function FirstNul(s: seq<byte>): (r: Option<nat>)
    ensures r == None <==> NulFree(s)
    ensures r.Some? ==> r.value < |s| && s[r.value] == 0 && NulFree(s[..r.value])
  {
    if s == [] then None
    else if s[0] == 0 then Some(0)
    else
      assert s == [s[0]] + s[1..];
      match FirstNul(s[1..])
      case None => None
      case Some(i) =>
        assert s[..i + 1] == [s[0]] + s[1..][..i];
        Some(i + 1)
  }

  lemma FirstNulOfTerminated(s: seq<byte>)
    requires NulFree(s)
    ensures FirstNul(s + [0]) == Some(|s|)
  {
    assert (s + [0])[|s|] == 0;
  }

  // ---------- writing ----------

  /** A length-prefixed byte string with its padding. */
  function Block(t: Target, data: seq<byte>): (b: seq<byte>)
    requires |data| < 0x1_0000_0000
    ensures |b| == 4 + |data| + Pad(|data|)
    ensures |b| % 4 == 0
  {
    AlignedSum(4, |data| + Pad(|data|));
    WordBytes(t, |data|) + data + Zeros(Pad(|data|))
  }

  /** What the pushing methods demand of their argument: a Rust string is valid UTF-8, `push_str`
      asserts that it holds no NUL, and both lengths must fit in 32 bits. */
  predicate Encodable(v: Value)
  {
    match v
    case StringValue(s) => EncodableText(s)
    case NewObjectValue(s, _, _) => EncodableText(s)
    case ArrayValue(a) => |a| < 0x1_0000_0000
    case _ => true
  }

  predicate EncodableText(s: seq<byte>)
  {
    NulFree(s) && ValidUtf8(s) && |s| + 1 < 0x1_0000_0000
  }

  function ObjectWord(o: Option<ObjectId>): u32
  {
    match o
    case None => 0
    case Some(id) => id
  }

  function Encode(t: Target, v: Value): (b: seq<byte>)
    requires Encodable(v)
  {
    match v
    case UintValue(u) => WordBytes(t, u)
    case IntValue(i) => WordBytes(t, Unsigned(i))
    case FixedValue(i) => WordBytes(t, Unsigned(i))
    case StringValue(s) => Block(t, s + [0])
    case ObjectValue(o) => WordBytes(t, ObjectWord(o))
    case NewIdValue(o) => WordBytes(t, o)
    case NewObjectValue(s, version, o) => Block(t, s + [0]) + WordBytes(t, version) + WordBytes(t, o)
    case ArrayValue(a) => Block(t, a)
    case FdValue(_) => []
  }

  function FdsOf(v: Value): (f: seq<Fd>)
  {
    if v.FdValue? then [v.fd] else []
  }

  predicate AllEncodable(vs: seq<Value>)
  {
    forall i :: 0 <= i < |vs| ==> Encodable(vs[i])
  }

  function EncodeAll(t: Target, vs: seq<Value>): seq<byte>
    requires AllEncodable(vs)
  {
    if vs == [] then [] else Encode(t, vs[0]) + EncodeAll(t, vs[1..])
  }

  function AllFds(vs: seq<Value>): seq<Fd>
  {
    if vs == [] then [] else FdsOf(vs[0]) + AllFds(vs[1..])
  }

  // ---------- reading ----------

  datatype Cursor = Cursor(pos: nat, fd: nat)

  /** The outcome of a read, with the cursors it leaves behind. */
  datatype Read<+T> =
    | Got(value: T, next: Cursor)
    | Failed(error: Error, next: Cursor)
    | Panicked(next: Cursor)

  const START := Cursor(0, 0)

  function DecodeWord(t: Target, m: Message, c: Cursor): Read<u32>
  {
    if c.pos + 4 > |m.payload| then Failed(FieldOutOfBounds(c.pos + 4, |m.payload|), c)
    else Got(BytesWord(t, m.payload[c.pos..c.pos + 4]), c.(pos := c.pos + 4))
  }

  function DecodeBlock(t: Target, m: Message, c: Cursor): (r: Read<seq<byte>>)
    ensures r.Got? ==> |r.value| < 0x1_0000_0000
    ensures r.Got? ==> r.next == c.(pos := c.pos + 4 + |r.value| + Pad(|r.value|)) && r.next.pos <= |m.payload|
  {
    if c.pos + 4 > |m.payload| then Failed(FieldOutOfBounds(c.pos + 4, |m.payload|), c)
    else
      var len := BytesWord(t, m.payload[c.pos..c.pos + 4]);
      var end := c.pos + 4 + len + Pad(len);
      if end > |m.payload| then Failed(FieldOutOfBounds(end, |m.payload|), c)
      else Got(m.payload[c.pos + 4..c.pos + 4 + len], c.(pos := end))
  }

  /** The largest `usize`, which `0 - 1` wraps to when overflow is not checked. */
  const USIZE_MAX: nat := 0xFFFF_FFFF_FFFF_FFFF

  function CheckText(t: Target, slice: seq<byte>, c: Cursor): (r: Read<seq<byte>>)
  {
    if slice == [] then
      if t.overflowChecks then Panicked(c) else Failed(StringMisplacedNul(None, USIZE_MAX), c)
    else
      var last := |slice| - 1;
      var nul := FirstNul(slice);
      if nul != Some(last) then Failed(StringMisplacedNul(nul, last), c)
      else if !ValidUtf8(slice[..last]) then Failed(StringInvalidUtf8(slice[..last]), c)
      else Got(slice[..last], c)
  }

  function DecodeStr(t: Target, m: Message, c: Cursor): Read<seq<byte>>
  {
    match DecodeBlock(t, m, c)
    case Got(slice, next) => CheckText(t, slice, next)
    case Failed(e, next) => Failed(e, next)
    case Panicked(next) => Panicked(next)
  }

  function ToObject(w: u32): Option<ObjectId>
  {
    if w == 0 then None else Some(w)
  }

  function DecodeNewObject(t: Target, m: Message, c: Cursor): Read<Value>
  {
    match DecodeStr(t, m, c)
    case Failed(e, next) => Failed(e, next)
    case Panicked(next) => Panicked(next)
    case Got(text, c1) =>
      match DecodeWord(t, m, c1)
      case Failed(e, next) => Failed(e, next)
      case Panicked(next) => Panicked(next)
      case Got(version, c2) =>
        match DecodeWord(t, m, c2)
        case Failed(e, next) => Failed(e, next)
        case Panicked(next) => Panicked(next)
        case Got(w, c3) =>
          if w == 0 then Failed(ZeroObjectId, c3) else Got(NewObjectValue(text, version, w), c3)
  }

  function DecodeFd(m: Message, c: Cursor): Read<Value>
  {
    if c.fd >= |m.fds| then Failed(FdOutOfBounds(|m.fds|), c)
    else Got(FdValue(m.fds[c.fd]), c.(fd := c.fd + 1))
  }

  /** The value of a field held in one word; a known-interface new ID must not be zero. */
  function WordValue(f: ReadFn, w: u32): Option<Value>
  {
    match f
    case ReadUint => Some(UintValue(w))
    case ReadInt => Some(IntValue(Signed(w)))
    case ReadFixed => Some(FixedValue(Signed(w)))
    case ReadObject => Some(ObjectValue(ToObject(w)))
    case ReadNewIdKnownInterface => if w == 0 then None else Some(NewIdValue(w))
    case _ => None
  }

  /** What one reading method does to a reader at cursor `c` of packet `m`. */
  function Decode(t: Target, f: ReadFn, m: Message, c: Cursor): Read<Value>
  {
    match f
    case ReadStr =>
      (match DecodeStr(t, m, c)
       case Got(s, next) => Got(StringValue(s), next)
       case Failed(e, next) => Failed(e, next)
       case Panicked(next) => Panicked(next))
    case ReadArray =>
      (match DecodeBlock(t, m, c)
       case Got(a, next) => Got(ArrayValue(a), next)
       case Failed(e, next) => Failed(e, next)
       case Panicked(next) => Panicked(next))
    case ReadNewIdUnknownInterface => DecodeNewObject(t, m, c)
    case ReadFd => DecodeFd(m, c)
    case _ =>
      match DecodeWord(t, m, c)
      case Got(w, next) =>
        (match WordValue(f, w)
         case None => Failed(ZeroObjectId, next)
         case Some(v) => Got(v, next))
      case Failed(e, next) => Failed(e, next)
      case Panicked(next) => Panicked(next)
  }

  /** Reading a whole signature, stopping at the first failure as `?` does. */
  function DecodeAll(t: Target, fs: seq<ReadFn>, m: Message, c: Cursor): (r: Read<seq<Value>>)
    ensures r.Got? ==> |r.value| == |fs|
  {
    if fs == [] then Got([], c)
    else
      match Decode(t, fs[0], m, c)
      case Failed(e, next) => Failed(e, next)
      case Panicked(next) => Panicked(next)
      case Got(v, next) =>
        match DecodeAll(t, fs[1..], m, next)
        case Failed(e, last) => Failed(e, last)
        case Panicked(last) => Panicked(last)
        case Got(vs, last) => Got([v] + vs, last)
  }

  predicate Finished(m: Message, c: Cursor)
  {
    c.pos >= |m.payload| && c.fd >= |m.fds|
  }

  function IncompleteError(m: Message, c: Cursor): Error
  {
    IncompleteRead(c.pos, |m.payload|, c.fd, |m.fds|)
  }
}
