/** The mutable packet that fields are pushed onto, and the reader that walks a finished one. */
module Packets {
  import opened Base
  import opened Wire
  import opened Codec
  import opened Framing

  class Packet {
    const target: Target
    var objectId: ObjectId
    var opcode: u16
    var payload: seq<byte>
    var fds: seq<Fd>

    function Contents(): Message
      reads this
    {
      Message(objectId, opcode, payload, fds)
    }

    constructor (target: Target, objectId: ObjectId, opcode: u16)
      ensures this.target == target
      ensures Contents() == Message(objectId, opcode, [], [])
    {
      this.target, this.objectId, this.opcode := target, objectId, opcode;
      payload, fds := [], [];
    }

    constructor FromExisting(target: Target, objectId: ObjectId, opcode: u16, payload: seq<byte>, fds: seq<Fd>)
      ensures this.target == target
      ensures Contents() == Message(objectId, opcode, payload, fds)
    {
      this.target, this.objectId, this.opcode := target, objectId, opcode;
      this.payload, this.fds := payload, fds;
    }

    /** Pushing appends one value's encoding and its descriptor, and changes nothing else. */
    twostate predicate Pushed(v: Value)
      requires Encodable(v)
      reads this
    {
      Contents() == old(Contents()).(payload := old(payload) + Encode(target, v), fds := old(fds) + FdsOf(v))
    }

    method PushUint(value: u32)
      modifies this`payload
      ensures Pushed(UintValue(value))
    {
      payload := payload + WordBytes(target, value);
    }

    method PushInt(value: i32)
      modifies this`payload
      ensures Pushed(IntValue(value))
    {
      payload := payload + WordBytes(target, Unsigned(value));
    }

    method PushFixed(inner: i32)
      modifies this`payload
      ensures Pushed(FixedValue(inner))
    {
      payload := payload + WordBytes(target, Unsigned(inner));
    }

    method PushStr(value: seq<byte>)
      requires EncodableText(value)
      modifies this`payload
      ensures Pushed(StringValue(value))
    {
      var lenWithNul := |value| + 1;
      payload := payload + WordBytes(target, lenWithNul);
      payload := payload + value;
      payload := payload + [0];
      var realignCount := (4 - lenWithNul % 4) % 4;
      payload := payload + Zeros(realignCount);
      assert payload == old(payload) + Block(target, value + [0]);
    }

    method PushArray(data: seq<byte>)
      requires |data| < 0x1_0000_0000
      modifies this`payload
      ensures Pushed(ArrayValue(data))
    {
      payload := payload + WordBytes(target, |data|);
      payload := payload + data;
      var realignCount := (4 - |data| % 4) % 4;
      payload := payload + Zeros(realignCount);
      assert payload == old(payload) + Block(target, data);
    }

    method PushObject(reference: Option<ObjectId>)
      modifies this`payload
      ensures Pushed(ObjectValue(reference))
    {
      match reference
      case Some(id) => PushUint(id);
      case None => PushUint(0);
    }

    method PushNewIdKnownInterface(id: ObjectId)
      modifies this`payload
      ensures Pushed(NewIdValue(id))
    {
      PushObject(Some(id));
    }

    method PushNewIdUnknownInterface(interface: seq<byte>, version: u32, id: ObjectId)
      requires EncodableText(interface)
      modifies this`payload
      ensures Pushed(NewObjectValue(interface, version, id))
    {
      hide Block, WordBytes;
      PushStr(interface);
      PushUint(version);
      PushObject(Some(id));
      var text, words := Block(target, interface + [0]), WordBytes(target, version) + WordBytes(target, id);
      assert payload == old(payload) + text + WordBytes(target, version) + WordBytes(target, id)
                     == old(payload) + (text + words);
      assert text + words == Encode(target, NewObjectValue(interface, version, id));
    }

    method PushFd(fd: Fd)
      modifies this`fds
      ensures Pushed(FdValue(fd))
    {
      fds := fds + [fd];
    }

    /** The whole packet as bytes, unless it is longer than its 16-bit size field can say. */
    method Serialize() returns (r: Result<seq<byte>>)
      ensures r == if Fits(Contents()) then Ok(Serialized(target, Contents()))
                   else Err(PacketTooLong(TotalBytes(Contents()), MAX_SIZE))
    {
      var totalBytes := 8 + |payload|;
      if totalBytes > MAX_SIZE {
        return Err(PacketTooLong(totalBytes, MAX_SIZE));
      }
      var buf := new byte[totalBytes](i => 0);
      CopyFromSlice(buf, 0, WordBytes(target, objectId));
      CopyFromSlice(buf, 4, WordBytes(target, HeaderWord(totalBytes, opcode)));
      assert buf[..8] == buf[..4] + buf[4..8];
      assert buf[..8] == WordBytes(target, objectId) + WordBytes(target, HeaderWord(totalBytes, opcode));
      CopyFromSlice(buf, 8, payload);
      assert buf[..] == buf[..8] + buf[8..8 + |payload|];
      return Ok(buf[..]);
    }

    /** A reader at the start of this packet. */
    method Read() returns (reader: PacketReader)
      ensures fresh(reader)
      ensures reader.target == target && reader.message == Contents() && reader.At() == START
    {
      reader := new PacketReader(target, Contents());
    }
  }

  /** `buf[from..from + |source|].copy_from_slice(source)` */
  method CopyFromSlice(buf: array<byte>, from: nat, source: seq<byte>)
    requires from + |source| <= buf.Length
    modifies buf
    ensures buf[..from] == old(buf[..from])
    ensures buf[from..from + |source|] == source
    ensures buf[from + |source|..] == old(buf[from + |source|..])
  {
    forall i | 0 <= i < |source| {
      buf[from + i] := source[i];
    }
  }

  /** Reads a packet it has borrowed: the packet cannot change while the reader exists. */
  class PacketReader {
    const target: Target
    const message: Message
    var payloadPos: nat
    var fdPos: nat

    function At(): Cursor
      reads this
    {
      Cursor(payloadPos, fdPos)
    }

    constructor (target: Target, message: Message)
      ensures this.target == target && this.message == message && At() == START
    {
      this.target, this.message := target, message;
      payloadPos, fdPos := 0, 0;
    }

    /** The outcome of a call together with where the cursors now stand. */
    function Outcome<T>(r: Result<T>): Read<T>
      reads this
    {
      match r
      case Ok(v) => Got(v, At())
      case Err(e) => Failed(e, At())
      case Panic => Panicked(At())
    }

    method PeekBytes(count: nat) returns (r: Result<seq<byte>>)
      ensures r == if payloadPos + count > |message.payload|
                   then Err(FieldOutOfBounds(payloadPos + 4, |message.payload|))
                   else Ok(message.payload[payloadPos..payloadPos + count])
    {
      if payloadPos + count > |message.payload| {
        r := Err(FieldOutOfBounds(payloadPos + 4, |message.payload|));
      } else {
        r := Ok(message.payload[payloadPos..payloadPos + count]);
      }
    }

    method ReadUint() returns (r: Result<u32>)
      modifies this`payloadPos
      ensures Outcome(r) == DecodeWord(target, message, old(At()))
    {
      var buf := PeekBytes(4);
      match buf {
        case Ok(b) =>
          payloadPos := payloadPos + 4;
          r := Ok(BytesWord(target, b));
        case Err(e) => r := Err(e);
      }
    }

    method ReadInt() returns (r: Result<i32>)
      modifies this`payloadPos
      ensures Decode(target, ReadFn.ReadInt, message, old(At())) ==
              match r
              case Ok(i) => Got(IntValue(i), At())
              case Err(e) => Failed(e, At())
              case Panic => Panicked(At())
    {
      var buf := PeekBytes(4);
      match buf {
        case Ok(b) =>
          payloadPos := payloadPos + 4;
          r := Ok(Signed(BytesWord(target, b)));
        case Err(e) => r := Err(e);
      }
    }

    method ReadFixed() returns (r: Result<i32>)
      modifies this`payloadPos
      ensures Decode(target, ReadFn.ReadFixed, message, old(At())) ==
              match r
              case Ok(inner) => Got(FixedValue(inner), At())
              case Err(e) => Failed(e, At())
              case Panic => Panicked(At())
    {
      var buf := PeekBytes(4);
      match buf {
        case Ok(b) =>
          payloadPos := payloadPos + 4;
          r := Ok(Signed(BytesWord(target, b)));
        case Err(e) => r := Err(e);
      }
    }

    /** Reads the declared length and checks that the padded field is inside the payload. */
    method ReadSlice() returns (r: Result<seq<byte>>)
      modifies this`payloadPos
      ensures Outcome(r) == DecodeBlock(target, message, old(At()))
    {
      var lenBuf := PeekBytes(4);
      match lenBuf {
        case Err(e) => return Err(e);
        case Ok(b) =>
          var len: nat := BytesWord(target, b);
          var paddingLen := (4 - len % 4) % 4;
          var lenPadded := len + paddingLen;
          assert paddingLen == Pad(len);
          if payloadPos + 4 + lenPadded > |message.payload| {
            return Err(FieldOutOfBounds(payloadPos + 4 + lenPadded, |message.payload|));
          }
          payloadPos := payloadPos + 4;
          var slice := message.payload[payloadPos..payloadPos + len];
          payloadPos := payloadPos + lenPadded;
          return Ok(slice);
      }
    }

    method ReadArray() returns (r: Result<seq<byte>>)
      modifies this`payloadPos
      ensures Outcome(r) == DecodeBlock(target, message, old(At()))
    {
      r := ReadSlice();
    }

    method ReadStr() returns (r: Result<seq<byte>>)
      modifies this`payloadPos
      ensures Outcome(r) == DecodeStr(target, message, old(At()))
    {
      r := ReadSlice();
      if r.Ok? {
        var slice := r.value;
        var nulPos := Position(slice, 0);
        if |slice| == 0 {
          // `string_slice.len() - 1` on an empty slice
          return if target.overflowChecks then Panic else Err(StringMisplacedNul(nulPos, USIZE_MAX));
        }
        if nulPos != Some(|slice| - 1) {
          return Err(StringMisplacedNul(nulPos, |slice| - 1));
        }
        var noNul := slice[..|slice| - 1];
        if !ValidUtf8(noNul) {
          return Err(StringInvalidUtf8(noNul));
        }
        return Ok(noNul);
      }
    }

    method ReadObject() returns (r: Result<Option<ObjectId>>)
      modifies this`payloadPos
      ensures At() == Decode(target, ReadFn.ReadObject, message, old(At())).next
      ensures Decode(target, ReadFn.ReadObject, message, old(At())) ==
              match r
              case Ok(o) => Got(ObjectValue(o), At())
              case Err(e) => Failed(e, At())
              case Panic => Panicked(At())
    {
      var w := ReadUint();
      match w {
        case Ok(v) => r := Ok(ToObject(v));
        case Err(e) => r := Err(e);
      }
    }

    method ReadNewIdKnownInterface() returns (r: Result<ObjectId>)
      modifies this`payloadPos
      ensures Decode(target, ReadFn.ReadNewIdKnownInterface, message, old(At())) ==
              match r
              case Ok(o) => Got(NewIdValue(o), At())
              case Err(e) => Failed(e, At())
              case Panic => Panicked(At())
    {
      var oid := ReadObject();
      match oid {
        case Ok(Some(o)) => r := Ok(o);
        case Ok(None) => r := Err(ZeroObjectId);
        case Err(e) => r := Err(e);
      }
    }

    method ReadNewIdUnknownInterface() returns (r: Result<Value>)
      modifies this`payloadPos
      ensures Outcome(r) == DecodeNewObject(target, message, old(At()))
    {
      var interface := ReadStr();
      if !interface.Ok? {
        return if interface.Err? then Err(interface.error) else Panic;
      }
      var version := ReadUint();
      if version.Err? {
        return Err(version.error);
      }
      var oid := ReadObject();
      match oid {
        case Ok(Some(o)) => r := Ok(NewObjectValue(interface.value, version.value, o));
        case Ok(None) => r := Err(ZeroObjectId);
        case Err(e) => r := Err(e);
      }
    }

    method ReadFd() returns (r: Result<Fd>)
      modifies this`fdPos
      ensures DecodeFd(message, old(At())) ==
              match r
              case Ok(fd) => Got(FdValue(fd), At())
              case Err(e) => Failed(e, At())
              case Panic => Panicked(At())
    {
      if fdPos >= |message.fds| {
        r := Err(FdOutOfBounds(|message.fds|));
      } else {
        r := Ok(message.fds[fdPos]);
        fdPos := fdPos + 1;
      }
    }

    method Finish() returns (r: Result<()>)
      ensures r == if Finished(message, At()) then Ok(()) else Err(IncompleteError(message, At()))
    {
      var allRead := payloadPos >= |message.payload| && fdPos >= |message.fds|;
      if allRead {
        r := Ok(());
      } else {
        r := Err(IncompleteRead(payloadPos, |message.payload|, fdPos, |message.fds|));
      }
    }
  }

  /** `iter().position(|b| *b == needle)` */
  method Position(s: seq<byte>, needle: byte) returns (r: Option<nat>)
    ensures r == None <==> forall i :: 0 <= i < |s| ==> s[i] != needle
    ensures r.Some? ==> r.value < |s| && s[r.value] == needle && forall i :: 0 <= i < r.value ==> s[i] != needle
    ensures needle == 0 ==> r == FirstNul(s)
  {
    var i := 0;
    while i < |s|
      invariant i <= |s|
      invariant forall j :: 0 <= j < i ==> s[j] != needle
    {
      if s[i] == needle {
        return Some(i);
      }
      i := i + 1;
    }
    return None;
  }
}
