/** How a packet becomes a run of stream cells and how the front of a stream becomes a packet again. */
module Framing {
  import opened Base
  import opened Wire
  import opened Codec
  import opened CodecLaws

  const MAX_SIZE: nat := 0xFFFF

  function TotalBytes(m: Message): nat
  {
    8 + |m.payload|
  }

  /** The check in `serialize`. */
  predicate Fits(m: Message)
  {
    TotalBytes(m) <= MAX_SIZE
  }

  /** `size << 16 | opcode`: the two halves do not overlap. */
  function HeaderWord(size: u16, opcode: u16): u32
  {
    size * 0x1_0000 + opcode
  }

  function Serialized(t: Target, m: Message): (b: seq<byte>)
    requires Fits(m)
    ensures |b| == TotalBytes(m)
  {
    WordBytes(t, m.objectId) + WordBytes(t, HeaderWord(TotalBytes(m), m.opcode)) + m.payload
  }

  // ---------- the stream ----------

  /** One byte of the stream, with the descriptors that were attached just before it. */
  datatype Cell = Cell(byte: byte, fds: seq<Fd>)

  /** Bytes as `send_with_fds` puts them into the stream: the descriptors travel with the first byte. */
  function Cells(bytes: seq<byte>, fds: seq<Fd>): (cells: seq<Cell>)
    ensures |cells| == |bytes|
  {
    seq(|bytes|, i requires 0 <= i < |bytes| => Cell(bytes[i], if i == 0 then fds else []))
  }

  function BytesOf(cells: seq<Cell>): (bytes: seq<byte>)
    ensures |bytes| == |cells|
  {
    seq(|cells|, i requires 0 <= i < |cells| => cells[i].byte)
  }

  function FdsIn(cells: seq<Cell>): seq<Fd>
  {
    if cells == [] then [] else cells[0].fds + FdsIn(cells[1..])
  }

  lemma BytesOfConcat(a: seq<Cell>, b: seq<Cell>)
    ensures BytesOf(a + b) == BytesOf(a) + BytesOf(b)
  {
  }

  lemma {:induction false} FdsInConcat(a: seq<Cell>, b: seq<Cell>)
    ensures FdsIn(a + b) == FdsIn(a) + FdsIn(b)
  {
    if a == [] {
      assert a + b == b;
    } else {
      assert (a + b)[1..] == a[1..] + b;
      FdsInConcat(a[1..], b);
    }
  }

  lemma {:induction false} NoFds(cells: seq<Cell>)
    requires forall i :: 0 <= i < |cells| ==> cells[i].fds == []
    ensures FdsIn(cells) == []
  {
    if cells != [] {
      NoFds(cells[1..]);
    }
  }

  /** All of a packet's descriptors arrive with its first byte, in order, and none later. */
  lemma FdsInCells(bytes: seq<byte>, fds: seq<Fd>, n: nat)
    requires 0 < n <= |bytes|
    ensures FdsIn(Cells(bytes, fds)[..n]) == fds
    ensures FdsIn(Cells(bytes, fds)[n..]) == []
  {
    var cells := Cells(bytes, fds);
    NoFds(cells[..n][1..]);
    NoFds(cells[n..]);
  }

  /** A packet as the sender puts it on the stream. */
  function Frame(t: Target, m: Message): (cells: seq<Cell>)
    requires Fits(m)
    ensures |cells| == TotalBytes(m)
  {
    Cells(Serialized(t, m), m.fds)
  }

  // ---------- parsing ----------

  datatype Header = Header(objectId: u32, size: u16, opcode: u16)

  /** What `recv_packet` makes of the eight header bytes: the opcode is masked with 0xFF. */
  function ParseHeader(t: Target, b: seq<byte>): Header
    requires |b| == 8
  {
    var word := BytesWord(t, b[4..8]);
    Header(BytesWord(t, b[0..4]), word / 0x1_0000, word % 0x100)
  }

  /** The rejections that follow the header, in the order the code makes them. */
  function HeaderError(h: Header): Option<Error>
  {
    if h.size < 8 then Some(PacketTooShort(h.size, 8))
    else if h.objectId == 0 then Some(ZeroObjectId)
    else None
  }

  /** The packet as the receiver sees it: the same, but for the mask on the opcode. */
  function Masked(m: Message): Message
  {
    m.(opcode := m.opcode % 0x100)
  }

  /** The receiver keeps the opcode exactly when the sender's is at most 255. */
  lemma OpcodeSurvives(m: Message)
    ensures Masked(m) == m <==> m.opcode <= 0xFF
  {
  }

  /** Unpacking the header word gives back the size and the full 16-bit opcode, in either byte order;
      the size field is the length of the whole buffer. */
  lemma HeaderRoundTrip(t: Target, m: Message)
    requires Fits(m)
    ensures var b := Serialized(t, m);
            && BytesWord(t, b[0..4]) == m.objectId
            && BytesWord(t, b[4..8]) / 0x1_0000 == |b|
            && BytesWord(t, b[4..8]) % 0x1_0000 == m.opcode
            && b[8..] == m.payload
            && ParseHeader(t, b[..8]) == Header(m.objectId, |b|, m.opcode % 0x100)
            && HeaderError(ParseHeader(t, b[..8])) == None
  {
    var b := Serialized(t, m);
    var word := HeaderWord(TotalBytes(m), m.opcode);
    assert b[0..4] == WordBytes(t, m.objectId) == b[..8][0..4];
    assert b[4..8] == WordBytes(t, word) == b[..8][4..8];
    assert word % 0x100 == m.opcode % 0x100;
  }

  /** How a call of `recv_packet` ends; the payload loop has no end-of-stream exit, so it may not end. */
  datatype Outcome = Delivered(message: Message) | Rejected(error: Error) | SpinsForever

  datatype Received = Received(outcome: Outcome, consumed: nat)

  /** The header at the front of a stream. */
  function HeaderOf(t: Target, stream: seq<Cell>): Header
    requires 8 <= |stream|
  {
    ParseHeader(t, BytesOf(stream[..8]))
  }

  /** The packet whose header has been accepted and whose cells are all there. */
  function PacketOf(h: Header, cells: seq<Cell>): Message
    requires h.objectId != 0 && 8 <= |cells|
  {
    Message(h.objectId, h.opcode, BytesOf(cells[8..]), FdsIn(cells))
  }

  /** What a receiver gets from the front of a stream, and how much of it is consumed.
      The stream is everything that will ever arrive; after it comes end of stream. */
  function Receive(t: Target, stream: seq<Cell>): (r: Received)
    ensures r.consumed <= |stream|
  {
    if |stream| < 8 then Received(Rejected(UnexpectedEof), |stream|)
    else
      var h := HeaderOf(t, stream);
      match HeaderError(h)
      case Some(e) => Received(Rejected(e), 8)
      case None =>
        if |stream| < h.size then Received(SpinsForever, |stream|)
        else Received(Delivered(PacketOf(h, stream[..h.size])), h.size)
  }

  /** A frame at the front of any stream is received whole: exactly its cells are consumed and
      exactly its descriptors are collected. */
  lemma ReceiveFrame(t: Target, m: Message, rest: seq<Cell>)
    requires Fits(m)
    ensures Receive(t, Frame(t, m) + rest) == Received(Delivered(Masked(m)), TotalBytes(m))
  {
    var frame, stream := Frame(t, m), Frame(t, m) + rest;
    var b := Serialized(t, m);
    HeaderRoundTrip(t, m);
    assert stream[..8] == frame[..8];
    assert BytesOf(frame[..8]) == b[..8];
    assert stream[..TotalBytes(m)] == frame;
    assert BytesOf(frame[8..]) == m.payload;
    FdsInCells(b, m.fds, |b|);
    assert frame[..|b|] == frame;
  }

  /** Every way in which a receive can end, by the words at the front of the stream. */
  lemma ReceiveExact(t: Target, stream: seq<Cell>)
    ensures |stream| < 8 ==> Receive(t, stream) == Received(Rejected(UnexpectedEof), |stream|)
    ensures |stream| >= 8 ==>
              var r, front := Receive(t, stream), seq(8, i requires 0 <= i < 8 => stream[i].byte);
              var id, sizeAndOpcode := BytesWord(t, front[..4]), BytesWord(t, front[4..]);
              var size := sizeAndOpcode / 0x1_0000;
              if size < 8 then r == Received(Rejected(PacketTooShort(size, 8)), 8)
              else if id == 0 then r == Received(Rejected(ZeroObjectId), 8)
              else if |stream| < size then r == Received(SpinsForever, |stream|)
              else
                && r.outcome.Delivered? && r.consumed == size
                && var m := r.outcome.message;
                   && m.objectId == id && m.opcode == sizeAndOpcode % 256 && m.fds == FdsIn(stream[..size])
                   && |m.payload| == size - 8 && forall i :: 8 <= i < size ==> m.payload[i - 8] == stream[i].byte
  {
    if |stream| >= 8 {
      var front := seq(8, i requires 0 <= i < 8 => stream[i].byte);
      assert BytesOf(stream[..8]) == front;
      assert front[0..4] == front[..4] && front[4..8] == front[4..];
      hide FdsIn, BytesWord;
    }
  }

  /** The mask loses opcodes from 256 on: there is a packet that is received as one with opcode 0. */
  lemma OpcodeLost(t: Target, rest: seq<Cell>) returns (m: Message)
    ensures Fits(m) && m.opcode == 0x100
    ensures Receive(t, Frame(t, m) + rest) == Received(Delivered(m.(opcode := 0)), TotalBytes(m))
  {
    m := Message(DISPLAY, 0x100, [], []);
    ReceiveFrame(t, m, rest);
  }

  lemma TakeConcat<T>(a: seq<T>, b: seq<T>, n: nat)
    requires n <= |a| + |b|
    ensures (a + b)[..n] == if n <= |a| then a[..n] else a + b[..n - |a|]
  {
  }

  lemma DropConcat<T>(a: seq<T>, b: seq<T>, n: nat)
    requires n <= |a|
    ensures (a + b)[n..] == a[n..] + b
  {
  }

  /** What arrives later changes nothing about a receive that has ended after its header. */
  lemma ReceiveSettled(t: Target, stream: seq<Cell>, more: seq<Cell>)
    requires 8 <= |stream| && !Receive(t, stream).outcome.SpinsForever?
    ensures Receive(t, stream + more) == Receive(t, stream)
  {
    hide ParseHeader, BytesOf, PacketOf, HeaderError;
    var h := HeaderOf(t, stream);
    TakeConcat(stream, more, 8);
    if h.size <= |stream| {
      TakeConcat(stream, more, h.size);
    }
  }

  /** A receive that spins goes on spinning until the cells that its header still asks for have arrived, and with
      them it delivers what that header says, with the bytes and descriptors of both parts. */
  lemma ReceiveReleased(t: Target, stream: seq<Cell>, more: seq<Cell>)
    requires Receive(t, stream).outcome.SpinsForever?
    ensures 8 <= |stream| < HeaderOf(t, stream).size && HeaderOf(t, stream).objectId != 0
    ensures var h := HeaderOf(t, stream);
            && (|stream| + |more| < h.size ==> Receive(t, stream + more) == Received(SpinsForever, |stream| + |more|))
            && (|stream| + |more| == h.size ==>
                  var m := Message(h.objectId, h.opcode, BytesOf(stream[8..]) + BytesOf(more),
                                   FdsIn(stream) + FdsIn(more));
                  Receive(t, stream + more) == Received(Delivered(m), h.size))
  {
    hide ParseHeader, BytesOf, PacketOf;
    TakeConcat(stream, more, 8);
    if |stream| + |more| == HeaderOf(t, stream).size {
      TakeConcat(stream, more, |stream| + |more|);
      assert (stream + more)[..|stream| + |more|] == stream + more;
      PacketOfParts(HeaderOf(t, stream), stream, more);
    }
  }

  lemma PacketOfParts(h: Header, front: seq<Cell>, more: seq<Cell>)
    requires h.objectId != 0 && 8 <= |front|
    ensures PacketOf(h, front + more)
         == Message(h.objectId, h.opcode, BytesOf(front[8..]) + BytesOf(more), FdsIn(front) + FdsIn(more))
  {
    hide BytesOf, FdsIn;
    DropConcat(front, more, 8);
    BytesOfConcat(front[8..], more);
    FdsInConcat(front, more);
  }

  /** A stream cut off inside a payload makes the payload loop spin. */
  lemma TruncatedPayloadSpins(t: Target, m: Message, n: nat)
    requires Fits(m) && 8 <= n < TotalBytes(m)
    ensures Receive(t, Frame(t, m)[..n]) == Received(SpinsForever, n)
  {
    HeaderRoundTrip(t, m);
    var cut := Frame(t, m)[..n];
    assert cut[..8] == Frame(t, m)[..8];
    assert BytesOf(cut[..8]) == Serialized(t, m)[..8];
  }

  /** Whatever is pushed, the payload is aligned, so passing the 65535-byte check means at most 65532 bytes. */
  lemma PushedFits(t: Target, objectId: ObjectId, opcode: u16, vs: seq<Value>)
    requires AllEncodable(vs)
    ensures var m := Written(t, objectId, opcode, vs); Fits(m) <==> TotalBytes(m) <= 65532
  {
    PayloadAligned(t, vs);
    AlignedSum(8, |EncodeAll(t, vs)|);
  }
}
