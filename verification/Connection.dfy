/** Sending and receiving one packet over a socket that moves any number of bytes at a time. */
module Connections {
  import opened Base
  import opened Codec
  import opened Framing
  import Packets

  /** One end of a stream socket. `incoming` is everything that will ever arrive, followed by end of
      stream; `outgoing` is everything sent so far. */
  class Socket {
    var incoming: seq<Cell>
    var outgoing: seq<Cell>

    constructor (incoming: seq<Cell>)
      ensures this.incoming == incoming && outgoing == []
    {
      this.incoming, outgoing := incoming, [];
    }

    /** Sends some of the data, at least one byte; all descriptors travel with the first byte. */
    method SendWithFds(data: seq<byte>, fds: seq<Fd>) returns (sent: nat)
      requires data != []
      modifies this`outgoing
      ensures 1 <= sent <= |data|
      ensures outgoing == old(outgoing) + Cells(data[..sent], fds)
    {
      sent :| 1 <= sent <= |data|;
      outgoing := outgoing + Cells(data[..sent], fds);
    }

    method Send(data: seq<byte>) returns (sent: nat)
      requires data != []
      modifies this`outgoing
      ensures 1 <= sent <= |data|
      ensures outgoing == old(outgoing) + Cells(data[..sent], [])
    {
      sent := SendWithFds(data, []);
    }

    /** Receives into `buf[from..]`: at least one byte unless there is no room or nothing is left.
        The descriptors attached to the bytes received are returned. The documentation says nothing about an
        empty buffer: it is taken to receive no bytes and therefore no descriptors, once the socket is readable. */
    method RecvWithFds(buf: array<byte>, from: nat) returns (received: nat, fds: seq<Fd>)
      requires from <= buf.Length
      modifies this`incoming, buf
      ensures received <= buf.Length - from && received <= |old(incoming)|
      ensures received == 0 <==> from == buf.Length || old(incoming) == []
      ensures incoming == old(incoming)[received..]
      ensures fds == FdsIn(old(incoming)[..received])
      ensures buf[..from] == old(buf[..from])
      ensures buf[from..from + received] == BytesOf(old(incoming)[..received])
    {
      if from == buf.Length || incoming == [] {
        return 0, [];
      }
      var most := if |incoming| < buf.Length - from then |incoming| else buf.Length - from;
      received :| 1 <= received <= most;
      var front := incoming[..received];
      Packets.CopyFromSlice(buf, from, BytesOf(front));
      fds := FdsIn(front);
      incoming := incoming[received..];
    }
  }

  // ---------- one step of each loop ----------

  lemma FirstPiece(bytes: seq<byte>, fds: seq<Fd>, n: nat)
    requires n <= |bytes|
    ensures Cells(bytes[..n], fds) == Cells(bytes, fds)[..n]
  {
  }

  lemma NextPiece(sent: seq<Cell>, bytes: seq<byte>, fds: seq<Fd>, n: nat, k: nat)
    requires 1 <= n && n + k <= |bytes|
    ensures sent + Cells(bytes, fds)[..n] + Cells(bytes[n..][..k], []) == sent + Cells(bytes, fds)[..n + k]
  {
    var cells, piece := Cells(bytes, fds), Cells(bytes[n..][..k], []);
    assert cells[n..n + k] == piece;
    assert cells[..n + k] == cells[..n] + cells[n..n + k];
  }

  /** From a stream of which `from` cells had been taken, `n` more have been: their bytes are in the buffer, and the
      descriptors of all cells taken have been collected. */
  predicate Taken(stream: seq<Cell>, from: nat, n: nat, buffer: seq<byte>, fds: seq<Fd>, incoming: seq<Cell>)
  {
    && from + n <= |stream|
    && incoming == stream[from + n..]
    && buffer == BytesOf(stream[from..from + n])
    && fds == FdsIn(stream[..from + n])
  }

  lemma NothingTaken(stream: seq<Cell>, from: nat, fds: seq<Fd>)
    requires from <= |stream| && fds == FdsIn(stream[..from])
    ensures Taken(stream, from, 0, [], fds, stream[from..])
  {
  }

  lemma TakenMore(stream: seq<Cell>, from: nat, n: nat, buffer: seq<byte>, fds: seq<Fd>, incoming: seq<Cell>, k: nat)
    requires Taken(stream, from, n, buffer, fds, incoming) && k <= |incoming|
    ensures Taken(stream, from, n + k, buffer + BytesOf(incoming[..k]), fds + FdsIn(incoming[..k]), incoming[k..])
  {
    hide BytesOf, FdsIn;
    var at := from + n;
    Sliced(stream, from, at, at + k);
    Sliced(stream, 0, at, at + k);
    assert incoming[..k] == stream[at..at + k];
    BytesOfConcat(stream[from..at], incoming[..k]);
    FdsInConcat(stream[..at], incoming[..k]);
  }

  lemma Sliced<T>(s: seq<T>, i: nat, j: nat, k: nat)
    requires i <= j <= k <= |s|
    ensures s[i..k] == s[i..j] + s[j..k] && s[j..][..k - j] == s[j..k] && s[j..][k - j..] == s[k..]
  {
  }

  /** The eight header bytes have been taken. */
  lemma HeaderTaken(t: Target, stream: seq<Cell>, buffer: seq<byte>, fds: seq<Fd>, incoming: seq<Cell>)
    requires Taken(stream, 0, 8, buffer, fds, incoming)
    ensures 8 <= |stream| && |buffer| == 8 && incoming == stream[8..] && fds == FdsIn(stream[..8])
    ensures ParseHeader(t, buffer) == HeaderOf(t, stream)
  {
    hide FdsIn, ParseHeader;
  }

  /** All the bytes that the header asks for have been taken. */
  lemma PayloadTaken(t: Target, stream: seq<Cell>, payload: seq<byte>, fds: seq<Fd>, incoming: seq<Cell>)
    requires 8 <= |stream| && HeaderError(HeaderOf(t, stream)) == None
    requires Taken(stream, 8, HeaderOf(t, stream).size - 8, payload, fds, incoming)
    ensures var h, r := HeaderOf(t, stream), Receive(t, stream);
            && h.objectId != 0
            && r == Received(Delivered(Message(h.objectId, h.opcode, payload, fds)), h.size)
            && incoming == stream[r.consumed..]
  {
    hide FdsIn, ParseHeader, BytesOf;
    var size := HeaderOf(t, stream).size;
    assert stream[..size][8..] == stream[8..size];
  }

  /** The stream has ended before that. */
  lemma PayloadMissing(t: Target, stream: seq<Cell>, n: nat, payload: seq<byte>, fds: seq<Fd>)
    requires 8 <= |stream| && HeaderError(HeaderOf(t, stream)) == None
    requires Taken(stream, 8, n, payload, fds, []) && n < HeaderOf(t, stream).size - 8
    ensures Receive(t, stream) == Received(SpinsForever, |stream|)
  {
    hide FdsIn, ParseHeader, BytesOf;
    assert stream[8 + n..] == [];
  }

  class Connection {
    const target: Target
    const socket: Socket

    constructor (target: Target, socket: Socket)
      ensures this.target == target && this.socket == socket
    {
      this.target, this.socket := target, socket;
    }

    /** Puts exactly the packet's frame on the stream, in however many pieces, or nothing at all. */
    method SendPacket(packet: Packets.Packet) returns (r: Result<()>)
      requires packet.target == target
      modifies socket`outgoing
      ensures r == if Fits(packet.Contents()) then Ok(())
                   else Err(PacketTooLong(TotalBytes(packet.Contents()), MAX_SIZE))
      ensures socket.outgoing == old(socket.outgoing)
                                 + if Fits(packet.Contents()) then Frame(target, packet.Contents()) else []
    {
      hide Cells, Serialized;
      var serialized := packet.Serialize();
      if serialized.Err? {
        return Err(serialized.error);
      }
      var data := serialized.value;
      ghost var before := socket.outgoing;
      var totalSent := socket.SendWithFds(data, packet.fds);
      FirstPiece(data, packet.fds, totalSent);
      while totalSent < |data|
        invariant 1 <= totalSent <= |data|
        invariant socket.outgoing == before + Cells(data, packet.fds)[..totalSent]
        decreases |data| - totalSent
      {
        var nowSent := socket.Send(data[totalSent..]);
        NextPiece(before, data, packet.fds, totalSent, nowSent);
        totalSent := totalSent + nowSent;
      }
      assert Cells(data, packet.fds)[..totalSent] == Cells(data, packet.fds);
      return Ok(());
    }

    /** Takes one packet off the stream, or fails, or never returns; in each case exactly the cells that
        the framing says are gone from the stream. */
    method RecvPacket() returns (outcome: Outcome)
      modifies socket`incoming
      ensures outcome == Receive(target, old(socket.incoming)).outcome
      ensures socket.incoming == old(socket.incoming)[Receive(target, old(socket.incoming)).consumed..]
    {
      hide BytesOf, FdsIn, ParseHeader, PacketOf;
      ghost var stream := socket.incoming;
      NothingTaken(stream, 0, FdsIn(stream[..0]));
      assert FdsIn(stream[..0]) == [] by {
        NoFds(stream[..0]);
      }
      var fixedBuf := new byte[8](i => 0);
      var totalReceived, fds := socket.RecvWithFds(fixedBuf, 0);
      if totalReceived == 0 && |fds| == 0 {
        return Rejected(UnexpectedEof);
      }
      TakenMore(stream, 0, 0, [], [], stream, totalReceived);
      while totalReceived < fixedBuf.Length
        invariant 0 < totalReceived <= fixedBuf.Length == 8
        invariant Taken(stream, 0, totalReceived, fixedBuf[..totalReceived], fds, socket.incoming)
        invariant fresh(fixedBuf)
        decreases fixedBuf.Length - totalReceived
      {
        ghost var buffer, waiting := fixedBuf[..totalReceived], socket.incoming;
        var nowReceived, nowFds := socket.RecvWithFds(fixedBuf, totalReceived);
        if nowReceived == 0 && |nowFds| == 0 {
          return Rejected(UnexpectedEof);
        }
        TakenMore(stream, 0, totalReceived, buffer, fds, waiting, nowReceived);
        Filled(fixedBuf, buffer, totalReceived, nowReceived);
        fds := fds + nowFds;
        totalReceived := totalReceived + nowReceived;
      }
      assert fixedBuf[..] == fixedBuf[..8];
      HeaderTaken(target, stream, fixedBuf[..], fds, socket.incoming);
      var header := ParseHeader(target, fixedBuf[..]);
      if header.size < 8 {
        return Rejected(PacketTooShort(header.size, 8));
      }
      if header.objectId == 0 {
        return Rejected(ZeroObjectId);
      }
      outcome := RecvPayload(header, fds, stream);
    }

    /** The second half of `recv_packet`: `size - 8` payload bytes in any number of pieces. */
    method RecvPayload(header: Header, headerFds: seq<Fd>, ghost stream: seq<Cell>) returns (outcome: Outcome)
      requires 8 <= |stream| && header == HeaderOf(target, stream) && HeaderError(header) == None
      requires socket.incoming == stream[8..] && headerFds == FdsIn(stream[..8])
      modifies socket`incoming
      ensures outcome == Receive(target, stream).outcome
      ensures socket.incoming == stream[Receive(target, stream).consumed..]
    {
      hide BytesOf, FdsIn, HeaderOf, Receive, Taken;
      NothingTaken(stream, 8, headerFds);
      var payload := new byte[header.size - 8](i => 0);
      var totalReceived, fds := socket.RecvWithFds(payload, 0);
      TakenMore(stream, 8, 0, [], headerFds, stream[8..], totalReceived);
      Filled(payload, [], 0, totalReceived);
      fds := headerFds + fds;
      while totalReceived < payload.Length
        invariant totalReceived <= payload.Length
        invariant Taken(stream, 8, totalReceived, payload[..totalReceived], fds, socket.incoming)
        invariant fresh(payload)
        decreases payload.Length - totalReceived
      {
        ghost var buffer, waiting := payload[..totalReceived], socket.incoming;
        var nowReceived, nowFds := socket.RecvWithFds(payload, totalReceived);
        if nowReceived == 0 {
          // At end of stream every further iteration is this one again: the loop never exits.
          PayloadMissing(target, stream, totalReceived, buffer, fds);
          assert socket.incoming == waiting == stream[|stream|..];
          return SpinsForever;
        }
        TakenMore(stream, 8, totalReceived, buffer, fds, waiting, nowReceived);
        Filled(payload, buffer, totalReceived, nowReceived);
        fds := fds + nowFds;
        totalReceived := totalReceived + nowReceived;
      }
      assert payload[..] == payload[..totalReceived];
      PayloadTaken(target, stream, payload[..], fds, socket.incoming);
      return Delivered(Message(header.objectId, header.opcode, payload[..], fds));
    }
  }

  lemma Filled(buf: array<byte>, front: seq<byte>, from: nat, n: nat)
    requires from + n <= buf.Length && buf[..from] == front
    ensures buf[..from + n] == front + buf[from..from + n]
  {
  }
}
