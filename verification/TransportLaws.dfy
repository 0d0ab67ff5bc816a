/** Whatever the interleaving and the fragmentation, packets come out as they went in. */
module TransportLaws {
  import opened Base
  import opened Codec
  import opened Framing
  import opened Transport

  // ---------- whole frames in a row ----------

  predicate AllFit(log: seq<Message>)
  {
    forall i :: 0 <= i < |log| ==> Fits(log[i])
  }

  function StreamOf(t: Target, log: seq<Message>): seq<Cell>
    requires AllFit(log)
  {
    if log == [] then [] else StreamOf(t, log[..|log| - 1]) + Frame(t, log[|log| - 1])
  }

  /** The frames up to some packet stand at the front, that packet's frame right after them. */
  lemma {:induction false} StreamAt(t: Target, log: seq<Message>, r: nat)
    requires AllFit(log) && r <= |log|
    ensures StreamOf(t, log[..r]) <= StreamOf(t, log)
    ensures r < |log| ==> StreamOf(t, log[..r]) + Frame(t, log[r]) <= StreamOf(t, log)
  {
    hide Frame;
    if r == |log| {
      assert log[..r] == log;
    } else {
      var init := log[..|log| - 1];
      if r == |log| - 1 {
      } else {
        StreamAt(t, init, r);
        assert init[..r] == log[..r];
      }
    }
  }

  /** Of two things that stand in the same place of a sequence, the shorter begins the longer. */
  lemma SamePlace<T>(front: seq<T>, x: seq<T>, y: seq<T>, all: seq<T>)
    requires front + x <= all && front + y <= all && |x| <= |y|
    ensures x == y[..|x|]
  {
    forall i | 0 <= i < |x| ensures x[i] == y[i] {
      assert (front + x)[|front| + i] == all[|front| + i] == (front + y)[|front| + i];
    }
  }

  /** What follows the frames of the first `r` packets, if it is no longer than one frame, is the
      beginning of the next packet's frame. */
  lemma PartOfFrame(t: Target, log: seq<Message>, r: nat, part: seq<Cell>)
    requires AllFit(log) && r <= |log|
    requires StreamOf(t, log[..r]) + part <= StreamOf(t, log)
    ensures part != [] ==> r < |log|
    ensures r < |log| && |part| <= TotalBytes(log[r]) ==> part == Frame(t, log[r])[..|part|]
  {
    hide Frame;
    StreamAt(t, log, r);
    var front, all := StreamOf(t, log[..r]), StreamOf(t, log);
    if r == |log| {
      assert log[..r] == log;
    } else if |part| <= TotalBytes(log[r]) {
      SamePlace(front, part, Frame(t, log[r]), all);
    }
  }

  /** The bytes and descriptors of the beginning of a frame. */
  lemma FrameHeader(t: Target, m: Message)
    requires Fits(m)
    ensures ParseHeader(t, BytesOf(Frame(t, m)[..8])) == Header(m.objectId, TotalBytes(m), m.opcode % 0x100)
    ensures HeaderError(ParseHeader(t, BytesOf(Frame(t, m)[..8]))) == None
  {
    HeaderRoundTrip(t, m);
    assert BytesOf(Frame(t, m)[..8]) == Serialized(t, m)[..8];
  }

  lemma FrameBody(t: Target, m: Message)
    requires Fits(m)
    ensures BytesOf(Frame(t, m)[8..]) == m.payload
    ensures FdsIn(Frame(t, m)) == m.fds
  {
    var b := Serialized(t, m);
    assert BytesOf(Frame(t, m)[8..]) == m.payload;
    FdsInCells(b, m.fds, |b|);
    assert Frame(t, m)[..|b|] == Frame(t, m);
  }

  // ---------- the sending half ----------

  /** The stream holds whole frames in send-lock order, the last one cut off where its sender stands. */
  predicate Sent(t: Target, log: seq<Message>, written: seq<Cell>, holder: Option<SendTask>)
  {
    && AllFit(log)
    && match holder
       case None => written == StreamOf(t, log)
       case Some(task) =>
         && task.Sending? && log != [] && task.message == log[|log| - 1]
         && task.sent <= TotalBytes(task.message)
         && written == StreamOf(t, log[..|log| - 1]) + Frame(t, task.message)[..task.sent]
  }

  function SendHolder(s: State): Option<SendTask>
  {
    match s.sendLock
    case Some(id) => if id in s.senders then Some(s.senders[id]) else None
    case None => None
  }

  ghost predicate SendInv(t: Target, s: State)
  {
    && (forall id :: id in s.senders && s.senders[id].SendWaiting? ==> Fits(s.senders[id].packet))
    && (forall id: TaskId :: IsSending(s, id) ==> s.sendLock == Some(id))
    && (s.sendLock.Some? ==> IsSending(s, s.sendLock.value))
    && Sent(t, s.sendLog, s.written, SendHolder(s))
  }

  lemma ChunkOfFrame(t: Target, m: Message, sent: nat, count: nat)
    requires Fits(m) && sent + count <= TotalBytes(m)
    ensures Chunk(t, m, sent, count) == Frame(t, m)[sent..sent + count]
  {
  }

  lemma ExtendPrefix<T>(a: seq<T>, b: seq<T>, n: nat, k: nat)
    requires n + k <= |b|
    ensures a + b[..n] + b[n..n + k] == a + b[..n + k]
  {
    assert b[..n + k] == b[..n] + b[n..n + k];
  }

  lemma SentChunk(t: Target, log: seq<Message>, written: seq<Cell>, m: Message, sent: nat, count: nat)
    requires Sent(t, log, written, Some(Sending(m, sent))) && sent + count <= TotalBytes(m)
    ensures Sent(t, log, written + Chunk(t, m, sent, count), Some(Sending(m, sent + count)))
  {
    hide Frame, StreamOf, Chunk;
    ChunkOfFrame(t, m, sent, count);
    ExtendPrefix(StreamOf(t, log[..|log| - 1]), Frame(t, m), sent, count);
  }

  lemma SentAcquire(t: Target, log: seq<Message>, written: seq<Cell>, m: Message)
    requires Sent(t, log, written, None) && Fits(m)
    ensures Sent(t, log + [m], written, Some(Sending(m, 0)))
  {
    var longer := log + [m];
    assert longer[..|longer| - 1] == log;
  }

  lemma SentRelease(t: Target, log: seq<Message>, written: seq<Cell>, m: Message, sent: nat)
    requires Sent(t, log, written, Some(Sending(m, sent))) && sent >= TotalBytes(m)
    ensures Sent(t, log, written, None)
  {
    assert Frame(t, m)[..sent] == Frame(t, m);
  }

  lemma SentPrefix(t: Target, log: seq<Message>, written: seq<Cell>, holder: Option<SendTask>)
    requires Sent(t, log, written, holder)
    ensures written <= StreamOf(t, log)
  {
    if holder.Some? {
      var m := holder.value.message;
      assert StreamOf(t, log) == StreamOf(t, log[..|log| - 1]) + Frame(t, m);
    }
  }

  lemma LockHolderStep(t: Target, s: State, a: Action)
    requires SendInv(t, s) && Enabled(t, s, a) && (a.AcquireSend? || a.SendChunk? || a.ReleaseSend?)
    ensures SendInv(t, Apply(t, s, a))
  {
    hide Sent, Chunk, Serialized;
    match a
    case AcquireSend(id) =>
      SentAcquire(t, s.sendLog, s.written, s.senders[id].packet);
    case SendChunk(id, count) =>
      SentChunk(t, s.sendLog, s.written, s.senders[id].message, s.senders[id].sent, count);
    case ReleaseSend(id) =>
      SentRelease(t, s.sendLog, s.written, s.senders[id].message, s.senders[id].sent);
  }

  lemma OtherSendStep(t: Target, s: State, a: Action)
    requires SendInv(t, s) && Enabled(t, s, a) && !a.AcquireSend? && !a.SendChunk? && !a.ReleaseSend?
    ensures SendInv(t, Apply(t, s, a))
  {
    hide Sent, BytesOf, FdsIn, ParseHeader, HeaderError;
  }

  /** Every step keeps the sending half in order. */
  lemma SendStep(t: Target, s: State, a: Action)
    requires SendInv(t, s) && Enabled(t, s, a)
    ensures SendInv(t, Apply(t, s, a))
  {
    hide SendInv, Apply;
    if a.AcquireSend? || a.SendChunk? || a.ReleaseSend? {
      LockHolderStep(t, s, a);
    } else {
      OtherSendStep(t, s, a);
    }
  }

  /** The send loop makes progress: each call of `send` leaves fewer bytes to send. */
  lemma SendProgress(t: Target, s: State, id: TaskId, count: nat)
    requires Enabled(t, s, SendChunk(id, count))
    ensures var after := Apply(t, s, SendChunk(id, count)).senders[id];
            after.Sending? && 0 <= TotalBytes(after.message) - after.sent
                              < TotalBytes(s.senders[id].message) - s.senders[id].sent
  {
  }

  // ---------- the receiving half ----------

  /** What the receive-lock holder has in hand are the cells `part` taken since the last whole frame. */
  predicate InHand(t: Target, log: seq<Message>, r: nat, part: seq<Cell>, task: RecvTask)
    requires AllFit(log)
  {
    match task
    case ReadingHeader(buf, fds) => |part| <= 8 && buf == BytesOf(part) && fds == FdsIn(part)
    case ReadingNothing(header, fds) =>
      && r < |log| && TotalBytes(log[r]) == 8
      && header == Header(log[r].objectId, 8, log[r].opcode % 0x100)
      && |part| == 8 && fds == FdsIn(part)
    case ReadingPayload(header, payload, fds) =>
      && r < |log|
      && header == Header(log[r].objectId, TotalBytes(log[r]), log[r].opcode % 0x100)
      && 8 <= |part| <= TotalBytes(log[r])
      && payload == BytesOf(part[8..]) && fds == FdsIn(part)
    case _ => false
  }

  /** The first `r` outcomes are the first `r` packets sent; any others are end-of-stream errors. */
  predicate InOrder(log: seq<Message>, outcomes: seq<Outcome>, r: nat)
  {
    && r <= |log| && r <= |outcomes|
    && (forall i :: 0 <= i < r ==> outcomes[i] == Delivered(Masked(log[i])))
    && (forall i :: r <= i < |outcomes| ==> outcomes[i] == Rejected(UnexpectedEof))
  }

  predicate Taken(t: Target, log: seq<Message>, taken: seq<Cell>, r: nat, holder: Option<RecvTask>)
    requires AllFit(log) && r <= |log|
  {
    var front := StreamOf(t, log[..r]);
    front <= taken &&
    match holder
    case None => taken == front
    case Some(task) => InHand(t, log, r, taken[|front|..], task)
  }

  predicate AtEnd(s: State)
  {
    s.queue == [] && !s.open
  }

  function RecvHolder(s: State): Option<RecvTask>
  {
    match s.recvLock
    case Some(id) => if id in s.receivers then Some(s.receivers[id]) else None
    case None => None
  }

  predicate IsReading(s: State, id: TaskId)
  {
    IsReadingHeader(s, id) || IsReadingNothing(s, id) || IsReadingPayload(s, id)
  }

  ghost predicate RecvInv(t: Target, s: State)
  {
    && AllFit(s.sendLog)
    && s.taken + s.queue == s.written
    && (forall id: TaskId :: IsReading(s, id) ==> s.recvLock == Some(id))
    && (s.recvLock.Some? ==> IsReading(s, s.recvLock.value))
    && s.acquired == |s.outcomes| + (if s.recvLock.Some? then 1 else 0)
    && s.delivered <= |s.sendLog| && s.delivered <= |s.outcomes|
    && InOrder(s.sendLog, s.outcomes, s.delivered)
    && (s.delivered == |s.outcomes| ==> Taken(t, s.sendLog, s.taken, s.delivered, RecvHolder(s)))
    && (s.delivered < |s.outcomes| ==>
          AtEnd(s) && (s.recvLock.Some? ==> RecvHolder(s) == Some(ReadingHeader([], []))))
  }

  ghost predicate Inv(t: Target, s: State)
  {
    SendInv(t, s) && RecvInv(t, s)
  }

  lemma TakenLogGrows(t: Target, log: seq<Message>, taken: seq<Cell>, r: nat, holder: Option<RecvTask>, m: Message)
    requires AllFit(log) && r <= |log| && Fits(m) && Taken(t, log, taken, r, holder)
    ensures Taken(t, log + [m], taken, r, holder)
  {
    assert (log + [m])[..r] == log[..r];
  }

  lemma TakenAcquire(t: Target, log: seq<Message>, taken: seq<Cell>, r: nat)
    requires AllFit(log) && r <= |log| && Taken(t, log, taken, r, None)
    ensures Taken(t, log, taken, r, Some(ReadingHeader([], [])))
  {
    assert taken[|StreamOf(t, log[..r])|..] == [];
  }

  lemma TakenNothing(t: Target, log: seq<Message>, taken: seq<Cell>, r: nat, h: Header, fds: seq<Fd>)
    requires AllFit(log) && r <= |log| && Taken(t, log, taken, r, Some(ReadingNothing(h, fds)))
    ensures Taken(t, log, taken, r, Some(ReadingPayload(h, [], fds)))
  {
    assert BytesOf(taken[|StreamOf(t, log[..r])|..][8..]) == [];
  }

  lemma InOrderExtends(log: seq<Message>, outcomes: seq<Outcome>)
    requires InOrder(log, outcomes, |outcomes|) && |outcomes| < |log|
    ensures InOrder(log, outcomes + [Delivered(Masked(log[|outcomes|]))], |outcomes| + 1)
  {
  }

  lemma InHandHeader(t: Target, log: seq<Message>, r: nat, part: seq<Cell>, buf: seq<byte>, fds: seq<Fd>,
      front: seq<Cell>)
    requires AllFit(log) && InHand(t, log, r, part, ReadingHeader(buf, fds)) && |buf| + |front| <= 8
    ensures InHand(t, log, r, part + front, ReadingHeader(buf + BytesOf(front), fds + FdsIn(front)))
  {
    hide BytesOf, FdsIn;
    BytesOfConcat(part, front);
    FdsInConcat(part, front);
  }

  lemma InHandPayload(t: Target, log: seq<Message>, r: nat, part: seq<Cell>,
                      h: Header, p: seq<byte>, fds: seq<Fd>, front: seq<Cell>)
    requires AllFit(log) && InHand(t, log, r, part, ReadingPayload(h, p, fds)) && |p| + |front| <= h.size - 8
    ensures InHand(t, log, r, part + front, ReadingPayload(h, p + BytesOf(front), fds + FdsIn(front)))
  {
    hide BytesOf, FdsIn;
    DropConcat(part, front, 8);
    BytesOfConcat(part[8..], front);
    FdsInConcat(part, front);
  }

  /** Taking more cells extends what is in hand. */
  lemma TakenMore(t: Target, log: seq<Message>, taken: seq<Cell>, r: nat, task: RecvTask, front: seq<Cell>)
    requires AllFit(log) && r <= |log| && Taken(t, log, taken, r, Some(task))
    requires task.ReadingHeader? ==> |task.buf| + |front| <= 8
    requires task.ReadingPayload? ==> |task.payload| + |front| <= task.header.size - 8
    ensures task.ReadingHeader? ==>
            Taken(t, log, taken + front, r, Some(ReadingHeader(task.buf + BytesOf(front), task.fds + FdsIn(front))))
    ensures task.ReadingPayload? ==>
            Taken(t, log, taken + front, r,
                  Some(ReadingPayload(task.header, task.payload + BytesOf(front), task.collected + FdsIn(front))))
  {
    hide StreamOf, BytesOf, FdsIn, InHand;
    var n := |StreamOf(t, log[..r])|;
    assert (taken + front)[n..] == taken[n..] + front;
    if task.ReadingHeader? {
      InHandHeader(t, log, r, taken[n..], task.buf, task.fds, front);
    } else if task.ReadingPayload? {
      InHandPayload(t, log, r, taken[n..], task.header, task.payload, task.collected, front);
    }
  }

  /** Eight header bytes in hand are always those of a packet that was sent, and are accepted. */
  lemma TakenFinishHeader(t: Target, log: seq<Message>, taken: seq<Cell>, r: nat, buf: seq<byte>, fds: seq<Fd>)
    requires AllFit(log) && r <= |log| && taken <= StreamOf(t, log)
    requires Taken(t, log, taken, r, Some(ReadingHeader(buf, fds))) && |buf| == 8
    ensures HeaderError(ParseHeader(t, buf)) == None
    ensures var h := ParseHeader(t, buf);
            Taken(t, log, taken, r, Some(if h.size == 8 then ReadingNothing(h, fds) else ReadingPayload(h, [], fds)))
  {
    hide Frame, StreamOf, BytesOf, FdsIn, ParseHeader;
    var front := StreamOf(t, log[..r]);
    var part := taken[|front|..];
    assert front + part == taken;
    PartOfFrame(t, log, r, part);
    FrameHeader(t, log[r]);
    assert |BytesOf(part[8..])| == 0;
  }

  lemma WholeInHand(t: Target, log: seq<Message>, r: nat, part: seq<Cell>, h: Header, p: seq<byte>, fds: seq<Fd>)
    requires AllFit(log) && InHand(t, log, r, part, ReadingPayload(h, p, fds)) && |p| == h.size - 8
    requires part == Frame(t, log[r])[..|part|]
    ensures part == Frame(t, log[r]) && h.objectId == log[r].objectId
    ensures Message(log[r].objectId, h.opcode, p, fds) == Masked(log[r])
  {
    FrameBody(t, log[r]);
  }

  /** A whole payload in hand is the next packet sent. */
  lemma TakenRelease(t: Target, log: seq<Message>, taken: seq<Cell>, r: nat, h: Header, p: seq<byte>, fds: seq<Fd>)
    requires AllFit(log) && r <= |log| && taken <= StreamOf(t, log)
    requires Taken(t, log, taken, r, Some(ReadingPayload(h, p, fds))) && |p| == h.size - 8
    ensures r < |log| && h.objectId == log[r].objectId
    ensures Message(log[r].objectId, h.opcode, p, fds) == Masked(log[r])
    ensures Taken(t, log, taken, r + 1, None)
  {
    hide Frame, BytesOf, FdsIn;
    var front := StreamOf(t, log[..r]);
    var part := taken[|front|..];
    assert front + part == taken;
    PartOfFrame(t, log, r, part);
    WholeInHand(t, log, r, part, h, p, fds);
    assert log[..r + 1][..r] == log[..r];
  }

  lemma TakenIsPrefix(t: Target, s: State)
    requires Inv(t, s)
    ensures s.taken <= StreamOf(t, s.sendLog)
  {
    SentPrefix(t, s.sendLog, s.written, SendHolder(s));
    assert s.taken <= s.written;
  }

  lemma TakeKeepsStream(s: State, count: nat)
    requires count <= |s.queue| && s.taken + s.queue == s.written
    ensures Take(s, count).taken + Take(s, count).queue == s.written
  {
    assert s.queue == s.queue[..count] + s.queue[count..];
  }

  lemma RecvStepAcquireSend(t: Target, s: State, id: TaskId)
    requires Inv(t, s) && Enabled(t, s, AcquireSend(id))
    ensures RecvInv(t, Apply(t, s, AcquireSend(id)))
  {
    hide Taken, Sent, InHand;
    var next, m := Apply(t, s, AcquireSend(id)), s.senders[id].packet;
    assert forall i: TaskId :: IsReading(next, i) == IsReading(s, i);
    if s.delivered == |s.outcomes| {
      TakenLogGrows(t, s.sendLog, s.taken, s.delivered, RecvHolder(s), m);
    }
  }

  lemma RecvStepSend(t: Target, s: State, a: Action)
    requires Inv(t, s) && Enabled(t, s, a)
    requires a.StartSend? || a.SendChunk? || a.ReleaseSend? || a.CloseStream?
    ensures RecvInv(t, Apply(t, s, a))
  {
    hide Taken, Chunk, Sent, InOrder;
    var next := Apply(t, s, a);
    assert forall id: TaskId :: IsReading(next, id) == IsReading(s, id);
    assert s.delivered < |s.outcomes| ==> !a.SendChunk?;
    assert a.SendChunk? ==>
             next.written == s.written + Chunk(t, s.senders[a.id].message, s.senders[a.id].sent, a.count);
  }

  lemma RecvStepTake(t: Target, s: State, a: Action)
    requires Inv(t, s) && Enabled(t, s, a) && (a.TakeHeader? || a.TakePayload?)
    ensures RecvInv(t, Apply(t, s, a))
  {
    hide SendInv, StreamOf, Taken, Sent, BytesOf, FdsIn;
    var task, front := s.receivers[a.id], s.queue[..a.count];
    assert IsReading(s, a.id) && s.recvLock == Some(a.id);
    TakeKeepsStream(s, a.count);
    TakenMore(t, s.sendLog, s.taken, s.delivered, task, front);
    var next := Apply(t, s, a);
    assert forall id: TaskId :: IsReading(next, id) == IsReading(s, id);
  }

  lemma RecvStepFinishHeader(t: Target, s: State, id: TaskId)
    requires Inv(t, s) && Enabled(t, s, FinishHeader(id))
    ensures RecvInv(t, Apply(t, s, FinishHeader(id)))
  {
    hide SendInv, StreamOf, Taken, Sent, ParseHeader, InOrder;
    var task := s.receivers[id];
    assert IsReading(s, id) && s.recvLock == Some(id);
    TakenIsPrefix(t, s);
    TakenFinishHeader(t, s.sendLog, s.taken, s.delivered, task.buf, task.fds);
    var next := Apply(t, s, FinishHeader(id));
    assert forall i: TaskId :: IsReading(next, i) == IsReading(s, i);
  }

  lemma RecvStepRelease(t: Target, s: State, id: TaskId)
    requires Inv(t, s) && Enabled(t, s, ReleaseRecv(id))
    ensures RecvInv(t, Apply(t, s, ReleaseRecv(id)))
  {
    hide SendInv, StreamOf, Taken, Sent, InOrder, Masked;
    var task := s.receivers[id];
    assert IsReading(s, id) && s.recvLock == Some(id);
    TakenIsPrefix(t, s);
    TakenRelease(t, s.sendLog, s.taken, s.delivered, task.header, task.payload, task.collected);
    InOrderExtends(s.sendLog, s.outcomes);
    var next := Apply(t, s, ReleaseRecv(id));
    assert forall i: TaskId :: IsReading(next, i) ==> IsReading(s, i) && i != id;
  }

  lemma RecvStepOther(t: Target, s: State, a: Action)
    requires Inv(t, s) && Enabled(t, s, a)
    requires a.StartRecv? || a.AcquireRecv? || a.HeaderAtEnd? || a.ReadNothing? || a.PayloadAtEnd?
    ensures RecvInv(t, Apply(t, s, a))
  {
    hide SendInv, StreamOf, Taken, Sent;
    var next := Apply(t, s, a);
    assert forall id: TaskId :: IsReading(next, id) ==> id == a.id || IsReading(s, id);
    if a.HeaderAtEnd? {
      assert IsReading(s, a.id) && s.recvLock == Some(a.id) && !IsReading(next, a.id);
    }
    if a.AcquireRecv? {
      assert IsReading(next, a.id);
    }
    if a.ReadNothing? {
      assert IsReading(s, a.id) && s.recvLock == Some(a.id);
      TakenNothing(t, s.sendLog, s.taken, s.delivered, s.receivers[a.id].emptyHeader, s.receivers[a.id].gathered);
    }
    if a.AcquireRecv? && s.delivered == |s.outcomes| {
      TakenAcquire(t, s.sendLog, s.taken, s.delivered);
    }
  }

  lemma StepKeepsInv(t: Target, s: State, a: Action)
    requires Inv(t, s) && Enabled(t, s, a)
    ensures Inv(t, Apply(t, s, a))
  {
    hide Apply, SendInv, RecvInv;
    SendStep(t, s, a);
    if a.AcquireSend? {
      RecvStepAcquireSend(t, s, a.id);
    } else if a.StartSend? || a.SendChunk? || a.ReleaseSend? || a.CloseStream? {
      RecvStepSend(t, s, a);
    } else if a.TakeHeader? || a.TakePayload? {
      RecvStepTake(t, s, a);
    } else if a.FinishHeader? {
      RecvStepFinishHeader(t, s, a.id);
    } else if a.ReleaseRecv? {
      RecvStepRelease(t, s, a.id);
    } else {
      RecvStepOther(t, s, a);
    }
  }

  lemma {:induction false} RunKeepsInv(t: Target, s: State, actions: seq<Action>)
    requires Inv(t, s) && IsRun(t, s, actions)
    ensures Inv(t, After(t, s, actions))
    decreases |actions|
  {
    hide Inv, Apply, Enabled;
    if actions != [] {
      StepKeepsInv(t, s, actions[0]);
      RunKeepsInv(t, Apply(t, s, actions[0]), actions[1..]);
    }
  }

  lemma InitialInv(t: Target)
    ensures Inv(t, INITIAL)
  {
  }

  // ---------- the theorems ----------

  /** In every state of every run, the outcomes of `recv_packet`, in the order in which the receive lock
      was taken, are the packets sent, in the order in which the send lock was taken: equal object ID,
      payload and descriptors, and the opcode masked with 0xFF. Only after the stream has been closed and
      emptied can there be other outcomes, and those are end-of-stream errors. */
  lemma EndToEnd(t: Target, actions: seq<Action>)
    requires IsRun(t, INITIAL, actions)
    ensures var s := After(t, INITIAL, actions);
            && InOrder(s.sendLog, s.outcomes, s.delivered)
            && s.acquired == |s.outcomes| + (if s.recvLock.Some? then 1 else 0)
            && (s.delivered < |s.outcomes| ==> AtEnd(s))
  {
    InitialInv(t);
    RunKeepsInv(t, INITIAL, actions);
  }

  /** While the stream is open, every finished receive delivered a packet. */
  lemma OpenStreamDelivers(t: Target, actions: seq<Action>)
    requires IsRun(t, INITIAL, actions) && After(t, INITIAL, actions).open
    ensures var s := After(t, INITIAL, actions);
            && |s.outcomes| <= |s.sendLog|
            && forall i :: 0 <= i < |s.outcomes| ==> s.outcomes[i] == Delivered(Masked(s.sendLog[i]))
  {
    EndToEnd(t, actions);
  }

  /** What is ever written is, in every reachable state, whole frames in send-lock order followed by the
      beginning of the lock holder's frame; without a holder there is nothing after the whole frames. */
  lemma WrittenIsFrames(t: Target, actions: seq<Action>)
    requires IsRun(t, INITIAL, actions)
    ensures var s := After(t, INITIAL, actions);
            && Sent(t, s.sendLog, s.written, SendHolder(s))
            && s.taken + s.queue == s.written
            && (s.sendLock.Some? <==> SendHolder(s).Some?)
  {
    InitialInv(t);
    RunKeepsInv(t, INITIAL, actions);
  }

  // ---------- end of stream ----------

  /** The receiver `id` is inside the payload loop and what is left of a closed stream is too little. */
  predicate Starved(s: State, id: TaskId)
  {
    && !s.open && IsReadingPayload(s, id) && s.recvLock == Some(id)
    && |s.queue| < Missing(s.receivers[id])
  }

  lemma StarvedStep(t: Target, s: State, a: Action, id: TaskId)
    requires Inv(t, s) && Enabled(t, s, a) && Starved(s, id)
    ensures Starved(Apply(t, s, a), id)
  {
    hide SendInv, Taken, InOrder, Chunk;
    assert forall i: TaskId :: IsReading(s, i) ==> i == id;
    if a.TakeHeader? || a.HeaderAtEnd? || a.FinishHeader? || a.ReadNothing? || a.TakePayload? || a.PayloadAtEnd?
       || a.ReleaseRecv? {
      assert IsReading(s, a.id);
    }
  }

  /** The payload loop has no end-of-stream exit: once starved, the receiver never leaves the loop and
      never gives up the receive lock, whatever any task does. */
  lemma {:induction false} StarvedForever(t: Target, s: State, actions: seq<Action>, id: TaskId)
    requires Inv(t, s) && IsRun(t, s, actions) && Starved(s, id)
    ensures Starved(After(t, s, actions), id)
    decreases |actions|
  {
    hide Inv, Apply, Enabled, Starved;
    if actions != [] {
      StepKeepsInv(t, s, actions[0]);
      StarvedStep(t, s, actions[0], id);
      StarvedForever(t, Apply(t, s, actions[0]), actions[1..], id);
    }
  }

  ghost predicate CanFinish(t: Target, s: State, id: TaskId)
  {
    exists actions :: IsRun(t, s, actions) && IsDone(After(t, s, actions), id)
  }

  predicate IsDone(s: State, id: TaskId)
  {
    id in s.receivers && s.receivers[id].RecvDone?
  }

  lemma ReadingPayloadInOrder(t: Target, s: State, id: TaskId)
    requires Inv(t, s) && IsReadingPayload(s, id)
    ensures 0 <= Missing(s.receivers[id]) && s.receivers[id].header.objectId != 0
  {
    assert IsReading(s, id);
  }

  lemma RunOne(t: Target, s: State, a: Action)
    requires Enabled(t, s, a)
    ensures IsRun(t, s, [a]) && After(t, s, [a]) == Apply(t, s, a)
  {
    assert [a][1..] == [];
  }

  lemma RunTwo(t: Target, s: State, a: Action, b: Action)
    requires Enabled(t, s, a) && Enabled(t, Apply(t, s, a), b)
    ensures IsRun(t, s, [a, b]) && After(t, s, [a, b]) == Apply(t, Apply(t, s, a), b)
  {
    assert [a, b][1..] == [b];
    RunOne(t, Apply(t, s, a), b);
  }

  lemma TakesTheRest(t: Target, s: State, id: TaskId)
    requires IsReadingPayload(s, id) && 0 < Missing(s.receivers[id]) <= |s.queue|
    ensures var a := TakePayload(id, Missing(s.receivers[id]));
            && Enabled(t, s, a)
            && IsReadingPayload(Apply(t, s, a), id) && Missing(Apply(t, s, a).receivers[id]) == 0
            && Apply(t, s, a).receivers[id].header == s.receivers[id].header
  {
    hide FdsIn;
  }

  lemma ReleaseIsDone(t: Target, s: State, id: TaskId)
    requires IsReadingPayload(s, id) && Missing(s.receivers[id]) == 0 && s.receivers[id].header.objectId != 0
    ensures Enabled(t, s, ReleaseRecv(id)) && IsDone(Apply(t, s, ReleaseRecv(id)), id)
  {
  }

  lemma SatisfiedCanFinish(t: Target, s: State, id: TaskId)
    requires Inv(t, s) && IsReadingPayload(s, id) && Missing(s.receivers[id]) <= |s.queue|
    ensures CanFinish(t, s, id)
  {
    ReadingPayloadInOrder(t, s, id);
    hide Inv, Apply, Enabled, IsDone, IsRun, After;
    if Missing(s.receivers[id]) == 0 {
      ReleaseIsDone(t, s, id);
      RunOne(t, s, ReleaseRecv(id));
      assert IsDone(After(t, s, [ReleaseRecv(id)]), id);
    } else {
      var a := TakePayload(id, Missing(s.receivers[id]));
      TakesTheRest(t, s, id);
      ReleaseIsDone(t, Apply(t, s, a), id);
      RunTwo(t, s, a, ReleaseRecv(id));
      assert IsDone(After(t, s, [a, ReleaseRecv(id)]), id);
    }
  }

  lemma StarvedCannotFinish(t: Target, s: State, id: TaskId)
    requires Inv(t, s) && Starved(s, id)
    ensures !CanFinish(t, s, id)
  {
    hide Inv;
    forall actions | IsRun(t, s, actions) ensures !IsDone(After(t, s, actions), id) {
      StarvedForever(t, s, actions, id);
    }
  }

  lemma PayloadLoopCanFinish(t: Target, s: State, id: TaskId)
    requires Inv(t, s) && !s.open && IsReadingPayload(s, id)
    ensures CanFinish(t, s, id) <==> Missing(s.receivers[id]) <= |s.queue|
  {
    hide CanFinish, SendInv;
    if Missing(s.receivers[id]) <= |s.queue| {
      SatisfiedCanFinish(t, s, id);
    } else {
      assert IsReading(s, id);
      StarvedCannotFinish(t, s, id);
    }
  }

  /** In every reachable state with a closed stream, a receiver inside the payload loop can still finish
      exactly when the stream holds all the bytes it misses. */
  lemma PayloadLoopTerminates(t: Target, actions: seq<Action>, id: TaskId)
    requires IsRun(t, INITIAL, actions)
    requires var s := After(t, INITIAL, actions); !s.open && IsReadingPayload(s, id)
    ensures var s := After(t, INITIAL, actions); CanFinish(t, s, id) <==> Missing(s.receivers[id]) <= |s.queue|
  {
    hide Inv;
    InitialInv(t);
    RunKeepsInv(t, INITIAL, actions);
    PayloadLoopCanFinish(t, After(t, INITIAL, actions), id);
  }
}
