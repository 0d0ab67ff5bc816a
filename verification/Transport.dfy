/** Any number of tasks sending and receiving over one stream, interleaved in any way: a state machine
    whose steps are the code between two suspension points of `send_packet` and `recv_packet`. */
module Transport {
  import opened Base
  import opened Codec
  import opened Framing

  type TaskId = nat

  datatype SendTask =
    | SendWaiting(packet: Message)
    | Sending(message: Message, sent: nat)
    | SendDone
    | SendRefused(error: Error)

  datatype RecvTask =
    | RecvWaiting
    | ReadingHeader(buf: seq<byte>, fds: seq<Fd>)
    | ReadingNothing(emptyHeader: Header, gathered: seq<Fd>)   // receiving into an empty payload buffer
    | ReadingPayload(header: Header, payload: seq<byte>, collected: seq<Fd>)
    | RecvDone(outcome: Outcome)

  /** The two locks with the lines of tasks that wait for them, which are served first come, first served; the
      stream between them; and the history that the theorems speak about: everything written and taken, the
      packets in send-lock order, how many receivers got the receive lock, and the outcomes in receive-lock
      order. `delivered` counts the outcomes that are packets. */
  datatype State = State(
    queue: seq<Cell>, open: bool,
    sendLock: Option<TaskId>, sendLine: seq<TaskId>,
    recvLock: Option<TaskId>, recvLine: seq<TaskId>,
    senders: map<TaskId, SendTask>, receivers: map<TaskId, RecvTask>,
    sendLog: seq<Message>, written: seq<Cell>, taken: seq<Cell>,
    acquired: nat, outcomes: seq<Outcome>, delivered: nat)

  const INITIAL := State([], true, None, [], None, [], map[], map[], [], [], [], 0, [], 0)

  datatype Action =
    | StartSend(id: TaskId, packet: Message)
    | AcquireSend(id: TaskId)
    | SendChunk(id: TaskId, count: nat)
    | ReleaseSend(id: TaskId)
    | StartRecv(id: TaskId)
    | AcquireRecv(id: TaskId)
    | TakeHeader(id: TaskId, count: nat)
    | HeaderAtEnd(id: TaskId)
    | FinishHeader(id: TaskId)
    | ReadNothing(id: TaskId)
    | TakePayload(id: TaskId, count: nat)
    | PayloadAtEnd(id: TaskId)
    | ReleaseRecv(id: TaskId)
    | CloseStream

  predicate IsSending(s: State, id: TaskId)
  {
    id in s.senders && s.senders[id].Sending?
  }

  predicate IsReadingHeader(s: State, id: TaskId)
  {
    id in s.receivers && s.receivers[id].ReadingHeader?
  }

  predicate IsReadingNothing(s: State, id: TaskId)
  {
    id in s.receivers && s.receivers[id].ReadingNothing?
  }

  predicate IsReadingPayload(s: State, id: TaskId)
  {
    id in s.receivers && s.receivers[id].ReadingPayload?
  }

  /** How many payload bytes a receiver still needs. */
  function Missing(r: RecvTask): int
    requires r.ReadingPayload?
  {
    r.header.size - 8 - |r.payload|
  }

  predicate Enabled(t: Target, s: State, a: Action)
  {
    match a
    case StartSend(id, packet) => id !in s.senders
    case AcquireSend(id) =>
      id in s.senders && s.senders[id].SendWaiting? && s.sendLock == None && s.sendLine != [] && s.sendLine[0] == id
    case SendChunk(id, count) =>
      s.open && IsSending(s, id) && Fits(s.senders[id].message)
      && 1 <= count <= TotalBytes(s.senders[id].message) - s.senders[id].sent
    case ReleaseSend(id) => IsSending(s, id) && s.senders[id].sent >= TotalBytes(s.senders[id].message)
    case StartRecv(id) => id !in s.receivers
    case AcquireRecv(id) =>
      id in s.receivers && s.receivers[id].RecvWaiting? && s.recvLock == None && s.recvLine != [] && s.recvLine[0] == id
    case TakeHeader(id, count) =>
      IsReadingHeader(s, id) && 1 <= count <= 8 - |s.receivers[id].buf| && count <= |s.queue|
    case HeaderAtEnd(id) => IsReadingHeader(s, id) && |s.receivers[id].buf| < 8 && s.queue == [] && !s.open
    case FinishHeader(id) => IsReadingHeader(s, id) && |s.receivers[id].buf| == 8
    case ReadNothing(id) => IsReadingNothing(s, id) && (s.queue != [] || !s.open)   // the socket is readable
    case TakePayload(id, count) =>
      IsReadingPayload(s, id) && 1 <= count <= Missing(s.receivers[id]) && count <= |s.queue|
    case PayloadAtEnd(id) => IsReadingPayload(s, id) && 0 < Missing(s.receivers[id]) && s.queue == [] && !s.open
    case ReleaseRecv(id) =>
      IsReadingPayload(s, id) && Missing(s.receivers[id]) == 0 && s.receivers[id].header.objectId != 0
    case CloseStream => s.open
  }

  /** What one send call puts on the stream: the descriptors go with the first call only. */
  function Chunk(t: Target, m: Message, sent: nat, count: nat): seq<Cell>
    requires Fits(m) && sent + count <= TotalBytes(m)
  {
    var data := Serialized(t, m);
    Cells(data[sent..sent + count], if sent == 0 then m.fds else [])
  }

  function EndRecv(s: State, id: TaskId, outcome: Outcome): State
  {
    s.(receivers := s.receivers[id := RecvDone(outcome)], recvLock := None,
       outcomes := s.outcomes + [outcome],
       delivered := s.delivered + if outcome.Delivered? then 1 else 0)
  }

  function Take(s: State, count: nat): State
    requires count <= |s.queue|
  {
    s.(queue := s.queue[count..], taken := s.taken + s.queue[..count])
  }

  function Apply(t: Target, s: State, a: Action): State
    requires Enabled(t, s, a)
  {
    match a
    case StartSend(id, packet) =>
      if Fits(packet) then s.(senders := s.senders[id := SendWaiting(packet)], sendLine := s.sendLine + [id])
      else s.(senders := s.senders[id := SendRefused(PacketTooLong(TotalBytes(packet), MAX_SIZE))])
    case AcquireSend(id) =>
      var m := s.senders[id].packet;
      s.(sendLock := Some(id), sendLine := s.sendLine[1..], senders := s.senders[id := Sending(m, 0)],
         sendLog := s.sendLog + [m])
    case SendChunk(id, count) =>
      var Sending(m, sent) := s.senders[id];
      var cells := Chunk(t, m, sent, count);
      s.(senders := s.senders[id := Sending(m, sent + count)],
         queue := s.queue + cells, written := s.written + cells)
    case ReleaseSend(id) => s.(sendLock := None, senders := s.senders[id := SendDone])
    case StartRecv(id) => s.(receivers := s.receivers[id := RecvWaiting], recvLine := s.recvLine + [id])
    case AcquireRecv(id) =>
      s.(recvLock := Some(id), recvLine := s.recvLine[1..], receivers := s.receivers[id := ReadingHeader([], [])],
         acquired := s.acquired + 1)
    case TakeHeader(id, count) =>
      var ReadingHeader(buf, fds) := s.receivers[id];
      var front := s.queue[..count];
      Take(s, count).(receivers := s.receivers[id := ReadingHeader(buf + BytesOf(front), fds + FdsIn(front))])
    case HeaderAtEnd(id) => EndRecv(s, id, Rejected(UnexpectedEof))
    case FinishHeader(id) =>
      var ReadingHeader(buf, fds) := s.receivers[id];
      var header := ParseHeader(t, buf);
      (match HeaderError(header)
       case Some(e) => EndRecv(s, id, Rejected(e))
       case None =>
         if header.size == 8 then s.(receivers := s.receivers[id := ReadingNothing(header, fds)])
         else s.(receivers := s.receivers[id := ReadingPayload(header, [], fds)]))
    case ReadNothing(id) =>
      var ReadingNothing(header, fds) := s.receivers[id];
      s.(receivers := s.receivers[id := ReadingPayload(header, [], fds)])
    case TakePayload(id, count) =>
      var ReadingPayload(header, payload, fds) := s.receivers[id];
      var front := s.queue[..count];
      Take(s, count).(receivers :=
        s.receivers[id := ReadingPayload(header, payload + BytesOf(front), fds + FdsIn(front))])
    case PayloadAtEnd(id) => s
    case ReleaseRecv(id) =>
      var ReadingPayload(header, payload, fds) := s.receivers[id];
      EndRecv(s, id, Delivered(Message(header.objectId, header.opcode, payload, fds)))
    case CloseStream => s.(open := false)
  }

  /** A run: every action is enabled where it happens. */
  predicate IsRun(t: Target, s: State, actions: seq<Action>)
    decreases |actions|
  {
    actions == [] || (Enabled(t, s, actions[0]) && IsRun(t, Apply(t, s, actions[0]), actions[1..]))
  }

  function After(t: Target, s: State, actions: seq<Action>): State
    requires IsRun(t, s, actions)
    decreases |actions|
  {
    if actions == [] then s else After(t, Apply(t, s, actions[0]), actions[1..])
  }
}
