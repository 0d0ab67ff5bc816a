/** Runs of the transport by the calls that are made: which `send_packet` calls are refused, and which packet each
    `recv_packet` call gets, as functions of the calls alone. */
module TransportCalls {
  import opened Base
  import opened Codec
  import opened Framing
  import opened Transport
  import opened TransportLaws
  import opened TransportProgress

  // ---------- the calls of a run ----------

  /** The packet of the `send_packet` call of a task, if the run makes one. */
  function PacketOf(run: seq<Action>, id: TaskId): Option<Message>
  {
    if run == [] then None
    else if run[0].StartSend? && run[0].id == id then Some(run[0].packet)
    else PacketOf(run[1..], id)
  }

  /** The packets of the calls of `send_packet`, in call order, without those of more than 65535 bytes. */
  function Accepted(run: seq<Action>): seq<Message>
  {
    if run == [] then []
    else
      (if run[0].StartSend? && 8 + |run[0].packet.payload| <= 65535 then [run[0].packet] else [])
      + Accepted(run[1..])
  }

  /** The tasks that make those calls. */
  function Callers(run: seq<Action>): (ids: seq<TaskId>)
    ensures |ids| == |Accepted(run)|
  {
    if run == [] then []
    else
      (if run[0].StartSend? && 8 + |run[0].packet.payload| <= 65535 then [run[0].id] else [])
      + Callers(run[1..])
  }

  /** The tasks that call `recv_packet`, in call order. */
  function Readers(run: seq<Action>): seq<TaskId>
  {
    if run == [] then []
    else (if run[0].StartRecv? then [run[0].id] else []) + Readers(run[1..])
  }

  lemma OneCall(a: Action)
    ensures Accepted([a]) == if a.StartSend? && 8 + |a.packet.payload| <= 65535 then [a.packet] else []
    ensures Callers([a]) == if a.StartSend? && 8 + |a.packet.payload| <= 65535 then [a.id] else []
    ensures Readers([a]) == if a.StartRecv? then [a.id] else []
  {
    assert [a][1..] == [];
  }

  // ---------- who is refused ----------

  /** A step decides about the call it makes, and about no other. */
  lemma FateStep(t: Target, s: State, a: Action, id: TaskId)
    requires Enabled(t, s, a)
    ensures var next := Apply(t, s, a);
            if id !in s.senders && a.StartSend? && a.id == id then
              && id in next.senders
              && if 8 + |a.packet.payload| > 65535
                 then next.senders[id] == SendRefused(PacketTooLong(8 + |a.packet.payload|, 65535))
                 else next.senders[id] == SendWaiting(a.packet)
            else
              && (id in next.senders <==> id in s.senders)
              && (id in s.senders ==>
                    && (next.senders[id].SendRefused? <==> s.senders[id].SendRefused?)
                    && (s.senders[id].SendRefused? ==> next.senders[id] == s.senders[id]))
  {
    hide BytesOf, FdsIn, ParseHeader, HeaderError, Chunk;
  }

  lemma {:induction false} FateKept(t: Target, s: State, run: seq<Action>, id: TaskId)
    requires IsRun(t, s, run) && id in s.senders
    ensures id in After(t, s, run).senders
    ensures After(t, s, run).senders[id].SendRefused? <==> s.senders[id].SendRefused?
    ensures s.senders[id].SendRefused? ==> After(t, s, run).senders[id] == s.senders[id]
    decreases |run|
  {
    hide Apply, Enabled;
    if run != [] {
      FateStep(t, s, run[0], id);
      FateKept(t, Apply(t, s, run[0]), run[1..], id);
    }
  }

  lemma {:induction false} FateDecided(t: Target, s: State, run: seq<Action>, id: TaskId)
    requires IsRun(t, s, run) && id !in s.senders
    ensures var end := After(t, s, run);
            match PacketOf(run, id)
            case None => id !in end.senders
            case Some(m) =>
              && id in end.senders
              && if 8 + |m.payload| > 65535
                 then end.senders[id] == SendRefused(PacketTooLong(8 + |m.payload|, 65535))
                 else !end.senders[id].SendRefused?
    decreases |run|
  {
    hide Apply, Enabled;
    if run != [] {
      FateStep(t, s, run[0], id);
      if run[0].StartSend? && run[0].id == id {
        FateKept(t, Apply(t, s, run[0]), run[1..], id);
      } else {
        FateDecided(t, Apply(t, s, run[0]), run[1..], id);
      }
    }
  }

  /** Over every run: a call of `send_packet` is refused if and only if its own packet has more than 65535 bytes,
      whatever else is going on, and then the error gives its size and that limit. */
  lemma RefusedExact(t: Target, run: seq<Action>, id: TaskId)
    requires IsRun(t, INITIAL, run)
    ensures var end := After(t, INITIAL, run);
            match PacketOf(run, id)
            case None => id !in end.senders
            case Some(m) =>
              && id in end.senders
              && if 8 + |m.payload| > 65535
                 then end.senders[id] == SendRefused(PacketTooLong(8 + |m.payload|, 65535))
                 else !end.senders[id].SendRefused?
  {
    FateDecided(t, INITIAL, run, id);
  }

  // ---------- who sends what, and who gets what ----------

  /** The packets called for are those sent and those in the line; the callers have finished, one by one, but for
      the lock holder and the line. */
  ghost predicate SendsInTurn(s: State, callers: seq<TaskId>, packets: seq<Message>)
  {
    && AllWaiting(s) && AllSent(s) == packets
    && |s.sendLog| <= |callers| && callers[|s.sendLog|..] == s.sendLine
    && (forall k :: 0 <= k < |s.sendLog| ==> callers[k] in s.senders)
    && (s.sendLock.Some? ==>
          s.sendLog != [] && callers[|s.sendLog| - 1] == s.sendLock.value && IsSending(s, s.sendLock.value))
    && (forall k :: 0 <= k < |s.sendLog| - (if s.sendLock.Some? then 1 else 0) ==>
                    s.senders[callers[k]] == SendDone)
  }

  /** Reader number `k` has outcome number `k`, or holds the lock, or stands in the line. */
  ghost predicate ReadsInTurn(s: State, readers: seq<TaskId>)
  {
    && s.acquired <= |readers| && readers[s.acquired..] == s.recvLine
    && s.acquired == |s.outcomes| + (if s.recvLock.Some? then 1 else 0)
    && (forall k :: 0 <= k < |readers| ==> readers[k] in s.receivers)
    && (forall id :: id in s.receivers ==> id in readers)
    && (s.recvLock.Some? ==> readers[s.acquired - 1] == s.recvLock.value && IsReading(s, s.recvLock.value))
    && forall k :: 0 <= k < |s.outcomes| ==> s.receivers[readers[k]] == RecvDone(s.outcomes[k])
  }

  lemma AppendedTail<T>(a: seq<T>, b: seq<T>, n: nat)
    requires n <= |a|
    ensures (a + b)[n..] == a[n..] + b
  {
  }

  /** A new sender stands at the end of the line. */
  lemma SendJoins(s: State, next: State, id: TaskId, m: Message)
    requires AllWaiting(s) && id !in s.senders && next.senders == s.senders[id := SendWaiting(m)]
    requires next.sendLine == s.sendLine + [id] && next.sendLog == s.sendLog
    ensures AllWaiting(next) && AllSent(next) == AllSent(s) + [m]
  {
    forall i | 0 <= i < |s.sendLine| ensures next.sendLine[i] == s.sendLine[i] != id {
    }
  }

  lemma CallerAdded(s: State, next: State, id: TaskId, m: Message, callers: seq<TaskId>, packets: seq<Message>)
    requires SendsInTurn(s, callers, packets) && id !in s.senders && next.senders == s.senders[id := SendWaiting(m)]
    requires next.sendLine == s.sendLine + [id] && next.sendLog == s.sendLog && next.sendLock == s.sendLock
    ensures SendsInTurn(next, callers + [id], packets + [m])
  {
    SendJoins(s, next, id, m);
    hide AllWaiting, AllSent;
    AppendedTail(callers, [id], |s.sendLog|);
    assert forall k :: 0 <= k < |s.sendLog| ==> (callers + [id])[k] == callers[k] != id;
  }

  lemma CallerRefused(s: State, next: State, id: TaskId, e: Error, callers: seq<TaskId>, packets: seq<Message>)
    requires SendsInTurn(s, callers, packets) && id !in s.senders && next.senders == s.senders[id := SendRefused(e)]
    requires next.sendLine == s.sendLine && next.sendLog == s.sendLog && next.sendLock == s.sendLock
    ensures SendsInTurn(next, callers, packets)
  {
    SamePackets(s, next);
    hide AllSent;
    assert forall k :: 0 <= k < |s.sendLog| ==> callers[k] != id;
  }

  lemma SendStarts(t: Target, s: State, a: Action, callers: seq<TaskId>, packets: seq<Message>)
    requires SendsInTurn(s, callers, packets) && Enabled(t, s, a) && a.StartSend?
    ensures SendsInTurn(Apply(t, s, a), callers + Callers([a]), packets + Accepted([a]))
  {
    OneCall(a);
    hide SendsInTurn, Accepted, Callers;
    if 8 + |a.packet.payload| <= 65535 {
      CallerAdded(s, Apply(t, s, a), a.id, a.packet, callers, packets);
    } else {
      CallerRefused(s, Apply(t, s, a), a.id, Apply(t, s, a).senders[a.id].error, callers, packets);
      assert callers + [] == callers && packets + [] == packets;
    }
  }

  lemma SendAcquires(t: Target, s: State, id: TaskId, callers: seq<TaskId>, packets: seq<Message>)
    requires SendsInTurn(s, callers, packets) && Distinct(s.sendLine) && Enabled(t, s, AcquireSend(id))
    ensures SendsInTurn(Apply(t, s, AcquireSend(id)), callers, packets)
  {
    SendAcquired(t, s);
    var next := Apply(t, s, AcquireSend(id));
    assert callers[|s.sendLog|] == id;
    assert callers[|next.sendLog|..] == callers[|s.sendLog|..][1..];
  }

  /** What a step that is neither a call nor the grant of the lock does to the senders. */
  lemma SendStepExact(t: Target, s: State, a: Action)
    requires Enabled(t, s, a) && !a.StartSend? && !a.AcquireSend?
    ensures var next := Apply(t, s, a);
            && next.sendLine == s.sendLine && next.sendLog == s.sendLog
            && if a.SendChunk? || a.ReleaseSend? then
                 && IsSending(s, a.id) && a.id in next.senders
                 && next.senders == s.senders[a.id := next.senders[a.id]]
                 && if a.SendChunk? then IsSending(next, a.id) && next.sendLock == s.sendLock
                    else next.senders[a.id] == SendDone && next.sendLock == None
               else next.senders == s.senders && next.sendLock == s.sendLock
  {
    hide BytesOf, FdsIn, ParseHeader, HeaderError, Chunk, Serialized;
  }

  lemma SendGoesOn(s: State, next: State, id: TaskId, callers: seq<TaskId>, packets: seq<Message>)
    requires SendsInTurn(s, callers, packets) && s.sendLock == Some(id) && IsSending(s, id) && id in next.senders
    requires next.senders == s.senders[id := next.senders[id]]
    requires next.sendLine == s.sendLine && next.sendLog == s.sendLog
    requires if next.senders[id] == SendDone then next.sendLock == None
             else IsSending(next, id) && next.sendLock == s.sendLock
    ensures SendsInTurn(next, callers, packets)
  {
    SamePackets(s, next);
    hide AllSent;
  }

  lemma SendOther(t: Target, s: State, a: Action, callers: seq<TaskId>, packets: seq<Message>)
    requires SendsInTurn(s, callers, packets) && Enabled(t, s, a) && !a.StartSend? && !a.AcquireSend?
    requires forall id: TaskId :: IsSending(s, id) <==> s.sendLock == Some(id)
    ensures SendsInTurn(Apply(t, s, a), callers, packets)
  {
    SendStepExact(t, s, a);
    hide Apply, Enabled;
    var next := Apply(t, s, a);
    if a.SendChunk? || a.ReleaseSend? {
      hide SendsInTurn;
      SendGoesOn(s, next, a.id, callers, packets);
    } else {
      SamePackets(s, next);
      hide AllSent;
    }
  }

  lemma SendLockExact(t: Target, s: State)
    requires Good(t, s)
    ensures forall id: TaskId :: IsSending(s, id) <==> s.sendLock == Some(id)
    ensures Distinct(s.sendLine)
  {
    hide RecvInv, RecvLine, EmptyPassed, Sent;
  }

  lemma SendsStep(t: Target, s: State, a: Action, callers: seq<TaskId>, packets: seq<Message>)
    requires Good(t, s) && SendsInTurn(s, callers, packets) && Enabled(t, s, a)
    ensures SendsInTurn(Apply(t, s, a), callers + Callers([a]), packets + Accepted([a]))
  {
    SendLockExact(t, s);
    hide SendsInTurn, Apply, Enabled, Good;
    OneCall(a);
    if a.StartSend? {
      SendStarts(t, s, a, callers, packets);
    } else {
      assert callers + Callers([a]) == callers && packets + Accepted([a]) == packets;
      if a.AcquireSend? {
        SendAcquires(t, s, a.id, callers, packets);
      } else {
        SendOther(t, s, a, callers, packets);
      }
    }
  }

  lemma ReaderAdded(s: State, next: State, id: TaskId, readers: seq<TaskId>)
    requires ReadsInTurn(s, readers) && id !in s.receivers && next.receivers == s.receivers[id := RecvWaiting]
    requires next.recvLine == s.recvLine + [id] && next.recvLock == s.recvLock
    requires next.acquired == s.acquired && next.outcomes == s.outcomes
    ensures ReadsInTurn(next, readers + [id])
  {
    var all := readers + [id];
    AppendedTail(readers, [id], s.acquired);
    assert forall k :: 0 <= k < |readers| ==> all[k] == readers[k] != id;
    assert all[|readers|] == id;
    assert forall i :: i in next.receivers ==> i in all;
  }

  lemma ReadStarts(t: Target, s: State, a: Action, readers: seq<TaskId>)
    requires ReadsInTurn(s, readers) && Enabled(t, s, a) && a.StartRecv?
    ensures ReadsInTurn(Apply(t, s, a), readers + Readers([a]))
  {
    OneCall(a);
    hide ReadsInTurn, Readers;
    ReaderAdded(s, Apply(t, s, a), a.id, readers);
  }

  lemma ReadAcquires(t: Target, s: State, id: TaskId, readers: seq<TaskId>)
    requires ReadsInTurn(s, readers) && Enabled(t, s, AcquireRecv(id))
    ensures ReadsInTurn(Apply(t, s, AcquireRecv(id)), readers)
  {
    var next := Apply(t, s, AcquireRecv(id));
    assert readers[s.acquired] == s.recvLine[0] == id;
    assert readers[next.acquired..] == readers[s.acquired..][1..];
  }

  predicate IsReadStep(a: Action)
  {
    a.HeaderAtEnd? || a.FinishHeader? || a.ReadNothing? || a.TakeHeader? || a.TakePayload? || a.PayloadAtEnd?
    || a.ReleaseRecv?
  }

  /** The lock holder goes on reading, or gets its outcome. */
  lemma ReadStepExact(t: Target, s: State, a: Action)
    requires Enabled(t, s, a) && IsReadStep(a)
    ensures var next := Apply(t, s, a);
            && IsReading(s, a.id) && a.id in next.receivers
            && next.receivers == s.receivers[a.id := next.receivers[a.id]]
            && next.recvLine == s.recvLine && next.acquired == s.acquired
            && if next.receivers[a.id].RecvDone?
               then next.recvLock == None && next.outcomes == s.outcomes + [next.receivers[a.id].outcome]
               else IsReading(next, a.id) && next.recvLock == s.recvLock && next.outcomes == s.outcomes
  {
    hide BytesOf, FdsIn, ParseHeader;
  }

  lemma ReadGoesOn(s: State, next: State, id: TaskId, readers: seq<TaskId>)
    requires ReadsInTurn(s, readers) && s.recvLock == Some(id) && IsReading(s, id) && id in next.receivers
    requires next.receivers == s.receivers[id := next.receivers[id]]
    requires next.recvLine == s.recvLine && next.acquired == s.acquired
    requires if next.receivers[id].RecvDone?
             then next.recvLock == None && next.outcomes == s.outcomes + [next.receivers[id].outcome]
             else IsReading(next, id) && next.recvLock == s.recvLock && next.outcomes == s.outcomes
    ensures ReadsInTurn(next, readers)
  {
  }

  lemma ReadUntouched(t: Target, s: State, a: Action, readers: seq<TaskId>)
    requires ReadsInTurn(s, readers) && Enabled(t, s, a) && !a.StartRecv? && !a.AcquireRecv? && !IsReadStep(a)
    ensures ReadsInTurn(Apply(t, s, a), readers)
  {
    hide BytesOf, FdsIn, ParseHeader, HeaderError, Chunk, Serialized;
    var next := Apply(t, s, a);
    assert next.recvLine == s.recvLine && next.acquired == s.acquired && next.receivers == s.receivers;
  }

  lemma RecvLockExact(t: Target, s: State)
    requires Good(t, s)
    ensures forall id: TaskId :: IsReading(s, id) <==> s.recvLock == Some(id)
    ensures InOrder(s.sendLog, s.outcomes, s.delivered) && s.delivered <= |s.outcomes|
    ensures s.delivered < |s.outcomes| ==> AtEnd(s)
  {
    hide SendInv, SendLine, RecvLine, EmptyPassed, Taken;
  }

  lemma ReadsStep(t: Target, s: State, a: Action, readers: seq<TaskId>)
    requires Good(t, s) && ReadsInTurn(s, readers) && Enabled(t, s, a)
    ensures ReadsInTurn(Apply(t, s, a), readers + Readers([a]))
  {
    RecvLockExact(t, s);
    hide ReadsInTurn, Apply, Enabled, Good;
    OneCall(a);
    if a.StartRecv? {
      ReadStarts(t, s, a, readers);
    } else {
      assert readers + Readers([a]) == readers;
      if a.AcquireRecv? {
        ReadAcquires(t, s, a.id, readers);
      } else if IsReadStep(a) {
        ReadStepExact(t, s, a);
        ReadGoesOn(s, Apply(t, s, a), a.id, readers);
      } else {
        ReadUntouched(t, s, a, readers);
      }
    }
  }

  lemma CallsSplit(run: seq<Action>)
    requires run != []
    ensures Accepted(run) == Accepted([run[0]]) + Accepted(run[1..])
    ensures Callers(run) == Callers([run[0]]) + Callers(run[1..])
    ensures Readers(run) == Readers([run[0]]) + Readers(run[1..])
  {
    OneCall(run[0]);
  }

  lemma {:induction false} TurnsKept(t: Target, s: State, run: seq<Action>, callers: seq<TaskId>,
      packets: seq<Message>, readers: seq<TaskId>)
    requires Good(t, s) && SendsInTurn(s, callers, packets) && ReadsInTurn(s, readers) && IsRun(t, s, run)
    ensures SendsInTurn(After(t, s, run), callers + Callers(run), packets + Accepted(run))
    ensures ReadsInTurn(After(t, s, run), readers + Readers(run))
    decreases |run|
  {
    hide Good, SendsInTurn, ReadsInTurn, Apply, Enabled;
    if run == [] {
      assert callers + [] == callers && packets + [] == packets && readers + [] == readers;
    } else {
      var a, next := run[0], Apply(t, s, run[0]);
      GoodStep(t, s, a);
      SendsStep(t, s, a, callers, packets);
      ReadsStep(t, s, a, readers);
      TurnsKept(t, next, run[1..], callers + Callers([a]), packets + Accepted([a]), readers + Readers([a]));
      CallsSplit(run);
      assert callers + Callers([a]) + Callers(run[1..]) == callers + Callers(run);
      assert packets + Accepted([a]) + Accepted(run[1..]) == packets + Accepted(run);
      assert readers + Readers([a]) + Readers(run[1..]) == readers + Readers(run);
    }
  }

  lemma Turns(t: Target, run: seq<Action>)
    requires IsRun(t, INITIAL, run)
    ensures var end := After(t, INITIAL, run);
            Good(t, end) && SendsInTurn(end, Callers(run), Accepted(run)) && ReadsInTurn(end, Readers(run))
  {
    GoodInitially(t);
    GoodRun(t, INITIAL, run);
    TurnsKept(t, INITIAL, run, [], [], []);
    assert [] + Callers(run) == Callers(run) && [] + Accepted(run) == Accepted(run);
    assert [] + Readers(run) == Readers(run);
  }

  /** Over every run: the packets that the send lock has been or will be taken for are, in order, those of the calls
      made, without the ones that are too long. */
  lemma AllSentExact(t: Target, run: seq<Action>)
    requires IsRun(t, INITIAL, run)
    ensures var end := After(t, INITIAL, run); AllWaiting(end) && AllSent(end) == Accepted(run)
  {
    Turns(t, run);
  }

  /** Over every run: when call number `k` of `send_packet` that is not refused has returned, its frame and those of
      all calls before it are on the stream, whole and in call order. */
  lemma SendReturned(t: Target, run: seq<Action>, k: nat)
    requires IsRun(t, INITIAL, run) && k < |Accepted(run)|
    ensures var end := After(t, INITIAL, run);
            && Callers(run)[k] in end.senders
            && (end.senders[Callers(run)[k]].SendDone? ==>
                  && AllFit(Accepted(run)[..k + 1])
                  && StreamOf(t, Accepted(run)[..k + 1]) <= end.written)
  {
    Turns(t, run);
    hide IsRun, After, Good, AllFit, StreamOf;
    TurnReached(t, After(t, INITIAL, run), Callers(run), Accepted(run), k);
  }

  lemma CallerInLine(s: State, callers: seq<TaskId>, packets: seq<Message>, k: nat)
    requires SendsInTurn(s, callers, packets) && |s.sendLog| <= k < |callers|
    ensures callers[k] in s.senders && s.senders[callers[k]].SendWaiting?
  {
    hide AllSent;
    var n := |s.sendLog|;
    assert callers[n..][k - n] == callers[k];
    assert s.sendLine[k - n] == callers[k];
  }

  lemma CallerDone(s: State, callers: seq<TaskId>, packets: seq<Message>, k: nat)
    requires SendsInTurn(s, callers, packets) && k < |s.sendLog| && k < |packets|
    ensures k < |callers| && callers[k] in s.senders && packets[..k + 1] == s.sendLog[..k + 1]
    ensures s.senders[callers[k]].SendDone? ==> k + 1 <= |s.sendLog| - (if s.sendLock.Some? then 1 else 0)
  {
    assert s.sendLog <= AllSent(s);
    hide AllSent;
  }

  lemma TurnReached(t: Target, s: State, callers: seq<TaskId>, packets: seq<Message>, k: nat)
    requires Good(t, s) && SendsInTurn(s, callers, packets) && k < |callers| == |packets|
    ensures callers[k] in s.senders
    ensures s.senders[callers[k]].SendDone? ==>
            AllFit(packets[..k + 1]) && StreamOf(t, packets[..k + 1]) <= s.written
  {
    hide Good, SendsInTurn, AllFit, StreamOf;
    if k >= |s.sendLog| {
      CallerInLine(s, callers, packets, k);
    } else {
      CallerDone(s, callers, packets, k);
      if s.senders[callers[k]].SendDone? {
        FrontWritten(t, s, k + 1);
      }
    }
  }

  /** The frames before the lock holder's have been written. */
  lemma FrontWritten(t: Target, s: State, n: nat)
    requires Good(t, s) && n <= |s.sendLog| - (if s.sendLock.Some? then 1 else 0)
    ensures AllFit(s.sendLog[..n]) && StreamOf(t, s.sendLog[..n]) <= s.written
  {
    hide RecvInv, SendLine, RecvLine, EmptyPassed;
    var log := s.sendLog;
    var last := |log| - (if s.sendLock.Some? then 1 else 0);
    assert StreamOf(t, log[..last]) <= s.written by {
      assert log[..|log|] == log;
    }
    StreamGrows(t, log[..last], n);
    assert log[..last][..n] == log[..n];
  }

  lemma {:induction false} StreamGrows(t: Target, log: seq<Message>, n: nat)
    requires AllFit(log) && n <= |log|
    ensures AllFit(log[..n]) && StreamOf(t, log[..n]) <= StreamOf(t, log)
    decreases |log|
  {
    if n == |log| {
      assert log[..n] == log;
    } else {
      var init := log[..|log| - 1];
      StreamGrows(t, init, n);
      assert init[..n] == log[..n];
    }
  }

  // ---------- end of stream ----------

  /** If anything but a packet has been returned, the stream ended inside a header. */
  ghost predicate EndsShort(t: Target, s: State)
    requires AllFit(s.sendLog) && s.delivered <= |s.sendLog|
  {
    s.delivered < |s.outcomes| ==>
      var whole := StreamOf(t, s.sendLog[..s.delivered]); whole <= s.taken && |s.taken| < |whole| + 8
  }

  lemma FitsInLog(t: Target, s: State)
    requires Good(t, s)
    ensures AllFit(s.sendLog) && s.delivered <= |s.sendLog|
  {
    hide SendInv, SendLine, RecvLine, EmptyPassed, Taken, InOrder;
  }

  /** What a step that is no first end of stream does to the parts that matter. */
  lemma EndStep(t: Target, s: State, a: Action)
    requires Enabled(t, s, a)
    ensures var next := Apply(t, s, a);
            && s.sendLog <= next.sendLog
            && (s.queue == [] ==> next.taken == s.taken)
            && (a.HeaderAtEnd? ==>
                  && next.delivered == s.delivered && |next.outcomes| == |s.outcomes| + 1
                  && IsReadingHeader(s, a.id) && |s.receivers[a.id].buf| < 8 && s.queue == [])
            && (a.FinishHeader? || a.ReleaseRecv? ==> IsReading(s, a.id))
            && (!a.HeaderAtEnd? && !a.FinishHeader? && !a.ReleaseRecv? ==>
                  next.delivered == s.delivered && next.outcomes == s.outcomes)
  {
    hide BytesOf, FdsIn, ParseHeader, Chunk, Serialized;
  }

  /** Once a call has met the end of the stream, the lock's later holders have read nothing. */
  lemma NothingAfterEnd(t: Target, s: State, id: TaskId)
    requires Good(t, s) && s.delivered < |s.outcomes|
    ensures s.queue == [] && (IsReading(s, id) ==> s.receivers[id] == ReadingHeader([], []))
  {
    hide SendInv, SendLine, RecvLine, EmptyPassed, InOrder;
  }

  lemma HeaderInHand(t: Target, s: State, id: TaskId)
    requires Good(t, s) && s.delivered == |s.outcomes| && IsReadingHeader(s, id)
    ensures AllFit(s.sendLog) && s.delivered <= |s.sendLog|
    ensures var whole := StreamOf(t, s.sendLog[..s.delivered]);
            whole <= s.taken && |s.taken| == |whole| + |s.receivers[id].buf|
  {
    hide SendInv, SendLine, RecvLine, EmptyPassed, InOrder;
    assert IsReading(s, id);
  }

  lemma {:induction false} SameFront(t: Target, log: seq<Message>, longer: seq<Message>, n: nat)
    requires log <= longer && n <= |log| && AllFit(log) && AllFit(longer)
    ensures log[..n] == longer[..n] && StreamOf(t, log[..n]) == StreamOf(t, longer[..n])
  {
  }

  lemma EndsShortStep(t: Target, s: State, a: Action)
    requires Good(t, s) && AllFit(s.sendLog) && s.delivered <= |s.sendLog| && EndsShort(t, s) && Enabled(t, s, a)
    ensures var next := Apply(t, s, a);
            Good(t, next) && AllFit(next.sendLog) && next.delivered <= |next.sendLog| && EndsShort(t, next)
  {
    GoodStep(t, s, a);
    var next := Apply(t, s, a);
    FitsInLog(t, next);
    RecvLockExact(t, s);
    RecvLockExact(t, next);
    EndStep(t, s, a);
    SameFront(t, s.sendLog, next.sendLog, s.delivered);
    if s.delivered < |s.outcomes| {
      NothingAfterEnd(t, s, if a.FinishHeader? || a.ReleaseRecv? then a.id else 0);
      assert !a.FinishHeader? && !a.ReleaseRecv?;
    } else if a.HeaderAtEnd? {
      HeaderInHand(t, s, a.id);
    } else if next.delivered < |next.outcomes| {
      StillAtPackets(t, s, a);
    }
  }

  lemma StillAtPackets(t: Target, s: State, a: Action)
    requires Good(t, s) && s.delivered == |s.outcomes| && Enabled(t, s, a) && !a.HeaderAtEnd?
    ensures Apply(t, s, a).delivered == |Apply(t, s, a).outcomes|
  {
    hide SendInv, SendLine, RecvLine, EmptyPassed, InOrder, BytesOf, FdsIn, StreamOf;
    if a.FinishHeader? {
      TakenAccepted(t, s, a.id);
    }
  }

  /** A header that has been read whole is a packet's, and is accepted. */
  lemma TakenAccepted(t: Target, s: State, id: TaskId)
    requires Good(t, s) && s.delivered == |s.outcomes| && Enabled(t, s, FinishHeader(id))
    ensures HeaderError(ParseHeader(t, s.receivers[id].buf)) == None
  {
    hide SendInv, SendLine, RecvLine, EmptyPassed, InOrder, StreamOf, Taken, Sent, ParseHeader;
    assert IsReading(s, id) && s.recvLock == Some(id);
    TakenIsPrefix(t, s);
    TakenFinishHeader(t, s.sendLog, s.taken, s.delivered, s.receivers[id].buf, s.receivers[id].fds);
  }

  lemma {:induction false} EndsShortRun(t: Target, s: State, run: seq<Action>)
    requires Good(t, s) && AllFit(s.sendLog) && s.delivered <= |s.sendLog| && EndsShort(t, s) && IsRun(t, s, run)
    ensures var end := After(t, s, run);
            AllFit(end.sendLog) && end.delivered <= |end.sendLog| && EndsShort(t, end)
    decreases |run|
  {
    hide Good, Apply, Enabled, EndsShort, AllFit;
    if run != [] {
      EndsShortStep(t, s, run[0]);
      EndsShortRun(t, Apply(t, s, run[0]), run[1..]);
    }
  }

  // ---------- the calls ----------

  /** Over every run: call number `k` of `recv_packet` that has returned got the packet of call number `k` of
      `send_packet`, not counting those refused: object, payload and descriptors the same, and the opcode modulo 256.
      Only when the stream has been closed and emptied can it have got the end-of-stream error instead. */
  lemma CallsAnswered(t: Target, run: seq<Action>, k: nat)
    requires IsRun(t, INITIAL, run) && k < |Readers(run)|
    ensures var end, id := After(t, INITIAL, run), Readers(run)[k];
            && id in end.receivers
            && (end.receivers[id].RecvDone? ==>
                  if k < |Accepted(run)| && end.receivers[id].outcome.Delivered? then
                    var m := Accepted(run)[k];
                    end.receivers[id].outcome == Delivered(Message(m.objectId, m.opcode % 256, m.payload, m.fds))
                  else
                    end.receivers[id].outcome == Rejected(UnexpectedEof) && end.queue == [] && !end.open)
  {
    Turns(t, run);
    var end, id := After(t, INITIAL, run), Readers(run)[k];
    RecvLockExact(t, end);
    if end.receivers[id].RecvDone? {
      WaitingIsNotDone(t, end, Readers(run), k);
      assert end.receivers[id] == RecvDone(end.outcomes[k]);
      assert k < end.delivered ==> Accepted(run)[k] == end.sendLog[k];
    }
  }

  /** Over every run: if call number `k` of `recv_packet` has got the end-of-stream error, then the stream was closed
      with `d` whole packets and less than a header behind them on it, for some `d` up to `k`. */
  lemma EndOfStream(t: Target, run: seq<Action>, k: nat) returns (d: nat)
    requires IsRun(t, INITIAL, run) && k < |Readers(run)|
    requires Readers(run)[k] in After(t, INITIAL, run).receivers
    requires After(t, INITIAL, run).receivers[Readers(run)[k]] == RecvDone(Rejected(UnexpectedEof))
    ensures var end := After(t, INITIAL, run);
            && !end.open && end.queue == [] && d <= k && d <= |Accepted(run)| && AllFit(Accepted(run)[..d])
            && var whole := StreamOf(t, Accepted(run)[..d]);
               whole <= end.written && |end.written| < |whole| + 8
  {
    Turns(t, run);
    GoodInitially(t);
    EndsShortRun(t, INITIAL, run);
    var end := After(t, INITIAL, run);
    RecvLockExact(t, end);
    WaitingIsNotDone(t, end, Readers(run), k);
    hide Good, IsRun, After, StreamOf;
    assert end.outcomes[k] == Rejected(UnexpectedEof);
    d := end.delivered;
    AllTaken(t, end);
    assert end.sendLog <= AllSent(end) == Accepted(run);
    assert Accepted(run)[..d] == end.sendLog[..d];
  }

  lemma AllTaken(t: Target, s: State)
    requires Good(t, s)
    ensures s.queue == [] ==> s.taken == s.written
  {
    hide SendInv, SendLine, RecvLine, EmptyPassed, Taken, InOrder;
  }

  lemma WaitingIsNotDone(t: Target, s: State, readers: seq<TaskId>, k: nat)
    requires Good(t, s) && ReadsInTurn(s, readers) && k < |readers| && s.receivers[readers[k]].RecvDone?
    ensures k < |s.outcomes|
  {
    hide Inv, SendLine, EmptyPassed;
    assert forall j :: s.acquired <= j < |readers| ==> readers[s.acquired..][j - s.acquired] == readers[j];
    assert forall j :: s.acquired <= j < |readers| ==> readers[j] in s.recvLine;
  }

  /** In the run, call number `k` of `recv_packet` has returned the packet. */
  predicate Answered(t: Target, run: seq<Action>, k: nat, m: Message)
  {
    && IsRun(t, INITIAL, run) && k < |Readers(run)|
    && var end := After(t, INITIAL, run);
       Readers(run)[k] in end.receivers && end.receivers[Readers(run)[k]] == RecvDone(Delivered(m))
  }

  /** A packet that is returned has been sent: the call of `send_packet` of the same number is its origin. */
  lemma AnswerHasOrigin(t: Target, run: seq<Action>, k: nat, m: Message)
    requires Answered(t, run, k, m)
    ensures k < |Accepted(run)|
    ensures var sent := Accepted(run)[k]; m == Message(sent.objectId, sent.opcode % 256, sent.payload, sent.fds)
  {
    CallsAnswered(t, run, k);
  }

  /** By the history: what has been delivered has been returned. */
  lemma DeliveredIsAnswered(t: Target, run: seq<Action>, k: nat)
    requires IsRun(t, INITIAL, run) && k < After(t, INITIAL, run).delivered
    ensures var log := After(t, INITIAL, run).sendLog;
            && k < |log| && k < |Accepted(run)| && Accepted(run)[k] == log[k] && Answered(t, run, k, Masked(log[k]))
  {
    Turns(t, run);
    var end := After(t, INITIAL, run);
    RecvLockExact(t, end);
    assert end.sendLog <= AllSent(end);
    hide AllSent, IsRun, After, Good;
  }

  /** Over every run that leaves the stream open: call number `k` of `recv_packet` has returned or can return, by
      the work of existing tasks alone, if and only if `send_packet` has been called that often with packets that
      are not refused, and once more if packet number `k` has no payload. */
  lemma CallsAnswerable(t: Target, run: seq<Action>, k: nat)
    requires IsRun(t, INITIAL, run) && After(t, INITIAL, run).open && k < |Readers(run)|
    ensures var end, id, calls := After(t, INITIAL, run), Readers(run)[k], Accepted(run);
            && id in end.receivers
            && (!end.receivers[id].RecvDone? ==>
                  (ReceiverCanFinish(t, end, id) <==> k < |calls| && (calls[k].payload != [] || k + 1 < |calls|)))
  {
    Turns(t, run);
    var end, id := After(t, INITIAL, run), Readers(run)[k];
    if !end.receivers[id].RecvDone? {
      ReceiversFinish(t, run, id);
      hide ReceiverCanFinish, IsRun, After;
      PlaceIsNumber(t, end, Readers(run), k);
    }
  }

  /** The number of a receiver's packet is the number of its call. */
  lemma PlaceIsNumber(t: Target, s: State, readers: seq<TaskId>, k: nat)
    requires Good(t, s) && s.open && ReadsInTurn(s, readers) && k < |readers|
    requires !s.receivers[readers[k]].RecvDone?
    ensures NextPacket(s, readers[k]) == k
  {
    RecvLockExact(t, s);
    LineDistinct(t, s);
    WaitsIfNotReading(t, s, readers[k]);
    ReaderStands(s, readers, k);
    hide Good, Distinct, IsReading, InOrder, ReadsInTurn;
    if k >= s.acquired {
      PlaceInLine(s.recvLine, k - s.acquired);
    }
  }

  lemma ReaderStands(s: State, readers: seq<TaskId>, k: nat)
    requires ReadsInTurn(s, readers) && k < |readers| && !s.receivers[readers[k]].RecvDone?
    ensures s.acquired == |s.outcomes| + (if s.recvLock.Some? then 1 else 0)
    ensures if k >= s.acquired then k - s.acquired < |s.recvLine| && s.recvLine[k - s.acquired] == readers[k]
            else k == |s.outcomes| && s.recvLock == Some(readers[k])
  {
    if k >= s.acquired {
      assert readers[s.acquired..][k - s.acquired] == readers[k];
    }
  }

  lemma {:induction false} PlaceInLine(line: seq<TaskId>, i: nat)
    requires Distinct(line) && i < |line|
    ensures IndexOf(line, line[i]) == i
  {
  }

  // ---------- what a call can wait for ----------

  /** Any calls can be made at any time: by tasks that are new, in any order. */
  lemma {:induction false} CallsAreRuns(t: Target, s: State, calls: seq<Action>)
    requires forall i :: 0 <= i < |calls| ==> calls[i].StartSend? || calls[i].StartRecv?
    requires forall i :: 0 <= i < |calls| ==>
                         if calls[i].StartSend? then calls[i].id !in s.senders else calls[i].id !in s.receivers
    requires forall i, j :: 0 <= i < j < |calls| && calls[i].StartSend? == calls[j].StartSend? ==>
                            calls[i].id != calls[j].id
    ensures IsRun(t, s, calls)
    decreases |calls|
  {
    if calls != [] {
      var next := Apply(t, s, calls[0]);
      forall i | 0 <= i < |calls[1..]|
        ensures calls[1..][i] == calls[i + 1]
        ensures if calls[i + 1].StartSend? then calls[i + 1].id !in next.senders
                else calls[i + 1].id !in next.receivers
      {
      }
      CallsAreRuns(t, next, calls[1..]);
    }
  }

  ghost predicate ReceiverCanStep(t: Target, s: State, id: TaskId)
  {
    exists a: Action :: (a.AcquireRecv? || IsReadStep(a)) && a.id == id && Enabled(t, s, a)
  }

  /** It is the call's turn, and no byte is missing that the socket does not have. */
  predicate ReceiverReady(s: State, id: TaskId)
    requires id in s.receivers
  {
    match s.receivers[id]
    case RecvWaiting => s.recvLock == None && s.recvLine != [] && s.recvLine[0] == id
    case ReadingHeader(buf, _) => |buf| >= 8 || s.queue != [] || !s.open
    case ReadingNothing(_, _) => s.queue != [] || !s.open
    case ReadingPayload(h, payload, _) => |payload| >= h.size - 8 || s.queue != [] || !s.open
    case RecvDone(_) => false
  }

  /** In every reachable state, all that a call of `recv_packet` ever waits for is its turn at the lock, and then a
      readable socket while there are bytes it needs. */
  lemma ReceiverWaitsFor(t: Target, run: seq<Action>, id: TaskId)
    requires IsRun(t, INITIAL, run) && id in After(t, INITIAL, run).receivers
    ensures var s := After(t, INITIAL, run); ReceiverCanStep(t, s, id) <==> ReceiverReady(s, id)
  {
    GoodInitially(t);
    GoodRun(t, INITIAL, run);
    var s := After(t, INITIAL, run);
    ReaderInBounds(t, s, id);
    hide IsRun, After, Good, InBounds, ReceiverReady, Enabled;
    if ReceiverReady(s, id) {
      var a := ReadyCanStep(t, s, id);
    }
    forall a: Action | (a.AcquireRecv? || IsReadStep(a)) && a.id == id && Enabled(t, s, a)
      ensures ReceiverReady(s, id)
    {
      StepNeedsReady(t, s, a);
    }
  }

  predicate InBounds(r: RecvTask)
  {
    match r
    case ReadingHeader(buf, _) => |buf| <= 8
    case ReadingPayload(h, payload, _) => |payload| <= h.size - 8 && h.objectId != 0
    case _ => true
  }

  lemma {:induction false} RunSnoc(t: Target, s: State, run: seq<Action>, a: Action)
    requires IsRun(t, s, run) && Enabled(t, After(t, s, run), a)
    ensures IsRun(t, s, run + [a]) && After(t, s, run + [a]) == Apply(t, After(t, s, run), a)
    decreases |run|
  {
    hide Apply, Enabled;
    if run == [] {
      assert [a][1..] == [];
      assert run + [a] == [a];
    } else {
      assert (run + [a])[1..] == run[1..] + [a];
      RunSnoc(t, Apply(t, s, run[0]), run[1..], a);
    }
  }

  /** And the other end can close the stream at any time, which changes nothing else. */
  lemma CloseAnyTime(t: Target, run: seq<Action>)
    requires IsRun(t, INITIAL, run) && After(t, INITIAL, run).open
    ensures IsRun(t, INITIAL, run + [CloseStream])
    ensures After(t, INITIAL, run + [CloseStream]) == After(t, INITIAL, run).(open := false)
  {
    hide IsRun, After;
    RunSnoc(t, INITIAL, run, CloseStream);
  }

  predicate SameKind(a: Action, b: Action)
  {
    && (a.AcquireRecv? <==> b.AcquireRecv?) && (a.TakeHeader? <==> b.TakeHeader?)
    && (a.HeaderAtEnd? <==> b.HeaderAtEnd?) && (a.FinishHeader? <==> b.FinishHeader?)
    && (a.ReadNothing? <==> b.ReadNothing?) && (a.TakePayload? <==> b.TakePayload?)
    && (a.PayloadAtEnd? <==> b.PayloadAtEnd?) && (a.ReleaseRecv? <==> b.ReleaseRecv?)
  }

  /** A receiver has no choice: but for how many bytes a call of the socket moves, its next step is determined. */
  lemma OneKindOfStep(t: Target, s: State, a: Action, b: Action)
    requires (a.AcquireRecv? || IsReadStep(a)) && (b.AcquireRecv? || IsReadStep(b)) && a.id == b.id
    requires Enabled(t, s, a) && Enabled(t, s, b)
    ensures SameKind(a, b)
  {
  }

  lemma ReadyCanStep(t: Target, s: State, id: TaskId) returns (a: Action)
    requires id in s.receivers && InBounds(s.receivers[id]) && ReceiverReady(s, id)
    ensures (a.AcquireRecv? || IsReadStep(a)) && a.id == id && Enabled(t, s, a)
  {
    match s.receivers[id]
    case RecvWaiting => a := AcquireRecv(id);
    case ReadingHeader(buf, _) =>
      a := if |buf| == 8 then FinishHeader(id) else if s.queue == [] then HeaderAtEnd(id) else TakeHeader(id, 1);
    case ReadingNothing(_, _) => a := ReadNothing(id);
    case ReadingPayload(h, payload, _) =>
      a := if |payload| == h.size - 8 then ReleaseRecv(id) else if s.queue == [] then PayloadAtEnd(id)
           else TakePayload(id, 1);
  }

  lemma StepNeedsReady(t: Target, s: State, a: Action)
    requires (a.AcquireRecv? || IsReadStep(a)) && Enabled(t, s, a)
    ensures a.id in s.receivers && ReceiverReady(s, a.id)
  {
  }

  lemma ReaderInBounds(t: Target, s: State, id: TaskId)
    requires Good(t, s) && id in s.receivers
    ensures InBounds(s.receivers[id])
  {
    hide SendInv, SendLine, RecvLine, EmptyPassed, StreamOf, InOrder, FdsIn;
    assert IsReading(s, id) ==> s.recvLock == Some(id) && RecvHolder(s) == Some(s.receivers[id]);
  }

  ghost predicate SenderCanStep(t: Target, s: State, id: TaskId)
  {
    exists a: Action :: (a.AcquireSend? || a.SendChunk? || a.ReleaseSend?) && a.id == id && Enabled(t, s, a)
  }

  /** And all that a call of `send_packet` ever waits for on an open stream is its turn at the lock. */
  lemma SenderWaitsFor(t: Target, run: seq<Action>, id: TaskId)
    requires IsRun(t, INITIAL, run) && After(t, INITIAL, run).open
    requires var s := After(t, INITIAL, run); id in s.senders && (s.senders[id].SendWaiting? || s.senders[id].Sending?)
    ensures var s := After(t, INITIAL, run);
            SenderCanStep(t, s, id) <==>
              s.senders[id].SendWaiting? ==> s.sendLock == None && s.sendLine != [] && s.sendLine[0] == id
  {
    GoodInitially(t);
    GoodRun(t, INITIAL, run);
    var s := After(t, INITIAL, run);
    hide IsRun, After, Good;
    if s.senders[id].SendWaiting? {
      assert Enabled(t, s, AcquireSend(id)) <==> s.sendLock == None && s.sendLine != [] && s.sendLine[0] == id;
    } else {
      SenderFits(t, s, id);
      var m, sent := s.senders[id].message, s.senders[id].sent;
      assert sent < TotalBytes(m) ==> Enabled(t, s, SendChunk(id, 1));
      assert sent >= TotalBytes(m) ==> Enabled(t, s, ReleaseSend(id));
    }
  }

  lemma SenderFits(t: Target, s: State, id: TaskId)
    requires Good(t, s) && IsSending(s, id)
    ensures Fits(s.senders[id].message)
  {
    hide RecvInv, SendLine, RecvLine, EmptyPassed;
  }
}
