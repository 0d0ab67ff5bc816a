/** Who can finish on an open stream, with both locks served first come, first served: every task that sends, and
    exactly the receivers whose packet is sent; but a packet without payload waits for whatever comes behind it. */
module TransportProgress {
  import opened Base
  import opened Codec
  import opened Framing
  import opened Transport
  import opened TransportLaws

  // ---------- the waiting lines ----------

  ghost predicate SendLine(s: State)
  {
    && (forall id: TaskId :: id in s.sendLine <==> id in s.senders && s.senders[id].SendWaiting?)
    && Distinct(s.sendLine)
  }

  ghost predicate RecvLine(s: State)
  {
    && (forall id: TaskId :: id in s.recvLine <==> id in s.receivers && s.receivers[id].RecvWaiting?)
    && Distinct(s.recvLine)
  }

  /** Whoever has got past the empty buffer of a packet without payload has seen something behind it. */
  ghost predicate EmptyPassed(s: State)
  {
    forall id: TaskId :: s.open && IsReadingPayload(s, id) && s.receivers[id].header.size == 8 ==>
      s.delivered + 1 < |s.sendLog|
  }

  ghost predicate Good(t: Target, s: State)
  {
    Inv(t, s) && SendLine(s) && RecvLine(s) && EmptyPassed(s)
  }

  lemma DistinctTail<T>(s: seq<T>)
    requires s != [] && Distinct(s)
    ensures Distinct(s[1..]) && forall x :: x in s[1..] <==> x in s && x != s[0]
  {
    forall x | x in s && x != s[0] ensures x in s[1..] {
      var i :| 0 <= i < |s| && s[i] == x;
      assert s[1..][i - 1] == x;
    }
  }

  lemma DistinctAppend<T>(s: seq<T>, x: T)
    requires Distinct(s) && x !in s
    ensures Distinct(s + [x]) && forall y :: y in s + [x] <==> y in s || y == x
  {
  }

  lemma SendLineStep(t: Target, s: State, a: Action)
    requires SendLine(s) && Enabled(t, s, a)
    ensures SendLine(Apply(t, s, a))
  {
    hide BytesOf, FdsIn, ParseHeader, HeaderError, Chunk, Serialized, Distinct;
    if a.StartSend? {
      DistinctAppend(s.sendLine, a.id);
    } else if a.AcquireSend? {
      DistinctTail(s.sendLine);
    }
  }

  lemma RecvLineStep(t: Target, s: State, a: Action)
    requires RecvLine(s) && Enabled(t, s, a)
    ensures RecvLine(Apply(t, s, a))
  {
    hide BytesOf, FdsIn, ParseHeader, HeaderError, Chunk, Serialized, Distinct;
    if a.StartRecv? {
      DistinctAppend(s.recvLine, a.id);
    } else if a.AcquireRecv? {
      DistinctTail(s.recvLine);
    }
  }

  lemma EmptyPassedStep(t: Target, s: State, a: Action)
    requires Inv(t, s) && EmptyPassed(s) && Enabled(t, s, a)
    ensures EmptyPassed(Apply(t, s, a))
  {
    hide BytesOf, FdsIn, ParseHeader, HeaderError, Chunk, Serialized, SendInv, Taken, InOrder;
    if a.ReadNothing? && s.open {
      assert IsReading(s, a.id);
      SomethingBehind(t, s, a.id);
    } else if a.ReleaseRecv? {
      assert IsReading(s, a.id);
      assert forall id: TaskId :: IsReadingPayload(Apply(t, s, a), id) ==> id != a.id && IsReading(s, id);
    } else if a.HeaderAtEnd? || a.FinishHeader? {
      assert IsReading(s, a.id);
      assert forall id: TaskId :: IsReading(s, id) ==> id == a.id;
    }
  }

  /** Where an empty packet is in hand, whatever the stream holds belongs to later packets. */
  lemma SomethingBehind(t: Target, s: State, id: TaskId)
    requires Inv(t, s) && s.open && IsReadingNothing(s, id)
    ensures s.recvLock == Some(id) && s.delivered < |s.sendLog| && !HasPayload(s.sendLog[s.delivered])
    ensures s.queue != [] ==> s.delivered + 1 < |s.sendLog|
  {
    assert IsReading(s, id);
    HolderInHand(t, s, id);
    TakenIsPrefix(t, s);
    SentPrefix(t, s.sendLog, s.written, SendHolder(s));
    if s.delivered + 1 == |s.sendLog| {
      OnlyOneLeft(t, s.sendLog, s.delivered);
    }
  }

  lemma OnlyOneLeft(t: Target, log: seq<Message>, r: nat)
    requires AllFit(log) && r + 1 == |log|
    ensures |StreamOf(t, log)| == |StreamOf(t, log[..r])| + TotalBytes(log[r])
  {
  }

  lemma GoodStep(t: Target, s: State, a: Action)
    requires Good(t, s) && Enabled(t, s, a)
    ensures Good(t, Apply(t, s, a))
  {
    hide Inv, SendLine, RecvLine, EmptyPassed, Apply, Enabled;
    StepKeepsInv(t, s, a);
    SendLineStep(t, s, a);
    RecvLineStep(t, s, a);
    EmptyPassedStep(t, s, a);
  }

  lemma {:induction false} GoodRun(t: Target, s: State, actions: seq<Action>)
    requires Good(t, s) && IsRun(t, s, actions)
    ensures Good(t, After(t, s, actions))
    decreases |actions|
  {
    hide Good, Apply, Enabled;
    if actions != [] {
      GoodStep(t, s, actions[0]);
      GoodRun(t, Apply(t, s, actions[0]), actions[1..]);
    }
  }

  lemma GoodInitially(t: Target)
    ensures Good(t, INITIAL)
  {
    InitialInv(t);
  }

  // ---------- runs of existing tasks ----------

  /** Steps of the tasks that exist already. */
  predicate IsWork(a: Action)
  {
    !a.StartSend? && !a.StartRecv? && !a.CloseStream?
  }

  predicate AllWork(actions: seq<Action>)
  {
    forall i :: 0 <= i < |actions| ==> IsWork(actions[i])
  }

  /** The tasks can take the state to `next` by themselves. */
  ghost predicate Leads(t: Target, s: State, actions: seq<Action>, next: State)
  {
    IsRun(t, s, actions) && AllWork(actions) && After(t, s, actions) == next
  }

  lemma LeadsNowhere(t: Target, s: State)
    ensures Leads(t, s, [], s)
  {
  }

  lemma {:induction false} RunSnoc(t: Target, s: State, actions: seq<Action>, a: Action)
    requires IsRun(t, s, actions) && Enabled(t, After(t, s, actions), a)
    ensures IsRun(t, s, actions + [a]) && After(t, s, actions + [a]) == Apply(t, After(t, s, actions), a)
    decreases |actions|
  {
    hide Apply, Enabled;
    if actions == [] {
      assert [] + [a] == [a] && [a][1..] == [];
    } else {
      assert (actions + [a])[1..] == actions[1..] + [a];
      RunSnoc(t, Apply(t, s, actions[0]), actions[1..], a);
    }
  }

  lemma LeadsOn(t: Target, s: State, actions: seq<Action>, mid: State, a: Action)
    requires Leads(t, s, actions, mid) && Enabled(t, mid, a) && IsWork(a) && Good(t, mid)
    ensures Leads(t, s, actions + [a], Apply(t, mid, a)) && Good(t, Apply(t, mid, a))
  {
    hide Apply, Enabled, IsWork, Good;
    RunSnoc(t, s, actions, a);
    GoodStep(t, mid, a);
  }

  // ---------- senders ----------

  /** Nothing that concerns receivers differs, except that more may have been written. */
  predicate SameReceiving(s: State, next: State)
  {
    && next.receivers == s.receivers && next.recvLock == s.recvLock && next.recvLine == s.recvLine
    && next.taken == s.taken && next.acquired == s.acquired && next.outcomes == s.outcomes
    && next.delivered == s.delivered
  }

  lemma HolderFits(t: Target, s: State, id: TaskId)
    requires Inv(t, s) && s.sendLock == Some(id)
    ensures IsSending(s, id) && Fits(s.senders[id].message) && s.senders[id].sent <= TotalBytes(s.senders[id].message)
  {
    hide RecvInv;
  }

  /** The lock holder sends the rest in one piece. */
  lemma SendRest(t: Target, s: State, actions: seq<Action>, mid: State, id: TaskId)
    returns (all: seq<Action>, next: State)
    requires Leads(t, s, actions, mid) && Good(t, mid) && mid.open && mid.sendLock == Some(id)
    ensures Leads(t, s, all, next) && Good(t, next) && SameSendLine(mid, next) && SameReceiving(mid, next)
    ensures IsSending(mid, id) && Fits(mid.senders[id].message)
    ensures var m := mid.senders[id].message; next.senders == mid.senders[id := Sending(m, TotalBytes(m))]
  {
    HolderFits(t, mid, id);
    hide Leads, Good, Apply, Enabled, SameReceiving, SameSendLine, TotalBytes, Fits;
    var m := mid.senders[id].message;
    if mid.senders[id].sent < TotalBytes(m) {
      var a := SendChunk(id, TotalBytes(m) - mid.senders[id].sent);
      RestSent(t, mid, id);
      LeadsOn(t, s, actions, mid, a);
      all, next := actions + [a], Apply(t, mid, a);
    } else {
      SameTransitive(mid, mid, mid);
      assert mid.senders[id] == Sending(m, TotalBytes(m));
      all, next := actions, mid;
    }
  }

  /** The lock holder sends the rest and releases the lock. */
  lemma FinishHolder(t: Target, s: State, actions: seq<Action>, mid: State, id: TaskId)
    returns (all: seq<Action>, next: State)
    requires Leads(t, s, actions, mid) && Good(t, mid) && mid.open && mid.sendLock == Some(id)
    ensures Leads(t, s, all, next) && Good(t, next) && next.sendLock == None
    ensures SameSendLine(mid, next) && SameReceiving(mid, next)
    ensures id in mid.senders && next.senders == mid.senders[id := SendDone]
  {
    hide Leads, Good, Apply, Enabled, SameReceiving, SameSendLine, TotalBytes, Fits;
    var sent: State;
    all, sent := SendRest(t, s, actions, mid, id);
    HolderReleased(t, sent, id);
    LeadsOn(t, s, all, sent, ReleaseSend(id));
    next := Apply(t, sent, ReleaseSend(id));
    SameTransitive(mid, sent, next);
    assert next.senders == mid.senders[id := SendDone];
    all := all + [ReleaseSend(id)];
  }

  lemma SameTransitive(a: State, b: State, c: State)
    ensures SameReceiving(a, a) && SameSendLine(a, a)
    ensures SameReceiving(a, b) && SameReceiving(b, c) ==> SameReceiving(a, c)
    ensures SameSendLine(a, b) && SameSendLine(b, c) ==> SameSendLine(a, c)
  {
  }

  /** Nothing that concerns the send lock and its line differs. */
  predicate SameSendLine(s: State, next: State)
  {
    next.sendLine == s.sendLine && next.sendLog == s.sendLog && next.open == s.open
  }

  lemma RestSent(t: Target, s: State, id: TaskId)
    requires s.open && IsSending(s, id) && Fits(s.senders[id].message)
    requires s.senders[id].sent < TotalBytes(s.senders[id].message)
    ensures var m := s.senders[id].message;
            var a := SendChunk(id, TotalBytes(m) - s.senders[id].sent);
            && Enabled(t, s, a)
            && var next := Apply(t, s, a);
               && next.senders == s.senders[id := Sending(m, TotalBytes(m))] && next.sendLock == s.sendLock
               && SameSendLine(s, next) && SameReceiving(s, next)
  {
    hide Chunk, Fits;
  }

  lemma HolderReleased(t: Target, s: State, id: TaskId)
    requires IsSending(s, id) && s.senders[id].sent >= TotalBytes(s.senders[id].message)
    ensures Enabled(t, s, ReleaseSend(id))
    ensures var next := Apply(t, s, ReleaseSend(id));
            && next.senders == s.senders[id := SendDone] && next.sendLock == None
            && SameSendLine(s, next) && SameReceiving(s, next)
  {
  }

  /** All those who stand in the line still wait. */
  predicate AllWaiting(s: State)
  {
    forall i :: 0 <= i < |s.sendLine| ==> s.sendLine[i] in s.senders && s.senders[s.sendLine[i]].SendWaiting?
  }

  /** The packets sent, and those of the tasks that wait to send, in the order of the line. */
  function AllSent(s: State): (log: seq<Message>)
    requires AllWaiting(s)
    ensures s.sendLog <= log
  {
    s.sendLog + seq(|s.sendLine|, i requires 0 <= i < |s.sendLine| => s.senders[s.sendLine[i]].packet)
  }

  lemma LineWaits(t: Target, s: State)
    requires Good(t, s)
    ensures AllWaiting(s)
    ensures forall id :: id in s.senders ==> (s.senders[id].Sending? <==> s.sendLock == Some(id))
    ensures forall id :: id in s.senders && s.senders[id].SendWaiting? ==> id in s.sendLine
  {
    hide RecvInv, RecvLine, EmptyPassed, Sent;
    forall id | id in s.senders ensures s.senders[id].Sending? <==> s.sendLock == Some(id) {
      assert IsSending(s, id) <==> s.senders[id].Sending?;
    }
  }

  lemma SendAcquired(t: Target, s: State)
    requires AllWaiting(s) && s.sendLine != [] && s.sendLock == None && Distinct(s.sendLine)
    ensures Enabled(t, s, AcquireSend(s.sendLine[0]))
    ensures var next := Apply(t, s, AcquireSend(s.sendLine[0]));
            && next.sendLock == Some(s.sendLine[0]) && next.sendLine == s.sendLine[1..] && next.open == s.open
            && next.senders.Keys == s.senders.Keys && next.senders[s.sendLine[0]].Sending?
            && (forall id :: id in s.senders && id != s.sendLine[0] ==> next.senders[id] == s.senders[id])
            && SameReceiving(s, next) && AllWaiting(next) && AllSent(next) == AllSent(s)
            && next.sendLog == s.sendLog + [s.senders[s.sendLine[0]].packet]
  {
    var next := Apply(t, s, AcquireSend(s.sendLine[0]));
    forall i | 0 <= i < |next.sendLine|
      ensures next.sendLine[i] == s.sendLine[i + 1] != s.sendLine[0]
    {
    }
    assert AllSent(next) == AllSent(s);
  }

  lemma LineDistinct(t: Target, s: State)
    requires Good(t, s)
    ensures Distinct(s.sendLine) && Distinct(s.recvLine)
  {
  }

  /** Everybody who was sending or waiting to send has sent, in the order of the line. */
  ghost predicate Drained(s: State, next: State)
  {
    && AllWaiting(s) && next.sendLog == AllSent(s) && SameReceiving(s, next)
    && next.open && next.sendLock == None && next.sendLine == []
    && forall id :: id in s.senders && !s.senders[id].SendRefused? ==>
                      id in next.senders && next.senders[id] == SendDone
  }

  lemma DrainedAfterFinish(s: State, next: State, holder: TaskId, end: State)
    requires AllWaiting(s) && SameSendLine(s, next) && SameReceiving(s, next) && Drained(next, end)
    requires holder in s.senders && s.senders[holder].Sending? && next.senders == s.senders[holder := SendDone]
    ensures Drained(s, end)
  {
    HolderWasNotWaiting(s, next, holder);
    SameTransitive(s, next, end);
    hide AllSent, AllWaiting, SameReceiving;
  }

  lemma DrainedAfterAcquire(t: Target, s: State, end: State)
    requires Good(t, s) && AllWaiting(s) && s.sendLine != [] && s.sendLock == None
    requires Enabled(t, s, AcquireSend(s.sendLine[0])) && Drained(Apply(t, s, AcquireSend(s.sendLine[0])), end)
    requires !s.senders[s.sendLine[0]].SendRefused? && s.sendLine[0] in Apply(t, s, AcquireSend(s.sendLine[0])).senders
    requires !Apply(t, s, AcquireSend(s.sendLine[0])).senders[s.sendLine[0]].SendRefused?
    ensures Drained(s, end)
  {
    LineDistinct(t, s);
    SendAcquired(t, s);
    hide Good, Apply, Enabled, AllSent, AllWaiting, SameReceiving;
    SameTransitive(s, Apply(t, s, AcquireSend(s.sendLine[0])), end);
  }

  /** One by one, in the order of the line, everybody sends. */
  lemma {:induction false} DrainSenders(t: Target, s: State, actions: seq<Action>, mid: State)
    returns (all: seq<Action>, next: State)
    requires Leads(t, s, actions, mid) && Good(t, mid) && mid.open
    ensures Leads(t, s, all, next) && Good(t, next) && Drained(mid, next)
    decreases |mid.sendLine|, 1
  {
    LineWaits(t, mid);
    hide Leads, Good, AllWaiting, SameReceiving, Drained;
    if mid.sendLock.Some? {
      all, next := FinishHolder(t, s, actions, mid, mid.sendLock.value);
      var free := next;
      all, next := DrainUnlocked(t, s, all, free);
      DrainedAfterFinish(mid, free, mid.sendLock.value, next);
    } else {
      all, next := DrainUnlocked(t, s, actions, mid);
    }
  }

  lemma {:induction false} DrainUnlocked(t: Target, s: State, actions: seq<Action>, mid: State)
    returns (all: seq<Action>, next: State)
    requires Leads(t, s, actions, mid) && Good(t, mid) && mid.open && mid.sendLock == None
    ensures Leads(t, s, all, next) && Good(t, next) && Drained(mid, next)
    decreases |mid.sendLine|, 0
  {
    LineWaits(t, mid);
    LineDistinct(t, mid);
    hide Leads, Good, SameReceiving, Drained, Apply, Enabled;
    if mid.sendLine == [] {
      NobodyWaits(t, mid);
      all, next := actions, mid;
    } else {
      var a := AcquireSend(mid.sendLine[0]);
      SendAcquired(t, mid);
      LeadsOn(t, s, actions, mid, a);
      all, next := DrainSenders(t, s, actions + [a], Apply(t, mid, a));
      DrainedAfterAcquire(t, mid, next);
    }
  }

  lemma NobodyWaits(t: Target, s: State)
    requires Good(t, s) && s.sendLine == [] && s.sendLock == None
    ensures AllWaiting(s) && AllSent(s) == s.sendLog && (s.open ==> Drained(s, s))
  {
    LineWaits(t, s);
    hide Good;
  }

  lemma HolderWasNotWaiting(s: State, next: State, holder: TaskId)
    requires AllWaiting(s) && SameSendLine(s, next)
    requires holder in s.senders && s.senders[holder].Sending? && next.senders == s.senders[holder := SendDone]
    ensures AllWaiting(next) && AllSent(next) == AllSent(s)
  {
    SamePackets(s, next);
  }

  lemma SamePackets(s: State, next: State)
    requires AllWaiting(s) && AllWaiting(next) && next.sendLine == s.sendLine && next.sendLog == s.sendLog
    requires forall id :: id in s.senders && s.senders[id].SendWaiting? && id in next.senders ==>
                            next.senders[id].SendWaiting? ==> next.senders[id] == s.senders[id]
    ensures AllSent(next) == AllSent(s)
  {
  }

  ghost predicate SenderCanFinish(t: Target, s: State, id: TaskId)
  {
    exists actions, next :: Leads(t, s, actions, next) && id in next.senders && next.senders[id] == SendDone
  }

  /** In every reachable state with an open stream, a task that waits to send or is sending can finish, by
      nothing but the work of tasks that exist already, each in its turn. */
  lemma SendersFinish(t: Target, run: seq<Action>, id: TaskId)
    requires IsRun(t, INITIAL, run) && After(t, INITIAL, run).open
    requires var s := After(t, INITIAL, run); id in s.senders && (s.senders[id].SendWaiting? || s.senders[id].Sending?)
    ensures SenderCanFinish(t, After(t, INITIAL, run), id)
  {
    GoodInitially(t);
    GoodRun(t, INITIAL, run);
    hide IsRun, After, Good, Leads;
    var s := After(t, INITIAL, run);
    LeadsNowhere(t, s);
    var all, next := DrainSenders(t, s, [], s);
    assert next.senders[id] == SendDone;
  }

  // ---------- receivers ----------

  predicate HasPayload(m: Message)
  {
    m.payload != []
  }

  /** The packet that the receive-lock holder is after has been sent, and, if it has no payload, another one
      has been sent behind it. */
  predicate Ready(log: seq<Message>, r: nat)
  {
    r < |log| && (HasPayload(log[r]) || r + 1 < |log|)
  }

  function Part(t: Target, s: State): (n: int)
    requires AllFit(s.sendLog) && s.delivered <= |s.sendLog|
  {
    |s.taken| - |StreamOf(t, s.sendLog[..s.delivered])|
  }

  /** The stream holds the rest of the packet that is next, and something behind an empty one. */
  lemma QueueHolds(t: Target, s: State)
    requires Inv(t, s) && s.open && s.sendLock == None && Ready(s.sendLog, s.delivered)
    ensures s.delivered == |s.outcomes|
    ensures Part(t, s) + |s.queue| >= TotalBytes(s.sendLog[s.delivered])
    ensures !HasPayload(s.sendLog[s.delivered]) ==> Part(t, s) + |s.queue| >= 16
  {
    hide Frame, Taken, InOrder;
    var log, r := s.sendLog, s.delivered;
    assert s.written == StreamOf(t, log);
    StreamAt(t, log, r);
    if r + 1 < |log| {
      StreamAt(t, log, r + 1);
      assert log[..r + 1][..r] == log[..r];
    }
  }

  lemma HolderInHand(t: Target, s: State, id: TaskId)
    requires Inv(t, s) && s.open && s.recvLock == Some(id)
    ensures id in s.receivers && s.delivered == |s.outcomes|
    ensures var task := s.receivers[id];
            && (task.ReadingHeader? || task.ReadingNothing? || task.ReadingPayload?)
            && (task.ReadingHeader? ==> |task.buf| == Part(t, s) <= 8)
            && (task.ReadingNothing? ==> s.delivered < |s.sendLog| && Part(t, s) == 8
                                         && TotalBytes(s.sendLog[s.delivered]) == 8)
            && (task.ReadingPayload? ==>
                  && s.delivered < |s.sendLog| && task.header.objectId == s.sendLog[s.delivered].objectId
                  && task.header.size == TotalBytes(s.sendLog[s.delivered])
                  && |task.payload| == Part(t, s) - 8 <= TotalBytes(s.sendLog[s.delivered]) - 8)
  {
    hide SendInv, StreamOf, InOrder, FdsIn;
    assert IsReading(s, id);
  }

  /** Nothing that concerns senders differs, nor which task holds the receive lock. */
  predicate SameSending(s: State, next: State)
  {
    && next.senders == s.senders && next.sendLock == s.sendLock && next.sendLine == s.sendLine
    && next.sendLog == s.sendLog && next.open == s.open && next.recvLine == s.recvLine
    && next.delivered == s.delivered && next.outcomes == s.outcomes && next.recvLock == s.recvLock
    && next.acquired == s.acquired
  }

  /** No receiver but this one has moved. */
  predicate SameOthers(s: State, next: State, id: TaskId)
  {
    next.receivers.Keys == s.receivers.Keys
    && forall i :: i in s.receivers && i != id ==> next.receivers[i] == s.receivers[i]
  }

  lemma ReceiverStep(t: Target, s: State, a: Action)
    requires Enabled(t, s, a)
    requires a.TakeHeader? || a.ReadNothing? || a.TakePayload?
    ensures SameSending(s, Apply(t, s, a)) && SameOthers(s, Apply(t, s, a), a.id)
    ensures a.TakeHeader? ==> IsReadingHeader(Apply(t, s, a), a.id)
                              && |Apply(t, s, a).receivers[a.id].buf| == |s.receivers[a.id].buf| + a.count
    ensures !a.TakeHeader? ==> IsReadingPayload(Apply(t, s, a), a.id)
  {
    hide FdsIn;
  }

  lemma HeaderIsThere(t: Target, s: State, id: TaskId)
    requires Inv(t, s) && s.open && s.sendLock == None && s.recvLock == Some(id) && Ready(s.sendLog, s.delivered)
    ensures IsReadingHeader(s, id) || IsReadingNothing(s, id) || IsReadingPayload(s, id)
    ensures IsReadingHeader(s, id) ==> |s.receivers[id].buf| <= 8
    ensures IsReadingHeader(s, id) && |s.receivers[id].buf| < 8 ==>
            Enabled(t, s, TakeHeader(id, 8 - |s.receivers[id].buf|))
  {
    hide Inv, Ready;
    HolderInHand(t, s, id);
    QueueHolds(t, s);
  }

  lemma GoodInv(t: Target, s: State)
    requires Good(t, s)
    ensures Inv(t, s)
  {
  }

  /** The holder of the receive lock completes its header. */
  lemma CompleteHeader(t: Target, s: State, actions: seq<Action>, mid: State, id: TaskId)
    returns (all: seq<Action>, next: State)
    requires Leads(t, s, actions, mid) && Good(t, mid) && mid.open && mid.sendLock == None && mid.recvLock == Some(id)
    requires Ready(mid.sendLog, mid.delivered)
    ensures Leads(t, s, all, next) && Good(t, next) && SameSending(mid, next) && SameOthers(mid, next, id)
    ensures IsReadingNothing(next, id) || IsReadingPayload(next, id)
  {
    hide Leads, Good, Ready, Apply, Enabled;
    GoodInv(t, mid);
    HeaderIsThere(t, mid, id);
    all, next := actions, mid;
    if IsReadingHeader(mid, id) {
      if |mid.receivers[id].buf| < 8 {
        var a := TakeHeader(id, 8 - |mid.receivers[id].buf|);
        LeadsOn(t, s, all, next, a);
        ReceiverStep(t, next, a);
        all, next := all + [a], Apply(t, next, a);
      }
      GoodInv(t, next);
      HeaderAccepted(t, next, id);
      LeadsOn(t, s, all, next, FinishHeader(id));
      all, next := all + [FinishHeader(id)], Apply(t, next, FinishHeader(id));
    }
  }

  lemma HeaderAccepted(t: Target, s: State, id: TaskId)
    requires Inv(t, s) && s.open && s.recvLock == Some(id) && IsReadingHeader(s, id) && |s.receivers[id].buf| == 8
    ensures Enabled(t, s, FinishHeader(id))
    ensures var next := Apply(t, s, FinishHeader(id));
            && SameSending(s, next) && SameOthers(s, next, id)
            && (IsReadingNothing(next, id) || IsReadingPayload(next, id))
  {
    hide ParseHeader, StreamOf, FdsIn, BytesOf, InOrder, Sent, InHand;
    assert IsReading(s, id);
    TakenIsPrefix(t, s);
    TakenFinishHeader(t, s.sendLog, s.taken, s.delivered, s.receivers[id].buf, s.receivers[id].fds);
  }

  /** The holder of the receive lock gets its packet and releases the lock. */
  lemma FinishReceiver(t: Target, s: State, actions: seq<Action>, mid: State, id: TaskId)
    returns (all: seq<Action>, next: State)
    requires Leads(t, s, actions, mid) && Good(t, mid) && mid.open && mid.sendLock == None && mid.recvLock == Some(id)
    requires Ready(mid.sendLog, mid.delivered)
    ensures Leads(t, s, all, next) && Good(t, next) && next.open && next.sendLock == None && next.recvLock == None
    ensures next.sendLine == mid.sendLine && next.recvLine == mid.recvLine
    ensures next.sendLog == mid.sendLog && next.delivered == mid.delivered + 1
    ensures IsDone(next, id) && SameOthers(mid, next, id)
  {
    hide Leads, Good, Part, Apply, Ready;
    all, next := CompleteHeader(t, s, actions, mid, id);
    GoodInv(t, next);
    if IsReadingNothing(next, id) {
      EmptyIsReadable(t, next, id);
      LeadsOn(t, s, all, next, ReadNothing(id));
      ReceiverStep(t, next, ReadNothing(id));
      all, next := all + [ReadNothing(id)], Apply(t, next, ReadNothing(id));
    }
    GoodInv(t, next);
    RestIsThere(t, next, id);
    var missing := Missing(next.receivers[id]);
    if missing > 0 {
      var a := TakePayload(id, missing);
      TakesTheRest(t, next, id);
      LeadsOn(t, s, all, next, a);
      ReceiverStep(t, next, a);
      all, next := all + [a], Apply(t, next, a);
    }
    ReleaseIsDone(t, next, id);
    Released(t, next, id);
    LeadsOn(t, s, all, next, ReleaseRecv(id));
    all, next := all + [ReleaseRecv(id)], Apply(t, next, ReleaseRecv(id));
  }

  lemma EmptyIsReadable(t: Target, s: State, id: TaskId)
    requires Inv(t, s) && s.open && s.sendLock == None && s.recvLock == Some(id) && IsReadingNothing(s, id)
    requires Ready(s.sendLog, s.delivered)
    ensures Enabled(t, s, ReadNothing(id))
  {
    hide Inv;
    HolderInHand(t, s, id);
    QueueHolds(t, s);
  }

  lemma RestIsThere(t: Target, s: State, id: TaskId)
    requires Inv(t, s) && s.open && s.sendLock == None && s.recvLock == Some(id) && IsReadingPayload(s, id)
    requires Ready(s.sendLog, s.delivered)
    ensures 0 <= Missing(s.receivers[id]) <= |s.queue| && s.receivers[id].header.objectId != 0
  {
    hide Inv;
    HolderInHand(t, s, id);
    QueueHolds(t, s);
  }

  lemma Released(t: Target, s: State, id: TaskId)
    requires Enabled(t, s, ReleaseRecv(id))
    ensures var next := Apply(t, s, ReleaseRecv(id));
            && next.sendLog == s.sendLog && next.sendLock == s.sendLock && next.sendLine == s.sendLine
            && next.open == s.open && next.recvLine == s.recvLine
            && next.recvLock == None && next.delivered == s.delivered + 1 && SameOthers(s, next, id)
  {
  }

  lemma WaitsIfNotReading(t: Target, s: State, id: TaskId)
    requires Good(t, s) && s.open && id in s.receivers && !s.receivers[id].RecvDone?
    ensures s.recvLock != Some(id) <==> id in s.recvLine
    ensures s.recvLock.Some? ==> s.recvLock.value in s.receivers && !s.receivers[s.recvLock.value].RecvDone?
  {
    hide SendInv, Taken, InOrder, SendLine, EmptyPassed;
    assert IsReading(s, id) || s.receivers[id].RecvWaiting?;
  }

  lemma ReadyBefore(log: seq<Message>, r: nat, k: nat)
    requires Ready(log, k) && r <= k
    ensures Ready(log, r)
  {
  }

  ghost predicate ReceiverCanFinish(t: Target, s: State, id: TaskId)
  {
    exists actions, next :: Leads(t, s, actions, next) && IsDone(next, id)
  }

  /** The number of the packet that a receiver gets: the lock holder is served before it, and so are those who
      stand before it in the line. */
  function NextPacket(s: State, id: TaskId): nat
  {
    if s.recvLock == Some(id) || id !in s.recvLine then s.delivered
    else s.delivered + (if s.recvLock.Some? then 1 else 0) + IndexOf(s.recvLine, id)
  }

  lemma RecvAcquired(t: Target, s: State)
    requires RecvLine(s) && s.recvLine != [] && s.recvLock == None
    ensures Enabled(t, s, AcquireRecv(s.recvLine[0]))
    ensures var next := Apply(t, s, AcquireRecv(s.recvLine[0]));
            && next.recvLock == Some(s.recvLine[0]) && next.recvLine == s.recvLine[1..] && next.sendLine == s.sendLine
            && next.sendLock == s.sendLock && next.sendLog == s.sendLog && next.senders == s.senders
            && next.open == s.open && next.delivered == s.delivered && SameOthers(s, next, s.recvLine[0])
            && next.receivers[s.recvLine[0]] == ReadingHeader([], [])
    ensures forall id :: id in s.recvLine ==>
                           NextPacket(Apply(t, s, AcquireRecv(s.recvLine[0])), id) == NextPacket(s, id)
  {
    assert s.recvLine[0] in s.recvLine;
    var next := Apply(t, s, AcquireRecv(s.recvLine[0]));
    DistinctTail(s.recvLine);
    forall id | id in s.recvLine ensures NextPacket(next, id) == NextPacket(s, id) {
    }
  }

  lemma LineOf(t: Target, s: State)
    requires Good(t, s)
    ensures RecvLine(s)
  {
  }

  /** One by one, in the order of the line, the receivers are served until it is this one's turn. */
  lemma {:induction false} ServeReceivers(t: Target, s: State, actions: seq<Action>, mid: State, id: TaskId)
    returns (all: seq<Action>, next: State)
    requires Leads(t, s, actions, mid) && Good(t, mid) && mid.open && mid.sendLock == None
    requires id in mid.receivers && !mid.receivers[id].RecvDone? && Ready(mid.sendLog, NextPacket(mid, id))
    ensures Leads(t, s, all, next) && IsDone(next, id)
    decreases |mid.recvLine|
  {
    WaitsIfNotReading(t, mid, id);
    ReadyBefore(mid.sendLog, mid.delivered, NextPacket(mid, id));
    hide Leads, Good, Apply, Enabled, Ready, RecvLine;
    all, next := actions, mid;
    if next.recvLock.Some? {
      all, next := FinishReceiver(t, s, all, next, next.recvLock.value);
    }
    if mid.recvLock != Some(id) {
      assert NextPacket(next, id) == NextPacket(mid, id);
      LineOf(t, next);
      RecvAcquired(t, next);
      var a := AcquireRecv(next.recvLine[0]);
      LeadsOn(t, s, all, next, a);
      all, next := ServeReceivers(t, s, all + [a], Apply(t, next, a), id);
    }
  }

  // ---------- a receiver's place is its own ----------

  lemma WaitersUnmoved(t: Target, s: State, a: Action)
    requires Enabled(t, s, a) && IsWork(a) && !a.AcquireSend?
    ensures var next := Apply(t, s, a);
            && next.sendLine == s.sendLine && next.sendLog == s.sendLog
            && forall id :: id in s.senders && s.senders[id].SendWaiting? ==>
                 id in next.senders && next.senders[id] == s.senders[id]
  {
    hide BytesOf, FdsIn, ParseHeader, HeaderError, Chunk, Serialized;
  }

  lemma SameSentStep(t: Target, s: State, a: Action)
    requires Good(t, s) && Enabled(t, s, a) && IsWork(a)
    ensures AllWaiting(s) && AllWaiting(Apply(t, s, a)) && AllSent(Apply(t, s, a)) == AllSent(s)
  {
    LineWaits(t, s);
    LineDistinct(t, s);
    if a.AcquireSend? {
      SendAcquired(t, s);
    } else {
      WaitersUnmoved(t, s, a);
      hide Good, Apply, Enabled, AllSent;
      SamePackets(s, Apply(t, s, a));
    }
  }

  /** A step of existing tasks leaves a receiver the number of its packet, until it has finished; and it finishes
      only with a packet that is ready. */
  lemma PlaceKept(t: Target, s: State, a: Action, id: TaskId)
    requires Good(t, s) && s.open && Enabled(t, s, a) && IsWork(a)
    requires id in s.receivers && !s.receivers[id].RecvDone?
    ensures var next := Apply(t, s, a);
            && next.open && id in next.receivers
            && (if IsDone(next, id) then Ready(s.sendLog, NextPacket(s, id))
                else NextPacket(next, id) == NextPacket(s, id))
  {
    WaitsIfNotReading(t, s, id);
    LineOf(t, s);
    if a.AcquireRecv? {
      hide Good, RecvLine;
      RecvAcquired(t, s);
    } else if a.ReleaseRecv? {
      ReleasePlace(t, s, a.id, id);
    } else if a.FinishHeader? {
      GoodInv(t, s);
      HoldsWhileReading(t, s, a.id);
      HeaderAccepted(t, s, a.id);
      hide Good, Apply, Enabled, RecvLine;
    } else {
      OtherPlace(t, s, a, id);
    }
  }

  lemma HoldsWhileReading(t: Target, s: State, id: TaskId)
    requires Inv(t, s) && IsReading(s, id)
    ensures s.recvLock == Some(id)
  {
  }

  lemma OtherPlace(t: Target, s: State, a: Action, id: TaskId)
    requires s.open && Enabled(t, s, a) && IsWork(a) && !a.AcquireRecv? && !a.ReleaseRecv? && !a.FinishHeader?
    requires id in s.receivers && !s.receivers[id].RecvDone?
    ensures var next := Apply(t, s, a);
            next.open && id in next.receivers && !IsDone(next, id) && NextPacket(next, id) == NextPacket(s, id)
  {
    hide BytesOf, FdsIn, Chunk, Serialized;
  }

  lemma ReleasePlace(t: Target, s: State, holder: TaskId, id: TaskId)
    requires Good(t, s) && s.open && Enabled(t, s, ReleaseRecv(holder))
    requires id in s.receivers && !s.receivers[id].RecvDone?
    ensures var next := Apply(t, s, ReleaseRecv(holder));
            && next.open && id in next.receivers
            && (if IsDone(next, id) then Ready(s.sendLog, NextPacket(s, id))
                else NextPacket(next, id) == NextPacket(s, id))
  {
    GoodInv(t, s);
    HoldsWhileReading(t, s, holder);
    WaitsIfNotReading(t, s, id);
    HolderInHand(t, s, holder);
    Released(t, s, holder);
    assert s.receivers[holder].header.size == 8 ==> s.delivered + 1 < |s.sendLog|;
    hide Good, Inv;
  }

  lemma ReadyInLonger(log: seq<Message>, longer: seq<Message>, k: nat)
    requires Ready(log, k) && log <= longer
    ensures Ready(longer, k)
  {
  }

  lemma {:induction false} FinishedWasReady(t: Target, s: State, actions: seq<Action>, id: TaskId)
    requires Good(t, s) && s.open && AllWaiting(s) && id in s.receivers && !s.receivers[id].RecvDone?
    requires IsRun(t, s, actions) && AllWork(actions) && IsDone(After(t, s, actions), id)
    ensures Ready(AllSent(s), NextPacket(s, id))
    decreases |actions|
  {
    hide Good, Apply, Enabled, IsWork, AllWaiting, AllSent, NextPacket, Ready;
    assert actions != [];
    var a, next := actions[0], Apply(t, s, actions[0]);
    assert AllWork(actions[1..]);
    GoodStep(t, s, a);
    SameSentStep(t, s, a);
    PlaceKept(t, s, a, id);
    if IsDone(next, id) {
      ReadyInLonger(s.sendLog, AllSent(s), NextPacket(s, id));
    } else {
      FinishedWasReady(t, next, actions[1..], id);
    }
  }

  /** In every reachable state with an open stream, a receiver can finish by nothing but the work of tasks that
      exist already, each in its turn, if and only if the packet whose number it will get is among those sent or
      waiting to be sent; and if that packet has no payload, another one must stand behind it. */
  lemma ReceiversFinish(t: Target, run: seq<Action>, id: TaskId)
    requires IsRun(t, INITIAL, run) && After(t, INITIAL, run).open
    requires var s := After(t, INITIAL, run); id in s.receivers && !s.receivers[id].RecvDone?
    ensures var s := After(t, INITIAL, run);
            AllWaiting(s) && (ReceiverCanFinish(t, s, id) <==> Ready(AllSent(s), NextPacket(s, id)))
  {
    GoodInitially(t);
    GoodRun(t, INITIAL, run);
    var s := After(t, INITIAL, run);
    LineWaits(t, s);
    hide IsRun, Good, Ready, IsDone, AllWork, AllSent, NextPacket;
    if Ready(AllSent(s), NextPacket(s, id)) {
      hide After, Leads;
      LeadsNowhere(t, s);
      var all, next := DrainSenders(t, s, [], s);
      SamePlace(s, next, id);
      all, next := ServeReceivers(t, s, all, next, id);
    } else {
      forall actions, next | Leads(t, s, actions, next) ensures !IsDone(next, id) {
        if IsDone(next, id) {
          FinishedWasReady(t, s, actions, id);
        }
      }
    }
  }

  lemma SamePlace(s: State, next: State, id: TaskId)
    requires SameReceiving(s, next)
    ensures NextPacket(next, id) == NextPacket(s, id)
  {
  }

  /** A sender with a packet and a receiver, both waiting. */
  lemma BothWait(t: Target, m: Message) returns (mid: State, s: State)
    requires Fits(m)
    ensures Enabled(t, INITIAL, StartSend(0, m)) && mid == Apply(t, INITIAL, StartSend(0, m))
    ensures Enabled(t, mid, StartRecv(0)) && s == Apply(t, mid, StartRecv(0)) && Good(t, s)
    ensures s.senders == map[0 := SendWaiting(m)] && s.receivers == map[0 := RecvWaiting]
    ensures s.sendLine == [0] && s.recvLine == [0]
    ensures s.open && s.sendLock == None && s.recvLock == None && s.sendLog == [] && s.delivered == 0
  {
    GoodInitially(t);
    hide Good;
    mid := Apply(t, INITIAL, StartSend(0, m));
    GoodStep(t, INITIAL, StartSend(0, m));
    s := Apply(t, mid, StartRecv(0));
    GoodStep(t, mid, StartRecv(0));
  }

  /** There is a run that takes any one packet with a payload all the way. */
  lemma OnePacket(t: Target, m: Message) returns (run: seq<Action>)
    requires Fits(m) && HasPayload(m)
    ensures IsRun(t, INITIAL, run)
    ensures var s := After(t, INITIAL, run); s.sendLog == [m] && s.delivered == 1
  {
    hide Good, Leads, Apply, Enabled, IsRun, After, RecvLine;
    var mid, s := BothWait(t, m);
    LeadsNowhere(t, s);
    var all, next := DrainSenders(t, s, [], s);
    assert next.sendLog == [m];
    LineOf(t, next);
    RecvAcquired(t, next);
    LeadsOn(t, s, all, next, AcquireRecv(0));
    all, next := FinishReceiver(t, s, all + [AcquireRecv(0)], Apply(t, next, AcquireRecv(0)), 0);
    run := [StartSend(0, m), StartRecv(0)] + all;
    LeadsFromStart(t, StartSend(0, m), StartRecv(0), s, all, next);
  }

  lemma LeadsFromStart(t: Target, a: Action, b: Action, s: State, all: seq<Action>, next: State)
    requires Enabled(t, INITIAL, a) && Enabled(t, Apply(t, INITIAL, a), b) && Apply(t, Apply(t, INITIAL, a), b) == s
    requires Leads(t, s, all, next)
    ensures IsRun(t, INITIAL, [a, b] + all) && After(t, INITIAL, [a, b] + all) == next
  {
    hide Enabled, Apply;
    assert ([a, b] + all)[1..] == [b] + all && ([b] + all)[1..] == all;
  }

  // ---------- the packet without payload ----------

  predicate NoSenderAtWork(s: State)
  {
    forall i :: i in s.senders ==> s.senders[i].SendDone? || s.senders[i].SendRefused?
  }

  /** A packet without payload that has been read to its last byte is handed on, by the work of tasks that exist
      already, exactly if something has been sent behind it: until then its receiver waits for the socket to
      become readable. */
  lemma EmptyPacketExact(t: Target, run: seq<Action>, id: TaskId)
    requires IsRun(t, INITIAL, run) && After(t, INITIAL, run).open
    requires var s := After(t, INITIAL, run); NoSenderAtWork(s) && IsReadingNothing(s, id)
    ensures var s := After(t, INITIAL, run); ReceiverCanFinish(t, s, id) <==> s.delivered + 1 < |s.sendLog|
  {
    GoodInitially(t);
    GoodRun(t, INITIAL, run);
    ReceiversFinish(t, run, id);
    EmptyPlace(t, After(t, INITIAL, run), id);
    hide Good, IsRun, After, ReceiverCanFinish, Ready, AllSent, NextPacket, NoSenderAtWork;
  }

  lemma NotWaiting(s: State, i: nat)
    requires NoSenderAtWork(s) && i < |s.sendLine|
    ensures !(s.sendLine[i] in s.senders && s.senders[s.sendLine[i]].SendWaiting?)
  {
  }

  lemma EmptyPlace(t: Target, s: State, id: TaskId)
    requires Good(t, s) && s.open && NoSenderAtWork(s) && IsReadingNothing(s, id)
    ensures AllWaiting(s) && (Ready(AllSent(s), NextPacket(s, id)) <==> s.delivered + 1 < |s.sendLog|)
  {
    GoodInv(t, s);
    SomethingBehind(t, s, id);
    LineWaits(t, s);
    hide Good, Inv;
    if s.sendLine != [] {
      NotWaiting(s, 0);
    }
    assert AllSent(s) == s.sendLog;
  }
}
