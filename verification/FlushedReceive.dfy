/** DQPLB counts a failed receive as sequence number 0: a message is reported to the peer that has not arrived. */
module FlushedReceive {
  import opened Verbs
  import opened CompletionQueue
  import opened Endpoints
  import opened Progress
  import opened Walks
  import Delivery
  import Links
  import RQ = RecvQueue
  import SQ = SendQueue
  import SP = SendProtocol
  import Seq = SeqTracker

  const TWO_QPS := SQ.Config(Dqplb, 1, 1, 2)

  /** Two chunks, the second of which carries number 1 and the last-chunk bit. */
  const MESSAGE := SendWr(0, RdmaWriteWithImm, true, 1, 0, 2, 0, 0)

  const RECEIVE := RecvWr(0, 0, 0, 0)

  const LAST_IMM: nat := 1 + Seq.NOTIFY_BIT

  /** The second chunk is taken in at the peer; and the receive for the first fails, with no immediate. */
  const SECOND_CHUNK := PhysicalWc(1, WcRecvRdmaWithImm, Success, 1, LAST_IMM)
  const FLUSHED := PhysicalWc(0, WcRecv, Failed(5), 0, 0)

  // ---------------------------------------------------------------- the sending endpoint

  ghost predicate ChunksPosted(e: Endpoint) {
    && e.c == TWO_QPS && e.send.msgs == [MESSAGE] && e.send.pending == [] && |e.send.log| == 2
    && e.send.log[0].qp == Data(0) && e.send.log[0].msg == 0
    && e.send.log[1] == Posted(Data(1), WrStatus(1, 0), 0, PhysicalSend(RdmaWriteWithImm, 1, 1, 1, LAST_IMM))
  }

  /** An endpoint before its first call, on two QPs. */
  ghost predicate Quiet(e: Endpoint) {
    && Ready(e) && e.c == TWO_QPS && e.send.pending == [] && e.send.queues == [[], []] && e.send.nextQp == 0
    && e.send.sendNext == 0 && e.send.log == [] && e.send.msgs == [] && e.recv.log == []
  }

  lemma IdleIsQuiet()
    ensures Quiet(Idle(TWO_QPS))
  {
    var e := Idle(TWO_QPS);
    assert e.send.queues == [[], []];
  }

  lemma MessagePosted(e: Endpoint) returns (e': Endpoint)
    requires Quiet(e)
    ensures PostSend(e, MESSAGE) == Ok(e') && ChunksPosted(e')
  {
    EnqueueSendable(e.c, e.send, MESSAGE);
    Enqueued(e.send);
    var s := BothChunks(SQ.Enqueue(e.c, e.send, MESSAGE));
    e' := PostSend(e, MESSAGE).value;
  }

  ghost predicate InLine(s: SQ.SendState) {
    && s.pending == [SQ.VirtualSendWr(MESSAGE, 2, 0, false, 0)] && s.queues == [[], []] && s.nextQp == 0
    && s.sendNext == 0 && s.log == [] && s.msgs == [MESSAGE]
  }

  lemma Enqueued(s: SQ.SendState)
    requires s.pending == [] && s.queues == [[], []] && s.nextQp == 0 && s.sendNext == 0 && s.log == [] && s.msgs == []
    ensures InLine(SQ.Enqueue(TWO_QPS, s, MESSAGE))
  {
    assert SQ.Chunks(2, 1) == 2;
  }

  lemma BothChunks(s: SQ.SendState) returns (s': SQ.SendState)
    requires InLine(s)
    ensures SQ.Sendable(TWO_QPS, s) && s' == SQ.MapPending(TWO_QPS, s, 0, -1)
    ensures s'.pending == [] && s'.msgs == [MESSAGE] && |s'.log| == 2 && s'.log[0].qp == Data(0) && s'.log[0].msg == 0
    ensures s'.log[1] == Posted(Data(1), WrStatus(1, 0), 0, PhysicalSend(RdmaWriteWithImm, 1, 1, 1, LAST_IMM))
  {
    var s1 := FirstChunk(s);
    s' := SecondChunk(s1);
    assert SQ.MapPending(TWO_QPS, s', 0, -1) == s';
  }

  lemma FirstChunk(s: SQ.SendState) returns (s': SQ.SendState)
    requires InLine(s)
    ensures SQ.Sendable(TWO_QPS, s) && SQ.Sendable(TWO_QPS, s') && |s'.queues| == 2 && s'.nextQp == 1
    ensures SQ.MapPending(TWO_QPS, s, 0, -1) == SQ.MapPending(TWO_QPS, s', 0, -1)
    ensures s'.pending == [SQ.VirtualSendWr(MESSAGE, 1, 1, false, 0)] && s'.queues[1] == []
    ensures s'.sendNext == 1 && |s'.log| == 1 && s'.log[0].qp == Data(0) && s'.log[0].msg == 0 && s'.msgs == [MESSAGE]
  {
    assert SQ.ChooseQp(TWO_QPS, s, -1) == (0, 1, -1);
    SQ.PostChunkSendable(TWO_QPS, s.(nextQp := 1), 0, 0);
    s' := SQ.PostChunk(TWO_QPS, s.(nextQp := 1), 0, 0);
  }

  lemma SecondChunk(s: SQ.SendState) returns (s': SQ.SendState)
    requires s.pending == [SQ.VirtualSendWr(MESSAGE, 1, 1, false, 0)] && |s.queues| == 2 && s.queues[1] == [] && s.nextQp == 1
    requires s.sendNext == 1 && |s.log| == 1 && s.msgs == [MESSAGE]
    ensures SQ.Sendable(TWO_QPS, s) && SQ.Sendable(TWO_QPS, s') && |s'.queues| == 2 && s'.nextQp == 0
    ensures SQ.MapPending(TWO_QPS, s, 0, -1) == SQ.MapPending(TWO_QPS, s', 0, -1)
    ensures s'.pending == [] && s'.msgs == [MESSAGE]
    ensures s'.log == s.log + [Posted(Data(1), WrStatus(1, 0), 0, PhysicalSend(RdmaWriteWithImm, 1, 1, 1, LAST_IMM))]
  {
    assert SQ.ChooseQp(TWO_QPS, s, -1) == (1, 0, -1);
    SQ.PostChunkSendable(TWO_QPS, s.(nextQp := 0), 0, 1);
    s' := SQ.PostChunk(TWO_QPS, s.(nextQp := 0), 0, 1);
  }

  // ---------------------------------------------------------------- the receiving endpoint

  /** `parked` are the numbers received out of order; QP 0 still has its first receive. */
  ghost predicate Waits(e: Endpoint, second: seq<WrStatus>, parked: map<nat, bool>) {
    && e.c == TWO_QPS && e.recv.queues == [[WrStatus(0, -1)], second] && e.recv.pending == [RQ.VirtualRecvWr(RECEIVE, 1, 0, 0)]
    && e.recv.tracker == Seq.Receiver(0, parked) && e.send == Idle(TWO_QPS).send
    && |e.recv.log| >= 2 && e.recv.log[0] == Posted(Data(0), WrStatus(0, -1), 0, PhysicalRecv(0, 0, 0))
    && e.recv.log[1] == Posted(Data(1), WrStatus(1, -1), 0, PhysicalRecv(0, 0, 0))
    && e.cq == CqState([], [], [FreshWc(0, 1, false)], [], map[0 := RecvRef(0)])
  }

  lemma ReceivePosted() returns (e: Endpoint)
    ensures Ready(Idle(TWO_QPS)) && PostRecv(Idle(TWO_QPS), RECEIVE) == Ok(e) && Waits(e, [WrStatus(1, -1)], map[])
  {
    var e0 := Idle(TWO_QPS);
    assert e0.recv.queues == [[], []];
    var r0 := RQ.Enqueue(TWO_QPS, e0.recv, RECEIVE);
    var wr := PhysicalRecv(0, 0, 0);
    var r1 := RQ.AddPost(r0, 0, Data(0), -1, 0, wr);
    assert [] + [WrStatus(0, -1)] == [WrStatus(0, -1)] && [] + [WrStatus(1, -1)] == [WrStatus(1, -1)];
    assert r1.queues == [[], []][0 := [WrStatus(0, -1)]] == [[WrStatus(0, -1)], []];
    var r2 := RQ.AddPost(r1, 0, Data(1), -1, 0, wr);
    assert r2.queues == r1.queues[1 := [WrStatus(1, -1)]] == [[WrStatus(0, -1)], [WrStatus(1, -1)]];
    assert RQ.InitRound(r2, 0, 2) == r2;
    assert RQ.InitRound(r1, 0, 1) == r2;
    assert RQ.InitRound(r0, 0, 0) == r2;
    assert RQ.InitRounds(r2, 0, 0) == r2;
    assert RQ.InitRounds(r0, 0, 1) == r2;
    e := PostRecv(e0, RECEIVE).value;
  }

  /** The second chunk comes first: its number is parked, and nothing is reported. */
  lemma SecondIsParked(e: Endpoint) returns (e': Endpoint)
    requires Waits(e, [WrStatus(1, -1)], map[])
    ensures Ready(e) && CompleteRecv(e, Data(1), SECOND_CHUNK) == Ok(e')
    ensures Waits(e', e'.recv.queues[1], map[1 := true])
  {
    Seq.ImmRoundTrip(1, true);
    var r := Seq.Receiver(0, map[1 := true]);
    assert Seq.Receive(Seq.Receiver(0, map[]), LAST_IMM) == (r, 0) by { assert Seq.Drain(r, true) == (r, 0); }
    e' := CompleteRecv(e, Data(1), SECOND_CHUNK).value;
    assert e'.cq.recvs == e.cq.recvs;
  }

  /** The failed receive reads as number 0, which lets the parked number through. */
  lemma ZeroIsCounted()
    ensures Seq.Receive(Seq.Receiver(0, map[1 := true]), 0).1 == 1
  {
    Seq.ImmRoundTrip(0, false);
    var r0 := Seq.Receiver(0, map[0 := false, 1 := true]);
    var r1 := Seq.Receiver(1, map[1 := true]);
    var r2 := Seq.Receiver(2, map[]);
    assert Seq.DeliverNext(r0, true) == r1 && Seq.DeliverNext(r1, true) == r2;
    assert Seq.Drain(r2, true) == (r2, 0);
    assert Seq.Drain(r1, true) == (r2, 1);
    assert map[1 := true][0 := false] == map[0 := false, 1 := true];
  }

  lemma FailureIsCounted(e: Endpoint) returns (e': Endpoint)
    requires |e.recv.queues| == 2 && Waits(e, e.recv.queues[1], map[1 := true])
    ensures Ready(e) && CompleteRecv(e, Data(0), FLUSHED) == Ok(e')
    ensures e'.cq.recvs == [VirtualWc(0, Success, 0, 0, 0, false)] && e'.cq.recvsOut == []
  {
    ZeroIsCounted();
    e' := CompleteRecv(e, Data(0), FLUSHED).value;
    assert MarkNotified([], 0) == [];
    assert e'.cq.recvs == MarkNotified(e.cq.recvs, 1);
  }

  // ---------------------------------------------------------------- the run

  ghost function Start(): Links.Link { Links.Link(Links.Resting(TWO_QPS), Links.Resting(TWO_QPS)) }

  /** Both sides have posted, and the first chunk has not landed. */
  ghost predicate BothPosted(l: Links.Link) {
    && Sound(l) && ChunksPosted(l.x.e) && l.x.polled == {} && l.x.h == NO_HISTORY
    && Waits(l.y.e, [WrStatus(1, -1)], map[]) && l.y.h == NO_HISTORY && l.y.flushed == []
    && l.y.stream == Seq.Receiver(0, map[])
  }

  ghost predicate SecondTaken(l: Links.Link) {
    && Sound(l) && ChunksPosted(l.x.e) && l.x.landed == [1] && l.y.flushed == [] && l.y.h.recvDone == {1}
    && |l.y.e.recv.queues| == 2 && Waits(l.y.e, l.y.e.recv.queues[1], map[1 := true])
  }

  lemma PostBoth() returns (l1: Links.Link, l2: Links.Link)
    ensures Steps(Start(), l1) && Steps(l1, l2) && BothPosted(l2) && l2.x.landed == []
  {
    Links.InitialInv(Start());
    var e1 := ReceivePosted();
    l1 := TakePostRecv(Start(), RECEIVE, e1);
    IdleIsQuiet();
    var e2 := MessagePosted(Idle(TWO_QPS));
    l2 := TakePost(l1, MESSAGE, e2);
  }

  lemma LandSecond(l: Links.Link) returns (l': Links.Link)
    requires BothPosted(l) && l.x.landed == []
    ensures Steps(l, l') && BothPosted(l') && l'.x.landed == [1]
  {
    assert Links.Landed(l.x) == {};
    assert !Links.Severed(l.x, 1);
    l' := TakeLanding(l, 1);
  }

  lemma TakeSecond(l: Links.Link) returns (l': Links.Link)
    requires BothPosted(l) && l.x.landed == [1]
    ensures Steps(l, l') && SecondTaken(l')
  {
    var e := SecondIsParked(l.y.e);
    var y := l.y.(e := e, h := AfterRecv(l.y.e, l.y.h, 1, SECOND_CHUNK));
    var log := l.x.e.send.log;
    var stream := Seq.ReceiveUnbounded(l.y.stream, Links.SeqOf(log, 1), Links.SeqLast(log, 1)).0;
    l' := l.(x := l.x.(polled := l.x.polled + {1}), y := y.(stream := stream));
    FirstNumbers(log);
    assert Links.NextToPoll(l.x, 1);
    assert Links.CompletesReceive(l.y, l'.y, 1, SECOND_CHUNK);
    assert Links.Receives(l, l', 1, 1, SECOND_CHUNK);
    TakeStep(l, l', Links.Receive(1, 1, SECOND_CHUNK));
  }

  lemma FirstNumbers(log: seq<Posted<PhysicalSend>>)
    requires |log| >= 1
    ensures Links.SeqOf(log, 1) <= 1
  {
    assert log[..1][..0] == [];
    assert SP.Flags([]) == [];
  }

  lemma FlushFirst(l: Links.Link) returns (l': Links.Link)
    requires SecondTaken(l)
    ensures Steps(l, l') && l'.x == l.x && l'.y.flushed == [0]
    ensures l'.y.e.cq.recvs == [VirtualWc(0, Success, 0, 0, 0, false)] && l'.y.e.cq.recvsOut == []
  {
    var e := FailureIsCounted(l.y.e);
    var y := l.y.(e := e, h := AfterRecv(l.y.e, l.y.h, 0, FLUSHED), flushed := l.y.flushed + [0]);
    l' := l.(y := y);
    assert Links.CompletesReceive(l.y, y, 0, FLUSHED);
    assert Links.Flushes(Links.Swap(l), Links.Swap(l'), 0, FLUSHED);
    TakeStepBack(l, l', Links.Flush(0, FLUSHED));
  }

  /**
   * A run in which the second chunk of a message arrives first and the peer's receive for the first fails: the
   * peer's virtual receive completes, with success, although the first chunk has not landed.
   */
  lemma ReportedUnarrived() returns (run: seq<Links.Link>)
    ensures Links.IsRun(run) && |run| == 6 && run[5].y.flushed == [0]
    ensures var y := run[5].y; RecvWcs(y.e.cq) == [VirtualWc(0, Success, 0, 0, 0, false)]
    ensures var x := run[5].x; 0 !in x.landed && !Delivery.MessageArrived(x, 0)
  {
    var l1, l2 := PostBoth();
    var l3 := LandSecond(l2);
    var l4 := TakeSecond(l3);
    var l5 := FlushFirst(l4);
    run := Extend([Start()], l1);
    run := Extend(run, l2);
    run := Extend(run, l3);
    run := Extend(run, l4);
    run := Extend(run, l5);
    assert 0 !in Links.Arrived(l5.x);
  }
}
