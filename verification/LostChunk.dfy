/** SPRAY notifies the peer of a message whose chunk failed: its receive completes with success, and nothing has landed. */
module LostChunk {
  import opened Verbs
  import opened CompletionQueue
  import opened Endpoints
  import opened Progress
  import opened Stranding
  import opened Walks
  import Delivery
  import Links
  import RQ = RecvQueue
  import SQ = SendQueue
  import SP = SendProtocol

  const RECEIVE := RecvWr(0, 0, 0, 0)

  /** The device gives up on the first post. */
  const FAILURE := PhysicalWc(0, WcSendSide, Failed(12), 0, 0)

  /** The peer's completion of its receive by the notify. */
  const NOTICE := PhysicalWc(0, WcRecvRdmaWithImm, Success, 0, 0)

  const FAILED_WC := VirtualWc(0, Failed(12), 0, 0, 1, true)

  // ---------------------------------------------------------------- the receiving endpoint

  ghost predicate Waits(e: Endpoint) {
    && e.c == TWO_QPS && e.recv.queues == [[], []] && e.recv.notifyQueue == [WrStatus(0, 0)] && e.recv.pending == []
    && |e.recv.log| == 1 && e.recv.log[0].qp == Notify && e.recv.log[0].status == WrStatus(0, 0)
    && e.send == Idle(TWO_QPS).send
    && e.cq == CqState([], [], [FreshWc(0, 1, false)], [], map[0 := RecvRef(0)])
  }

  lemma ReceivePosted() returns (e: Endpoint)
    ensures Ready(Idle(TWO_QPS)) && PostRecv(Idle(TWO_QPS), RECEIVE) == Ok(e) && Waits(e)
  {
    var e0 := Idle(TWO_QPS);
    assert e0.recv.queues == [[], []];
    EnqueueReceivable(e0.c, e0.recv, RECEIVE);
    var r0 := RQ.Enqueue(e0.c, e0.recv, RECEIVE);
    assert r0.pending == [RQ.VirtualRecvWr(RECEIVE, 1, 0, 0)];
    var r1 := RQ.PostNotifyRecv(e0.c, r0, 0, Notify);
    assert r1.pending == [];
    assert RQ.MapPending(e0.c, r0, 0, -1) == RQ.MapPending(e0.c, r1, 0, -1) == r1;
    e := PostRecv(e0, RECEIVE).value;
  }

  lemma ReceiveCompletes(e: Endpoint) returns (e': Endpoint)
    requires Waits(e)
    ensures Ready(e) && CompleteRecv(e, Notify, NOTICE) == Ok(e')
    ensures e'.cq.recvs == [VirtualWc(0, Success, 0, 0, 0, false)] && e'.cq.recvsOut == []
  {
    e' := CompleteRecv(e, Notify, NOTICE).value;
  }

  // ---------------------------------------------------------------- the sending endpoint

  /** A failed completion of its one chunk makes the message ask for the notify all the same. */
  lemma FailureNotifies(e: Endpoint) returns (e': Endpoint)
    requires At(e, [[WrStatus(0, 0)], []], [], 1, [Data(0)], [Waiting(0)], [Wc(0, 0, 2)])
    ensures Ready(e) && CompleteSend(e, Data(0), FAILURE) == Ok(e')
    ensures At(e', [[], []], [WrStatus(1, 0)], 1, [Data(0), Notify], [], [FAILED_WC])
  {
    e' := CompleteSend(e, Data(0), FAILURE).value;
    assert e.send.queues[0] == [WrStatus(0, 0)] && [WrStatus(0, 0)][1..] == [];
    assert SQ.PopStatus(e.send, Data(0)).queues == [[], []];
    assert e'.send.queues == [[], []];
    assert e'.send.notifying == [];
    assert e'.cq.sends == [FAILED_WC];
  }

  // ---------------------------------------------------------------- the run

  ghost predicate PeerWaits(l: Links.Link) {
    && Sound(l) && Waits(l.y.e) && l.y.h == NO_HISTORY && l.y.flushed == [] && l.x.landed == [] && l.x.polled == {}
  }

  ghost predicate MessagePosted(l: Links.Link) {
    && PeerWaits(l) && l.x.h.sendDone == {} && l.x.failed == {} && l.x.e.send.msgs == [Message(0)]
    && At(l.x.e, [[WrStatus(0, 0)], []], [], 1, [Data(0)], [Waiting(0)], [Wc(0, 0, 2)])
  }

  ghost predicate ChunkFailed(l: Links.Link) {
    && PeerWaits(l) && l.x.failed == {0} && l.x.e.send.msgs == [Message(0)]
    && At(l.x.e, [[], []], [WrStatus(1, 0)], 1, [Data(0), Notify], [], [FAILED_WC])
  }

  lemma PostBothSides() returns (l1: Links.Link, l2: Links.Link)
    ensures Steps(Start(), l1) && Steps(l1, l2) && MessagePosted(l2)
  {
    Links.InitialInv(Start());
    var e1 := ReceivePosted();
    l1 := TakePostRecv(Start(), RECEIVE, e1);
    var e2 := FirstMessage();
    l2 := TakePost(l1, Message(0), e2);
  }

  lemma FirstMessage() returns (e: Endpoint)
    ensures Ready(Idle(TWO_QPS)) && PostSend(Idle(TWO_QPS), Message(0)) == Ok(e) && e.send.msgs == [Message(0)]
    ensures At(e, [[WrStatus(0, 0)], []], [], 1, [Data(0)], [Waiting(0)], [Wc(0, 0, 2)])
  {
    Links.InitialInv(Start());
    e := FirstPost();
    Links.PostSendGrows(Idle(TWO_QPS), NO_HISTORY, Message(0));
  }

  lemma FailChunk(l: Links.Link) returns (l': Links.Link)
    requires MessagePosted(l)
    ensures Steps(l, l') && ChunkFailed(l')
  {
    OldestAt(l.x.e, [[WrStatus(0, 0)], []], [], 1, [Data(0)], [Waiting(0)], [Wc(0, 0, 2)], {}, 0);
    var e := FailureNotifies(l.x.e);
    l' := TakeCompletion(l, 0, FAILURE, Data(0), e);
    Messages(l, e);
  }

  lemma Messages(l: Links.Link, e: Endpoint)
    requires MessagePosted(l) && Ready(l.x.e) && CompleteSend(l.x.e, Data(0), FAILURE) == Ok(e)
    ensures e.send.msgs == l.x.e.send.msgs
  {
    assert Links.LinkInv(l);
    OldestAt(l.x.e, [[WrStatus(0, 0)], []], [], 1, [Data(0)], [Waiting(0)], [Wc(0, 0, 2)], {}, 0);
    Links.CompleteSendGrows(l.x.e, l.x.h, 0, FAILURE);
  }

  lemma LandNotice(l: Links.Link) returns (l': Links.Link)
    requires ChunkFailed(l)
    ensures Steps(l, l') && Sound(l') && l' == l.(x := l.x.(landed := [1]))
  {
    OldestAt(l.x.e, [[], []], [WrStatus(1, 0)], 1, [Data(0), Notify], [], [FAILED_WC], {}, 1);
    assert Links.Landed(l.x) == {};
    l' := TakeLanding(l, 1);
  }

  /** The notify is the immediate of the first message, and the next one for the peer to handle. */
  lemma NoticeIsNext(l: Links.Link)
    requires ChunkFailed(l.(x := l.x.(landed := []))) && l.x.landed == [1] && Sound(l)
    ensures Links.NextToPoll(l.x, 1) && l.x.e.send.log[1].wr.imm == 0
  {
    NoticeContent(l);
    assert l.x.e.send.log[1].qp == Notify;
  }

  lemma NoticeContent(l: Links.Link)
    requires Sound(l) && |l.x.e.send.log| == 2
    ensures l.x.e.c.Valid() && SP.ContentOk(l.x.e.c, l.x.e.send, 1)
  {
    assert Links.LinkInv(l);
  }

  lemma HandleNotice(l: Links.Link) returns (l': Links.Link)
    requires ChunkFailed(l.(x := l.x.(landed := []))) && l.x.landed == [1] && Sound(l)
    ensures Steps(l, l') && l'.x == l.x.(polled := {1})
    ensures l'.y.e.cq.recvs == [VirtualWc(0, Success, 0, 0, 0, false)] && l'.y.e.cq.recvsOut == []
  {
    NoticeIsNext(l);
    var e := ReceiveCompletes(l.y.e);
    var y := l.y.(e := e, h := AfterRecv(l.y.e, l.y.h, 0, NOTICE));
    l' := l.(x := l.x.(polled := l.x.polled + {1}), y := y);
    assert Links.CompletesReceive(l.y, y, 0, NOTICE);
    assert Links.Receives(l, l', 1, 0, NOTICE);
    TakeStep(l, l', Links.Receive(1, 0, NOTICE));
  }

  lemma WholeRun() returns (run: seq<Links.Link>)
    ensures Links.IsRun(run) && |run| == 6 && run[5].x.landed == [1] && run[5].x.failed == {0}
    ensures At(run[5].x.e, [[], []], [WrStatus(1, 0)], 1, [Data(0), Notify], [], [FAILED_WC])
    ensures run[5].y.e.cq.recvs == [VirtualWc(0, Success, 0, 0, 0, false)] && run[5].y.e.cq.recvsOut == []
  {
    var l1, l2 := PostBothSides();
    var l3 := FailChunk(l2);
    var l4 := LandNotice(l3);
    assert l4.x.(landed := []) == l3.x;
    assert l4.(x := l4.x.(landed := [])) == l3;
    var l5 := HandleNotice(l4);
    run := Extend([Start()], l1);
    run := Extend(run, l2);
    run := Extend(run, l3);
    run := Extend(run, l4);
    run := Extend(run, l5);
  }

  /**
   * A run of two endpoints: the only chunk of a message fails without landing, its notify is posted on the
   * notify QP all the same, and the receive at the peer completes with success. Only the sender sees an error.
   */
  lemma ReceivedButLost() returns (run: seq<Links.Link>)
    ensures Links.IsRun(run) && |run| == 6
    ensures var y := run[5].y; RecvWcs(y.e.cq) == [VirtualWc(0, Success, 0, 0, 0, false)]
    ensures var x := run[5].x;
            && Delivery.LosesData(x, 0) && !Delivery.MessageArrived(x, 0) && 0 !in x.landed
            && SendWcs(x.e.cq) == [FAILED_WC]
  {
    run := WholeRun();
    var x := run[5].x;
    MessageOfFirst(run, 5);
    assert 0 !in Links.Arrived(x);
  }

  lemma MessageOfFirst(run: seq<Links.Link>, n: nat)
    requires Links.IsRun(run) && n < |run| && |run[n].x.e.send.log| > 0 && |run[n].x.e.send.msgs| == 1
    ensures run[n].x.e.send.log[0].msg == 0
  {
    Links.RunInv(run, n);
    assert SP.ContentOk(run[n].x.e.c, run[n].x.e.send, 0);
  }
}
