/** A SPRAY message that never finishes: two messages over two data QPs, the second completing first. */
module Stranding {
  import opened Verbs
  import opened CompletionQueue
  import opened Endpoints
  import opened Progress
  import opened Walks
  import Delivery
  import Links
  import SQ = SendQueue
  import SP = SendProtocol

  const TWO_QPS := SQ.Config(Spray, 1, 1, 2)

  /** A one-chunk write with immediate. */
  function Message(id: nat): SendWr { SendWr(id, RdmaWriteWithImm, true, 1, id, 1, id, 0) }

  function Reported(physicalWrId: nat): PhysicalWc { PhysicalWc(physicalWrId, WcSendSide, Success, 1, 0) }

  /** What waits for a notify after the one chunk of message id has been posted. */
  function Waiting(id: nat): SQ.VirtualSendWr { SQ.VirtualSendWr(Message(id), 1, 1, true, id) }

  function Wc(id: nat, bytes: nat, remaining: int): VirtualWc { VirtualWc(id, Success, bytes, 0, remaining, true) }

  /** The parts of an endpoint that decide what happens next; `posts` are the QPs posted to so far. */
  ghost predicate At(e: Endpoint, queues: seq<seq<WrStatus>>, notifyQueue: seq<WrStatus>, nextQp: nat, posts: seq<QpRef>,
                     waiting: seq<SQ.VirtualSendWr>, sends: seq<VirtualWc>) {
    && e.c == TWO_QPS && e.recv == Idle(TWO_QPS).recv
    && e.send.pending == [] && e.send.queues == queues && e.send.notifyQueue == notifyQueue
    && e.send.nextQp == nextQp && |e.send.log| == |posts| && e.send.notifying == waiting && |e.send.msgs| == |sends|
    && e.cq.sends == sends && e.cq.sendsOut == []
    && (forall i: nat | i < |posts| :: e.send.log[i].qp == posts[i] && e.send.log[i].status.physicalWrId == i)
    && forall id: nat | id < |sends| :: id in e.cq.index && e.cq.index[id] == SendRef(id)
  }

  lemma AtReady(e: Endpoint, queues: seq<seq<WrStatus>>, notifyQueue: seq<WrStatus>, nextQp: nat, posts: seq<QpRef>,
                waiting: seq<SQ.VirtualSendWr>, sends: seq<VirtualWc>)
    requires At(e, queues, notifyQueue, nextQp, posts, waiting, sends) && |queues| == 2 && nextQp < 2
    ensures Ready(e)
  {
  }

  /** Posting message id takes the free QP under the cursor and leaves the message waiting for its notify. */
  lemma PostOne(e: Endpoint, queues: seq<seq<WrStatus>>, q: nat, id: nat, posts: seq<QpRef>, waiting: seq<SQ.VirtualSendWr>,
                sends: seq<VirtualWc>)
    requires q < 2 && |queues| == 2 && queues[q] == [] && id == |sends| == |posts|
    requires At(e, queues, [], q, posts, waiting, sends)
    ensures Ready(e) && PostSend(e, Message(id)).Ok?
    ensures At(PostSend(e, Message(id)).value, queues[q := [WrStatus(id, id)]], [], SQ.NextIndex(q, 2), posts + [Data(q)],
               waiting + [Waiting(id)], sends + [Wc(id, 0, 2)])
  {
    AtReady(e, queues, [], q, posts, waiting, sends);
    var wr, s := Message(id), SQ.Enqueue(TWO_QPS, e.send, Message(id));
    assert SQ.Chunks(1, 1) == 1;
    var v := SQ.VirtualSendWr(wr, 2, 0, true, |e.send.msgs|);
    assert s.pending == [v];
    EnqueueSendable(e.c, e.send, wr);
    assert SQ.ChooseQp(TWO_QPS, s, -1) == (q as int, SQ.NextIndex(q, 2), -1);
    var s1 := SQ.PostChunk(TWO_QPS, s.(nextQp := SQ.NextIndex(q, 2)), |e.recv.log|, q);
    assert s1.pending == [];
    assert queues[q] + [WrStatus(id, id)] == [WrStatus(id, id)];
    SQ.PostChunkSendable(TWO_QPS, s.(nextQp := SQ.NextIndex(q, 2)), |e.recv.log|, q);
    assert SQ.MapPending(TWO_QPS, s1, |e.recv.log|, -1) == s1;
    assert SQ.MapPending(TWO_QPS, s, |e.recv.log|, -1) == s1;
  }

  lemma FirstPost() returns (e1: Endpoint)
    ensures Ready(Idle(TWO_QPS)) && PostSend(Idle(TWO_QPS), Message(0)) == Ok(e1)
    ensures 0 !in Idle(TWO_QPS).cq.index && 1 !in e1.cq.index
    ensures At(e1, [[WrStatus(0, 0)], []], [], 1, [Data(0)], [Waiting(0)], [Wc(0, 0, 2)])
  {
    var e0 := Idle(TWO_QPS);
    assert e0.send.queues == [[], []];
    PostOne(e0, [[], []], 0, 0, [], [], []);
    e1 := PostSend(e0, Message(0)).value;
    assert [[], []][0 := [WrStatus(0, 0)]] == [[WrStatus(0, 0)], []];
    assert [] + [Waiting(0)] == [Waiting(0)] && [] + [Wc(0, 0, 2)] == [Wc(0, 0, 2)] && [] + [Data(0)] == [Data(0)];
  }

  lemma SecondPost(e1: Endpoint) returns (e2: Endpoint)
    requires At(e1, [[WrStatus(0, 0)], []], [], 1, [Data(0)], [Waiting(0)], [Wc(0, 0, 2)])
    ensures Ready(e1) && PostSend(e1, Message(1)) == Ok(e2)
    ensures At(e2, [[WrStatus(0, 0)], [WrStatus(1, 1)]], [], 0, [Data(0), Data(1)], [Waiting(0), Waiting(1)], [Wc(0, 0, 2), Wc(1, 0, 2)])
  {
    PostOne(e1, [[WrStatus(0, 0)], []], 1, 1, [Data(0)], [Waiting(0)], [Wc(0, 0, 2)]);
    e2 := PostSend(e1, Message(1)).value;
    assert [[WrStatus(0, 0)], []][1 := [WrStatus(1, 1)]] == [[WrStatus(0, 0)], [WrStatus(1, 1)]];
    assert [Waiting(0)] + [Waiting(1)] == [Waiting(0), Waiting(1)] && [Data(0)] + [Data(1)] == [Data(0), Data(1)];
    assert [Wc(0, 0, 2)] + [Wc(1, 0, 2)] == [Wc(0, 0, 2), Wc(1, 0, 2)];
  }

  lemma SecondData(e: Endpoint) returns (e': Endpoint)
    requires At(e, [[WrStatus(0, 0)], [WrStatus(1, 1)]], [], 0, [Data(0), Data(1)], [Waiting(0), Waiting(1)], [Wc(0, 0, 2), Wc(1, 0, 2)])
    ensures Ready(e) && CompleteSend(e, Data(1), Reported(1)) == Ok(e')
    ensures At(e', [[WrStatus(0, 0)], []], [], 0, [Data(0), Data(1)], [Waiting(0), Waiting(1)], [Wc(0, 0, 2), Wc(1, 1, 1)])
  {
    e' := CompleteSend(e, Data(1), Reported(1)).value;
    assert e.send.queues[1] == [WrStatus(1, 1)] && [WrStatus(1, 1)][1..] == [];
    assert SQ.PopStatus(e.send, Data(1)).queues == [[WrStatus(0, 0)], []];
    assert e'.send.queues == [[WrStatus(0, 0)], []];
    assert e'.cq.sends == [Wc(0, 0, 2), Wc(1, 1, 1)];
  }

  lemma FirstData(e: Endpoint) returns (e': Endpoint)
    requires At(e, [[WrStatus(0, 0)], []], [], 0, [Data(0), Data(1)], [Waiting(0), Waiting(1)], [Wc(0, 0, 2), Wc(1, 1, 1)])
    ensures Ready(e) && CompleteSend(e, Data(0), Reported(0)) == Ok(e')
    ensures At(e', [[], []], [WrStatus(2, 0)], 0, [Data(0), Data(1), Notify], [Waiting(1)], [Wc(0, 1, 1), Wc(1, 1, 1)])
  {
    e' := CompleteSend(e, Data(0), Reported(0)).value;
    assert e.send.queues[0] == [WrStatus(0, 0)] && [WrStatus(0, 0)][1..] == [];
    assert SQ.PopStatus(e.send, Data(0)).queues == [[], []];
    assert e'.send.queues == [[], []];
    assert e'.send.notifying == [Waiting(1)];
    assert e'.cq.sends == [Wc(0, 1, 1), Wc(1, 1, 1)];
  }

  lemma FirstNotify(e: Endpoint) returns (e': Endpoint)
    requires At(e, [[], []], [WrStatus(2, 0)], 0, [Data(0), Data(1), Notify], [Waiting(1)], [Wc(0, 1, 1), Wc(1, 1, 1)])
    ensures Ready(e) && CompleteSend(e, Notify, Reported(2)) == Ok(e')
    ensures At(e', [[], []], [], 0, [Data(0), Data(1), Notify], [Waiting(1)], [Wc(0, 2, 0), Wc(1, 1, 1)])
  {
    e' := CompleteSend(e, Notify, Reported(2)).value;
    assert e'.cq.sends == [Wc(0, 2, 0), Wc(1, 1, 1)];
  }

  // ---------------------------------------------------------------- the run

  /** Of these posts, `i` is the oldest on its QP that is not done. */
  ghost predicate OldestOf(posts: seq<QpRef>, done: set<nat>, i: nat) {
    i < |posts| && i !in done && forall j: nat | j < i && posts[j] == posts[i] :: j in done
  }

  lemma OldestAt(e: Endpoint, queues: seq<seq<WrStatus>>, notifyQueue: seq<WrStatus>, nextQp: nat, posts: seq<QpRef>,
                 waiting: seq<SQ.VirtualSendWr>, sends: seq<VirtualWc>, done: set<nat>, i: nat)
    requires At(e, queues, notifyQueue, nextQp, posts, waiting, sends) && OldestOf(posts, done, i)
    ensures Oldest(e.send.log, done, i) && e.send.log[i].qp == posts[i] && e.send.log[i].status.physicalWrId == i
    ensures e.c == TWO_QPS
  {
  }

  /** Two idle endpoints. */
  ghost function Start(): Links.Link {
    Links.Link(Links.Resting(TWO_QPS), Links.Resting(TWO_QPS))
  }

  /** Where the run stands after both messages have been posted, and where after each completion. */
  ghost predicate BothPosted(l: Links.Link) {
    && Sound(l) && l.x.h.sendDone == {}
    && At(l.x.e, [[WrStatus(0, 0)], [WrStatus(1, 1)]], [], 0, [Data(0), Data(1)], [Waiting(0), Waiting(1)], [Wc(0, 0, 2), Wc(1, 0, 2)])
  }

  ghost predicate SecondDone(l: Links.Link) {
    && Sound(l) && l.x.landed == [0, 1] && l.x.h.sendDone == {1}
    && At(l.x.e, [[WrStatus(0, 0)], []], [], 0, [Data(0), Data(1)], [Waiting(0), Waiting(1)], [Wc(0, 0, 2), Wc(1, 1, 1)])
  }

  ghost predicate FirstDone(l: Links.Link) {
    && Sound(l) && l.x.h.sendDone == {0, 1}
    && At(l.x.e, [[], []], [WrStatus(2, 0)], 0, [Data(0), Data(1), Notify], [Waiting(1)], [Wc(0, 1, 1), Wc(1, 1, 1)])
  }

  ghost predicate AllButSecond(l: Links.Link) {
    At(l.x.e, [[], []], [], 0, [Data(0), Data(1), Notify], [Waiting(1)], [Wc(0, 2, 0), Wc(1, 1, 1)])
  }

  lemma PostBoth() returns (l1: Links.Link, l2: Links.Link)
    ensures Steps(Start(), l1) && Steps(l1, l2) && BothPosted(l2) && l2.x.landed == []
  {
    Links.InitialInv(Start());
    var e1 := FirstPost();
    l1 := TakePost(Start(), Message(0), e1);
    var e2 := SecondPost(e1);
    l2 := TakePost(l1, Message(1), e2);
  }

  lemma LandFirst(l: Links.Link) returns (l': Links.Link)
    requires BothPosted(l) && l.x.landed == []
    ensures Steps(l, l') && BothPosted(l') && l'.x.landed == [0]
  {
    OldestAt(l.x.e, [[WrStatus(0, 0)], [WrStatus(1, 1)]], [], 0, [Data(0), Data(1)], [Waiting(0), Waiting(1)], [Wc(0, 0, 2), Wc(1, 0, 2)], {}, 0);
    assert Links.Landed(l.x) == {};
    l' := TakeLanding(l, 0);
  }

  lemma LandSecond(l: Links.Link) returns (l': Links.Link)
    requires BothPosted(l) && l.x.landed == [0]
    ensures Steps(l, l') && BothPosted(l') && l'.x.landed == [0, 1]
  {
    OldestAt(l.x.e, [[WrStatus(0, 0)], [WrStatus(1, 1)]], [], 0, [Data(0), Data(1)], [Waiting(0), Waiting(1)], [Wc(0, 0, 2), Wc(1, 0, 2)], {0}, 1);
    assert Links.Landed(l.x) == {0};
    l' := TakeLanding(l, 1);
  }

  lemma CompleteSecond(l: Links.Link) returns (l': Links.Link)
    requires BothPosted(l) && l.x.landed == [0, 1]
    ensures Steps(l, l') && SecondDone(l')
  {
    OldestAt(l.x.e, [[WrStatus(0, 0)], [WrStatus(1, 1)]], [], 0, [Data(0), Data(1)], [Waiting(0), Waiting(1)], [Wc(0, 0, 2), Wc(1, 0, 2)], {}, 1);
    var e := SecondData(l.x.e);
    l' := TakeCompletion(l, 1, Reported(1), Data(1), e);
  }

  lemma CompleteFirst(l: Links.Link) returns (l': Links.Link)
    requires SecondDone(l)
    ensures Steps(l, l') && FirstDone(l') && l'.x.landed == [0, 1]
  {
    OldestAt(l.x.e, [[WrStatus(0, 0)], []], [], 0, [Data(0), Data(1)], [Waiting(0), Waiting(1)], [Wc(0, 0, 2), Wc(1, 1, 1)], {1}, 0);
    var e := FirstData(l.x.e);
    l' := TakeCompletion(l, 0, Reported(0), Data(0), e);
  }

  lemma LandNotify(l: Links.Link) returns (l': Links.Link)
    requires FirstDone(l) && l.x.landed == [0, 1]
    ensures Steps(l, l') && FirstDone(l') && l'.x.landed == [0, 1, 2]
  {
    OldestAt(l.x.e, [[], []], [WrStatus(2, 0)], 0, [Data(0), Data(1), Notify], [Waiting(1)], [Wc(0, 1, 1), Wc(1, 1, 1)], {0, 1}, 2);
    assert Links.Landed(l.x) == {0, 1};
    l' := TakeLanding(l, 2);
  }

  lemma CompleteNotify(l: Links.Link) returns (l': Links.Link)
    requires FirstDone(l) && l.x.landed == [0, 1, 2]
    ensures Steps(l, l') && AllButSecond(l')
  {
    OldestAt(l.x.e, [[], []], [WrStatus(2, 0)], 0, [Data(0), Data(1), Notify], [Waiting(1)], [Wc(0, 1, 1), Wc(1, 1, 1)], {0, 1}, 2);
    var e := FirstNotify(l.x.e);
    l' := TakeCompletion(l, 2, Reported(2), Notify, e);
  }

  lemma CompleteAll(l: Links.Link) returns (l5: Links.Link, l6: Links.Link, l7: Links.Link, l8: Links.Link)
    requires BothPosted(l) && l.x.landed == [0, 1]
    ensures Steps(l, l5) && Steps(l5, l6) && Steps(l6, l7) && Steps(l7, l8) && AllButSecond(l8)
  {
    l5 := CompleteSecond(l);
    l6 := CompleteFirst(l5);
    l7 := LandNotify(l6);
    l8 := CompleteNotify(l7);
  }

  lemma FirstHalf() returns (run: seq<Links.Link>)
    ensures Links.IsRun(run) && |run| == 5 && BothPosted(run[4]) && run[4].x.landed == [0, 1]
  {
    var l1, l2 := PostBoth();
    var l3 := LandFirst(l2);
    var l4 := LandSecond(l3);
    run := Extend([Start()], l1);
    run := Extend(run, l2);
    run := Extend(run, l3);
    run := Extend(run, l4);
  }

  lemma WholeRun() returns (run: seq<Links.Link>)
    ensures Links.IsRun(run) && |run| == 9 && AllButSecond(run[8])
  {
    run := FirstHalf();
    var l5, l6, l7, l8 := CompleteAll(run[4]);
    run := Extend(run, l5);
    run := Extend(run, l6);
    run := Extend(run, l7);
    run := Extend(run, l8);
  }

  /**
   * A run in which the second of two messages completes first. At the end nothing is in flight and nothing is
   * left to post, the first message has finished, and the second still counts one completion: its request for
   * a notify came while the first message was in line, and nothing repeats it.
   */
  lemma SecondMessageStranded() returns (run: seq<Links.Link>)
    ensures Links.IsRun(run) && |run| == 9 && run[8].x.e.c == TWO_QPS
    ensures NothingInFlight(run[8].x.e.send) && run[8].x.e.send.pending == []
    ensures run[8].x.e.cq.sends == [Wc(0, 2, 0), Wc(1, 1, 1)]
    ensures !Delivery.NoneOvertakes(run, 8)
  {
    run := WholeRun();
    assert SendWcs(run[8].x.e.cq)[1] == Wc(1, 1, 1);
    Delivery.FinishedIffNoneOvertakes(run, 8);
  }
}
