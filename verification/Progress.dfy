/**
 * Where the chunks of a message are: conservation between the virtual completion, the pending queues and
 * the status deques; flow control; and when every message finishes.
 */
module Progress {
  import opened Verbs
  import opened CompletionQueue
  import opened Ledgers
  import opened Endpoints
  import SQ = SendQueue
  import SP = SendProtocol
  import RQ = RecvQueue

  // ---------------------------------------------------------------- conservation

  /** What message m still has to post from a pending queue. */
  ghost function HeldIn(queue: seq<SQ.VirtualSendWr>, m: nat): int {
    if queue == [] then 0 else (if queue[0].msg == m then queue[0].remaining else 0) + HeldIn(queue[1..], m)
  }

  ghost function CountId(queue: seq<WrStatus>, id: int): nat {
    if queue == [] then 0
    else CountId(queue[..|queue| - 1], id) + if queue[|queue| - 1].virtualWrId == id then 1 else 0
  }

  /** Entries with the given virtual id in all data QPs' status deques. */
  ghost function CountIdAll(queues: seq<seq<WrStatus>>, id: int): nat {
    if queues == [] then 0 else CountIdAll(queues[..|queues| - 1], id) + CountId(queues[|queues| - 1], id)
  }

  /** Posts with the given virtual id that have not completed. */
  ghost function Outstanding(log: seq<Posted<PhysicalSend>>, done: set<nat>, id: int): nat {
    if log == [] then 0
    else
      var n := |log| - 1;
      Outstanding(log[..n], done, id) + if n !in done && log[n].status.virtualWrId == id then 1 else 0
  }

  ghost function Flights(log: seq<Posted<PhysicalSend>>, done: set<nat>, n: nat): seq<seq<WrStatus>> {
    seq(n, i requires 0 <= i < n => InFlight(log, done, Data(i)))
  }

  lemma CountIdLast(log: seq<Posted<PhysicalSend>>, done: set<nat>, qp: QpRef, id: int)
    requires log != []
    ensures var k := |log| - 1;
            CountId(InFlight(log, done, qp), id) == CountId(InFlight(log[..k], done, qp), id)
              + if log[k].qp == qp && k !in done && log[k].status.virtualWrId == id then 1 else 0
  {
    var k := |log| - 1;
    var before, after := InFlight(log[..k], done, qp), InFlight(log, done, qp);
    if log[k].qp == qp && k !in done {
      assert after[..|after| - 1] == before;
    } else {
      assert after == before;
    }
  }

  lemma {:induction false} CountFlights(log: seq<Posted<PhysicalSend>>, done: set<nat>, n: nat, id: int)
    requires log != []
    ensures var k := |log| - 1;
            CountIdAll(Flights(log, done, n), id) == CountIdAll(Flights(log[..k], done, n), id)
              + if log[k].qp.Data? && log[k].qp.i < n && k !in done && log[k].status.virtualWrId == id then 1 else 0
    decreases n
  {
    if n > 0 {
      var k := |log| - 1;
      assert Flights(log, done, n)[..n - 1] == Flights(log, done, n - 1);
      assert Flights(log[..k], done, n)[..n - 1] == Flights(log[..k], done, n - 1);
      CountFlights(log, done, n - 1, id);
      CountIdLast(log, done, Data(n - 1), id);
    }
  }

  lemma {:induction false} CountIdNil(n: nat, id: int)
    ensures CountIdAll(seq(n, i => []), id) == 0
  {
    if n > 0 {
      var q: seq<seq<WrStatus>> := seq(n, i => []);
      assert q[..n - 1] == seq(n - 1, i => []);
      CountIdNil(n - 1, id);
    }
  }

  lemma {:induction false} DequesHoldOutstanding(log: seq<Posted<PhysicalSend>>, done: set<nat>, n: nat, id: int)
    requires forall i: nat | i < |log| && log[i].qp.Data? :: log[i].qp.i < n
    ensures CountIdAll(Flights(log, done, n), id) + CountId(InFlight(log, done, Notify), id) == Outstanding(log, done, id)
  {
    if log == [] {
      assert Flights(log, done, n) == seq(n, i => []);
      CountIdNil(n, id);
    } else {
      var k := |log| - 1;
      assert forall i: nat | i < k :: log[..k][i] == log[i];
      DequesHoldOutstanding(log[..k], done, n, id);
      CountFlights(log, done, n, id);
      CountIdLast(log, done, Notify, id);
    }
  }

  lemma {:induction false} OutstandingByMessage(log: seq<Posted<PhysicalSend>>, done: set<nat>, id: int, m: nat)
    requires forall i: nat | i < |log| && i !in done :: log[i].status.virtualWrId == id <==> log[i].msg == m
    ensures Outstanding(log, done, id) == CountMsg(log, m) - CountDone(log, done, m)
  {
    if log != [] {
      var n := |log| - 1;
      assert forall i: nat | i < n :: log[..n][i] == log[i];
      OutstandingByMessage(log[..n], done, id, m);
    }
  }

  lemma {:induction false} HeldAbsent(queue: seq<SQ.VirtualSendWr>, m: nat)
    requires forall i: nat | i < |queue| :: queue[i].msg != m
    ensures HeldIn(queue, m) == 0
  {
    if queue != [] { HeldAbsent(queue[1..], m); }
  }

  lemma {:induction false} HeldAt(queue: seq<SQ.VirtualSendWr>, k: nat)
    requires k < |queue| && forall i: nat | i < |queue| && i != k :: queue[i].msg != queue[k].msg
    ensures HeldIn(queue, queue[k].msg) == queue[k].remaining
  {
    if k == 0 {
      HeldAbsent(queue[1..], queue[0].msg);
    } else {
      HeldAt(queue[1..], k - 1);
    }
  }

  lemma HeldPending(c: SQ.Config, s: SQ.SendState, m: nat)
    requires SP.Posting(c, s) && m < |s.msgs|
    ensures HeldIn(s.pending, m) == if m >= SP.HandedOver(s) then SQ.Expected(c, s.msgs[m]) - CountMsg(s.log, m) else 0
  {
    forall i: nat | i < |s.pending| ensures s.pending[i].msg == SP.HandedOver(s) + i { assert SP.PendingOk(c, s, i); }
    if m >= SP.HandedOver(s) {
      assert SP.PendingOk(c, s, m - SP.HandedOver(s));
      HeldAt(s.pending, m - SP.HandedOver(s));
    } else {
      HeldAbsent(s.pending, m);
    }
  }

  lemma HeldNotifying(c: SQ.Config, s: SQ.SendState, m: nat)
    requires SP.Posting(c, s)
    ensures HeldIn(s.notifying, m) == if m in SP.MsgsOf(s.notifying) then 1 else 0
    ensures m in SP.MsgsOf(s.notifying) <==>
      m < SP.HandedOver(s) && SQ.NeedsNotify(c, s.msgs[m]) && m !in SP.Notified(s.log)
  {
    WaitingExactly(c, s, m);
    forall i: nat, j: nat | i < |s.notifying| && j < |s.notifying| && i != j
      ensures s.notifying[i].msg != s.notifying[j].msg
    {
      if i < j { WaitingInOrder(c, s, i, j); } else { WaitingInOrder(c, s, j, i); }
    }
    if m in SP.MsgsOf(s.notifying) {
      var k :| 0 <= k < |s.notifying| && SP.MsgsOf(s.notifying)[k] == m;
      assert s.notifying[k] in s.notifying;
      assert SP.NotifyingOk(s, s.notifying[k]);
      HeldAt(s.notifying, k);
    } else {
      assert forall i: nat | i < |s.notifying| :: s.notifying[i].msg == SP.MsgsOf(s.notifying)[i];
      HeldAbsent(s.notifying, m);
    }
  }

  /** The messages waiting for a notify are in post order. */
  lemma WaitingInOrder(c: SQ.Config, s: SQ.SendState, i: nat, j: nat)
    requires SP.Posting(c, s) && i < j < |s.notifying|
    ensures s.notifying[i].msg < s.notifying[j].msg
  {
    var order := SP.NotifyOrder(c, s.msgs, SP.HandedOver(s));
    SP.NotifyOrderIn(c, s.msgs, SP.HandedOver(s));
    assert SP.MsgsOf(s.notifying)[i] == order[|SP.Notified(s.log)| + i];
    assert SP.MsgsOf(s.notifying)[j] == order[|SP.Notified(s.log)| + j];
  }

  /** They are the messages handed over completely that need a notify and have not had it. */
  lemma WaitingExactly(c: SQ.Config, s: SQ.SendState, m: nat)
    requires SP.Posting(c, s)
    ensures m in SP.MsgsOf(s.notifying) <==>
      m < SP.HandedOver(s) && SQ.NeedsNotify(c, s.msgs[m]) && m !in SP.Notified(s.log)
  {
    var order := SP.NotifyOrder(c, s.msgs, SP.HandedOver(s));
    var a, b := SP.Notified(s.log), SP.MsgsOf(s.notifying);
    SP.NotifyOrderIn(c, s.msgs, SP.HandedOver(s));
    assert m in order <==> m in a || m in b;
    forall i, j | 0 <= i < |a| && 0 <= j < |b|
      ensures a[i] < b[j]
    {
      assert a[i] == order[i] && b[j] == order[|a| + j];
    }
  }

  /**
   * Completion conservation: what a queued send completion still counts is what its work request has left in
   * whichever pending queue holds it, plus its entries in all the status deques, the notify QP's included.
   */
  lemma Conservation(e: Endpoint, h: History, k: nat)
    requires Inv(e, h) && |e.cq.sendsOut| <= k < |SendWcs(e.cq)|
    ensures var w := SendWcs(e.cq)[k];
            w.remaining == HeldIn(e.send.pending, k) + HeldIn(e.send.notifying, k)
                           + CountIdAll(e.send.queues, w.wrId) + CountId(e.send.notifyQueue, w.wrId)
  {
    var w := SendWcs(e.cq)[k];
    var l := SP.SendLedger(e.c, e.send, SendWcs(e.cq), |e.cq.sendsOut|, h.sendDone, h.sendComps);
    Remaining(l, k);
    HeldPending(e.c, e.send, k);
    HeldNotifying(e.c, e.send, k);
    if k < SP.HandedOver(e.send) {
      assert SP.HandedOverOk(e.c, e.send, k);
      SP.NotifyOrderIn(e.c, e.send.msgs, SP.HandedOver(e.send));
      if k in SP.Notified(e.send.log) {
        assert SP.Notified(e.send.log) <= SP.NotifyOrder(e.c, e.send.msgs, SP.HandedOver(e.send));
        assert k in SP.NotifyOrder(e.c, e.send.msgs, SP.HandedOver(e.send));
      }
    }
    forall i: nat | i < |e.send.log| && i !in h.sendDone
      ensures e.send.log[i].status.virtualWrId == w.wrId <==> e.send.log[i].msg == k
    {
      InFlightIsLive(l, i);
      Remaining(l, e.send.log[i].msg);
      assert SP.ContentOk(e.c, e.send, i);
    }
    OutstandingByMessage(e.send.log, h.sendDone, w.wrId, k);
    forall i: nat | i < |e.send.log| && e.send.log[i].qp.Data? ensures e.send.log[i].qp.i < e.c.numQps {
      assert SP.ContentOk(e.c, e.send, i);
    }
    DequesHoldOutstanding(e.send.log, h.sendDone, e.c.numQps, w.wrId);
    assert e.send.queues == Flights(e.send.log, h.sendDone, e.c.numQps);
  }

  // ---------------------------------------------------------------- flow control

  ghost predicate AllRdma(s: SQ.SendState) { forall m | 0 <= m < |s.msgs| :: IsRdma(s.msgs[m].opcode) }

  /**
   * For writes and reads: no data QP ever exceeds its limit, and messages wait only while every data QP is
   * at it.
   */
  ghost predicate FlowInv(c: SQ.Config, s: SQ.SendState) {
    SQ.WithinLimit(c, s.queues) && (s.pending != [] ==> SQ.AllFull(c, s.queues))
  }

  lemma PendingRdma(c: SQ.Config, s: SQ.SendState)
    requires SP.Posting(c, s) && AllRdma(s)
    ensures forall v | v in s.pending :: IsRdma(v.wr.opcode)
  {
    forall v | v in s.pending
      ensures IsRdma(v.wr.opcode)
    {
      var i: nat :| i < |s.pending| && s.pending[i] == v;
      assert SP.PendingOk(c, s, i);
    }
  }

  lemma PostSendFlow(e: Endpoint, h: History, wr: SendWr)
    requires Inv(e, h) && FlowInv(e.c, e.send) && AllRdma(e.send)
    requires SP.ValidMsg(wr) && IsRdma(wr.opcode)
    ensures Ready(e) && PostSend(e, wr).Ok? && FlowInv(e.c, PostSend(e, wr).value.send)
  {
    InvReady(e, h);
    EnqueueSendable(e.c, e.send, wr);
    PendingRdma(e.c, e.send);
    SQ.MapPendingFlow(e.c, SQ.Enqueue(e.c, e.send, wr), |e.recv.log|, -1);
  }

  lemma CompleteSendFlow(e: Endpoint, h: History, i: nat, p: PhysicalWc)
    requires Inv(e, h) && FlowInv(e.c, e.send) && AllRdma(e.send) && ReportsSend(e, h, i, p)
    ensures Ready(e) && (e.send.log[i].qp.Data? ==> e.send.log[i].qp.i < e.c.numQps)
    ensures var r := CompleteSend(e, e.send.log[i].qp, p); r.Ok? && FlowInv(e.c, r.value.send)
  {
    CompleteSendInv(e, h, i, p);
    RefillFlow(e, h, i, p);
    NotifyKeepsQueues(e, e.send.log[i].qp, p);
  }

  /** Asking for a notify leaves the data QPs as the refill made them. */
  lemma NotifyKeepsQueues(e: Endpoint, qp: QpRef, p: PhysicalWc)
    requires Ready(e) && (qp.Data? ==> qp.i < e.c.numQps) && CompleteSend(e, qp, p).Ok?
    ensures var s := SQ.PopStatus(e.send, qp);
            var s2 := if qp.Data? then SQ.MapPending(e.c, s, |e.recv.log|, qp.i) else s;
            var s3 := CompleteSend(e, qp, p).value.send;
            s3.queues == s2.queues && s3.pending == s2.pending
  {
  }

  /** What is left when the completed post has been taken off its status deque and its QP refilled. */
  lemma RefillFlow(e: Endpoint, h: History, i: nat, p: PhysicalWc)
    requires Inv(e, h) && FlowInv(e.c, e.send) && AllRdma(e.send) && ReportsSend(e, h, i, p)
    ensures var qp := e.send.log[i].qp;
            && Ready(e) && (qp.Data? ==> qp.i < e.c.numQps) && SQ.StatusOf(e.send, qp) != []
            && var s := SQ.PopStatus(e.send, qp);
               FlowInv(e.c, if qp.Data? then SQ.MapPending(e.c, s, |e.recv.log|, qp.i) else s)
  {
    ReportedSend(e, h, i, p);
    var qp := e.send.log[i].qp;
    var s1 := SQ.PopStatus(e.send, qp);
    PendingRdma(e.c, e.send);
    if qp.Data? {
      assert s1.pending == e.send.pending;
      SQ.MapPendingFlow(e.c, s1, |e.recv.log|, qp.i);
    }
  }

  /**
   * For SPRAY receives: data QP 0 never exceeds the limit, and receives wait only for a buffer and only while
   * it is full.
   */
  ghost predicate RecvFlow(c: SQ.Config, r: RQ.RecvState) {
    && |r.queues| > 0 && (c.limit >= 0 ==> |r.queues[0]| <= c.limit)
    && (r.pending != [] ==> r.pending[0].wr.numSge != 0 && c.limit >= 0 && |r.queues[0]| == c.limit)
  }

  lemma PostRecvFlow(e: Endpoint, h: History, wr: RecvWr)
    requires Inv(e, h) && e.c.scheme.Spray? && RecvFlow(e.c, e.recv) && ValidRecv(e.c, wr)
    ensures Ready(e) && PostRecv(e, wr).Ok? && RecvFlow(e.c, PostRecv(e, wr).value.recv)
  {
    InvReady(e, h);
    EnqueueReceivable(e.c, e.recv, wr);
    RQ.MapPendingFlow(e.c, RQ.Enqueue(e.c, e.recv, wr), |e.send.log|, -1);
  }

  lemma CompleteRecvFlow(e: Endpoint, h: History, i: nat, p: PhysicalWc)
    requires Inv(e, h) && e.c.scheme.Spray? && RecvFlow(e.c, e.recv) && ReportsRecv(e, h, i, p)
    ensures Ready(e) && (e.recv.log[i].qp.Data? ==> e.recv.log[i].qp.i < e.c.numQps)
    ensures var r := CompleteRecv(e, e.recv.log[i].qp, p); r.Ok? && RecvFlow(e.c, r.value.recv)
  {
    CompleteRecvSpray(e, h, i, p);
    RefillRecvFlow(e, h, i, p);
  }

  lemma RefillRecvFlow(e: Endpoint, h: History, i: nat, p: PhysicalWc)
    requires Inv(e, h) && e.c.scheme.Spray? && RecvFlow(e.c, e.recv) && ReportsRecv(e, h, i, p)
    ensures var qp := e.recv.log[i].qp;
            && e.c.Valid() && (qp.Data? ==> qp.i < e.c.numQps) && |e.recv.queues| == e.c.numQps && RQ.StatusOf(e.recv, qp) != []
            && var r := RQ.PopStatus(e.recv, qp);
               RQ.Receivable(e.c, r) && RecvFlow(e.c, if qp.Data? then RQ.MapPending(e.c, r, |e.send.log|, qp.i) else r)
  {
    RQ.CompletePost(e.c, e.recv, RecvWcs(e.cq), |e.cq.recvsOut|, h.recvDone, h.recvComps, i, p);
    var qp := e.recv.log[i].qp;
    var r := RQ.PopStatus(e.recv, qp);
    RQ.PostingReceivable(e.c, r);
    if qp.Data? { RQ.MapPendingFlow(e.c, r, |e.send.log|, qp.i); }
  }

  // ---------------------------------------------------------------- every completion makes progress

  ghost function TotalRemaining(wcs: seq<VirtualWc>): int {
    if wcs == [] then 0 else TotalRemaining(wcs[..|wcs| - 1]) + wcs[|wcs| - 1].remaining
  }

  lemma {:induction false} TotalAfterAbsorb(wcs: seq<VirtualWc>, m: nat, p: PhysicalWc)
    requires m < |wcs|
    ensures TotalRemaining(wcs[m := Absorb(wcs[m], p)]) == TotalRemaining(wcs) - 1
  {
    var n := |wcs| - 1;
    var wcs' := wcs[m := Absorb(wcs[m], p)];
    if m < n {
      assert wcs'[..n] == wcs[..n][m := Absorb(wcs[m], p)];
      TotalAfterAbsorb(wcs[..n], m, p);
    } else {
      assert wcs'[..n] == wcs[..n];
    }
  }

  /** Each physical send completion takes exactly one off what all virtual sends together still count. */
  lemma CompletionDecreases(e: Endpoint, h: History, i: nat, p: PhysicalWc)
    requires Inv(e, h) && ReportsSend(e, h, i, p)
    ensures Ready(e) && (e.send.log[i].qp.Data? ==> e.send.log[i].qp.i < e.c.numQps)
    ensures var r := CompleteSend(e, e.send.log[i].qp, p);
            r.Ok? && TotalRemaining(SendWcs(r.value.cq)) == TotalRemaining(SendWcs(e.cq)) - 1
  {
    CompleteSendInv(e, h, i, p);
    CountedInv(e, h, i, p);
    TotalAfterAbsorb(SendWcs(e.cq), e.send.log[i].msg, p);
  }

  // ---------------------------------------------------------------- which messages are stranded

  ghost predicate AllDone(s: SQ.SendState, done: set<nat>, m: nat) {
    forall j: nat | j < |s.log| && s.log[j].msg == m :: j in done
  }

  /** Exactly the messages whose request was ignored wait for a notify with nothing of them in flight. */
  ghost predicate StrandedExactly(s: SQ.SendState, done: set<nat>, ignored: set<nat>) {
    && (forall m | m in SP.MsgsOf(s.notifying) :: AllDone(s, done, m) <==> m in ignored)
    && (forall m | m in ignored :: m in SP.MsgsOf(s.notifying))
  }

  /** Data chunks are posted in message order. */
  ghost predicate DataOrdered(s: SQ.SendState) {
    && (forall i: nat, j: nat | i < j < |s.log| && s.log[i].qp.Data? && s.log[j].qp.Data? :: s.log[i].msg <= s.log[j].msg)
    && (forall i: nat | i < |s.log| && s.log[i].qp.Data? :: s.log[i].msg <= SP.HandedOver(s))
  }

  lemma PostChunkOrdered(c: SQ.Config, s: SQ.SendState, base: nat, q: nat)
    requires SP.Posting(c, s) && DataOrdered(s) && s.pending != [] && q < |s.queues| && SQ.Sendable(c, s)
    ensures DataOrdered(SQ.PostChunk(c, s, base, q))
  {
    SP.PostChunkMoves(c, s, base, q);
  }

  lemma PostChunkStranded(c: SQ.Config, s: SQ.SendState, base: nat, q: nat, done: set<nat>, ignored: set<nat>)
    requires SP.Posting(c, s) && StrandedExactly(s, done, ignored) && |s.log| !in done
    requires s.pending != [] && q < |s.queues| && SQ.Sendable(c, s)
    ensures StrandedExactly(SQ.PostChunk(c, s, base, q), done, ignored)
  {
    var s', d := SQ.PostChunk(c, s, base, q), SP.HandedOver(s);
    SP.PostChunkMoves(c, s, base, q);
    assert SP.PendingOk(c, s, 0);
    WaitingExactly(c, s, d);
    assert SP.MsgsOf(s'.notifying) == SP.MsgsOf(s.notifying)
        || SP.MsgsOf(s'.notifying) == SP.MsgsOf(s.notifying) + [d];
    forall m | m in SP.MsgsOf(s'.notifying)
      ensures AllDone(s', done, m) <==> m in ignored
    {
      if m == d {
        assert s'.log[|s.log|].msg == m;
      } else {
        assert AllDone(s', done, m) <==> AllDone(s, done, m) by {
          assert forall j: nat | j < |s.log| :: s'.log[j] == s.log[j];
        }
      }
    }
  }

  lemma {:induction false} MapPendingStranded(c: SQ.Config, s: SQ.SendState, base: nat, hint: int, done: set<nat>, ignored: set<nat>)
    requires SP.Posting(c, s) && StrandedExactly(s, done, ignored) && DataOrdered(s) && SQ.Sendable(c, s)
    requires (forall j | j in done :: j < |s.log|) && -1 <= hint < c.numQps && |s.queues| == c.numQps && s.nextQp < c.numQps
    ensures StrandedExactly(SQ.MapPending(c, s, base, hint), done, ignored)
    ensures DataOrdered(SQ.MapPending(c, s, base, hint))
    decreases |s.pending|, SQ.FrontLeft(s), SQ.Slots(c, s.queues, hint)
  {
    if s.pending != [] {
      var (q, next, hint') := SQ.ChooseQp(c, s, hint);
      var s1 := s.(nextQp := next);
      PostingCursor(c, s, next);
      assert StrandedExactly(s1, done, ignored);
      if q != -1 {
        SQ.PostChunkSendable(c, s1, base, q);
        SP.PostChunkPosting(c, s1, base, q);
        PostChunkStranded(c, s1, base, q, done, ignored);
        PostChunkOrdered(c, s1, base, q);
        MapPendingStranded(c, SQ.PostChunk(c, s1, base, q), base, hint', done, ignored);
      }
    }
  }

  lemma PostingCursor(c: SQ.Config, s: SQ.SendState, next: nat)
    requires SP.Posting(c, s)
    ensures SP.Posting(c, s.(nextQp := next))
  {
    var s1 := s.(nextQp := next);
    forall i: nat | i < |s1.pending| ensures SP.PendingOk(c, s1, i) { assert SP.PendingOk(c, s, i); }
    forall m: nat | m < SP.HandedOver(s1) ensures SP.HandedOverOk(c, s1, m) { assert SP.HandedOverOk(c, s, m); }
    forall v | v in s1.notifying ensures SP.NotifyingOk(s1, v) { assert SP.NotifyingOk(s, v); }
  }

  lemma PostSendStranded(e: Endpoint, h: History, wr: SendWr)
    requires Inv(e, h) && StrandedExactly(e.send, h.sendDone, h.ignored) && DataOrdered(e.send) && SP.ValidMsg(wr)
    ensures Ready(e) && PostSend(e, wr).Ok?
    ensures StrandedExactly(PostSend(e, wr).value.send, h.sendDone, h.ignored) && DataOrdered(PostSend(e, wr).value.send)
  {
    InvReady(e, h);
    EnqueueSendable(e.c, e.send, wr);
    SP.EnqueueInv(e.c, e.send, wr, SendWcs(e.cq), |e.cq.sendsOut|, h.sendDone, h.sendComps);
    MapPendingStranded(e.c, SQ.Enqueue(e.c, e.send, wr), |e.recv.log|, -1, h.sendDone, h.ignored);
  }

  /** The branch of processRequest that drops a request for a notify: another message is first in line. */
  ghost predicate RequestIgnored(e: Endpoint, i: nat, p: PhysicalWc)
    requires Ready(e) && i < |e.send.log| && (e.send.log[i].qp.Data? ==> e.send.log[i].qp.i < e.c.numQps)
    requires SQ.StatusOf(e.send, e.send.log[i].qp) != []
    requires Live(e.cq, SQ.StatusOf(e.send, e.send.log[i].qp)[0].virtualWrId)
    requires e.send.log[i].msg < |SendWcs(e.cq)|
  {
    var waiting := Counted(e, e.send.log[i].qp, p).send.notifying;
    AsksNotify(e, i, p) && waiting != [] && waiting[0].wr.wrId != SQ.StatusOf(e.send, e.send.log[i].qp)[0].virtualWrId
  }

  ghost function IgnoredAfter(e: Endpoint, h: History, i: nat, p: PhysicalWc): set<nat>
    requires Inv(e, h) && ReportsSend(e, h, i, p)
  {
    ReportedSend(e, h, i, p);
    h.ignored + if RequestIgnored(e, i, p) then {e.send.log[i].msg} else {}
  }

  /** A message that waits for its notify with nothing in flight counts that one completion. */
  lemma OnlyNotifyMissing(e: Endpoint, h: History, m: nat)
    requires SendInv(e, h) && m in SP.MsgsOf(e.send.notifying) && AllDone(e.send, h.sendDone, m)
    ensures m < |SendWcs(e.cq)| && SendWcs(e.cq)[m].remaining == 1 && SendWcs(e.cq)[m].extraNotify
  {
    WaitingExactly(e.c, e.send, m);
    assert SP.HandedOverOk(e.c, e.send, m);
    Remaining(SP.SendLedger(e.c, e.send, SendWcs(e.cq), |e.cq.sendsOut|, h.sendDone, h.sendComps), m);
    CountDoneBound(e.send.log, h.sendDone, m);
  }

  /** Once a completion is counted, its message waits with nothing in flight exactly when it asks for its notify. */
  lemma AsksExactly(e: Endpoint, h: History, i: nat, p: PhysicalWc)
    requires Inv(e, h) && ReportsSend(e, h, i, p)
    ensures var m := e.send.log[i].msg;
            && m < |SendWcs(e.cq)|
            && Ready(e) && (e.send.log[i].qp.Data? ==> e.send.log[i].qp.i < e.c.numQps)
            && SQ.StatusOf(e.send, e.send.log[i].qp) != [] && Live(e.cq, SQ.StatusOf(e.send, e.send.log[i].qp)[0].virtualWrId)
            && var s2 := Counted(e, e.send.log[i].qp, p).send;
               AsksNotify(e, i, p) <==> m in SP.MsgsOf(s2.notifying) && AllDone(s2, h.sendDone + {i}, m)
  {
    CountedInv(e, h, i, p);
    var qp, m := e.send.log[i].qp, e.send.log[i].msg;
    var e1, h' := Counted(e, qp, p), AfterSend(e, h, i, p);
    if AsksNotify(e, i, p) {
      AskedMessageWaits(e, h, i, p);
    }
    if m in SP.MsgsOf(e1.send.notifying) && AllDone(e1.send, h'.sendDone, m) {
      OnlyNotifyMissing(e1, h', m);
    }
  }

  lemma CountedStranded(e: Endpoint, h: History, i: nat, p: PhysicalWc)
    requires Inv(e, h) && ReportsSend(e, h, i, p)
    requires StrandedExactly(e.send, h.sendDone, h.ignored) && DataOrdered(e.send)
    ensures Ready(e) && (e.send.log[i].qp.Data? ==> e.send.log[i].qp.i < e.c.numQps)
    ensures e.send.log[i].msg < |SendWcs(e.cq)|
    ensures SQ.StatusOf(e.send, e.send.log[i].qp) != [] && Live(e.cq, SQ.StatusOf(e.send, e.send.log[i].qp)[0].virtualWrId)
    ensures var s2 := Counted(e, e.send.log[i].qp, p).send;
            && DataOrdered(s2)
            && StrandedExactly(s2, h.sendDone + {i}, h.ignored + if AsksNotify(e, i, p) then {e.send.log[i].msg} else {})
  {
    AsksExactly(e, h, i, p);
    var qp, m := e.send.log[i].qp, e.send.log[i].msg;
    var s1, done := SQ.PopStatus(e.send, qp), h.sendDone + {i};
    SP.CompletePost(e.c, e.send, SendWcs(e.cq), |e.cq.sendsOut|, h.sendDone, h.sendComps, i, p);
    SP.PostingSendable(e.c, s1);
    var stuck := PopStranded(e.c, e.send, |e.recv.log|, h.sendDone, h.ignored, i);
    assert m in stuck <==> AsksNotify(e, i, p);
    assert stuck == h.ignored + if AsksNotify(e, i, p) then {m} else {};
  }

  /** Stranding across the pop of a status entry and the refill of its QP, on the sending half alone. */
  lemma PopStranded(c: SQ.Config, s: SQ.SendState, base: nat, done: set<nat>, ignored: set<nat>, i: nat)
      returns (stuck: set<nat>)
    requires StrandedExactly(s, done, ignored) && DataOrdered(s) && i < |s.log| && i !in done
    requires forall j | j in done :: j < |s.log|
    requires |s.queues| == c.numQps && s.nextQp < c.numQps
    requires (s.log[i].qp.Data? ==> s.log[i].qp.i < c.numQps) && SQ.StatusOf(s, s.log[i].qp) != []
    requires SP.Posting(c, SQ.PopStatus(s, s.log[i].qp)) && SQ.Sendable(c, SQ.PopStatus(s, s.log[i].qp))
    ensures s.log[i].msg !in ignored && (stuck == ignored || stuck == ignored + {s.log[i].msg})
    ensures var qp := s.log[i].qp;
            var s1 := SQ.PopStatus(s, qp);
            var s2 := if qp.Data? then SQ.MapPending(c, s1, base, qp.i) else s1;
            DataOrdered(s2) && StrandedExactly(s2, done + {i}, stuck)
  {
    var qp, m := s.log[i].qp, s.log[i].msg;
    var s1 := SQ.PopStatus(s, qp);
    stuck := ignored + if m in SP.MsgsOf(s.notifying) && AllDone(s, done + {i}, m) then {m} else {};
    DoneStranded(s, done, ignored, i);
    assert m in ignored ==> AllDone(s, done, m);
    assert StrandedExactly(s1, done + {i}, stuck) by {
      assert forall k: nat :: AllDone(s1, done + {i}, k) <==> AllDone(s, done + {i}, k);
    }
    if qp.Data? {
      MapPendingStranded(c, s1, base, qp.i, done + {i}, stuck);
    }
  }

  /** One more post done: only its own message can become stranded. */
  lemma DoneStranded(s: SQ.SendState, done: set<nat>, ignored: set<nat>, i: nat)
    requires StrandedExactly(s, done, ignored) && i < |s.log| && i !in done
    ensures var m := s.log[i].msg;
            StrandedExactly(s, done + {i}, ignored + if m in SP.MsgsOf(s.notifying) && AllDone(s, done + {i}, m) then {m} else {})
  {
    var m := s.log[i].msg;
    forall k | k in SP.MsgsOf(s.notifying) && k != m
      ensures AllDone(s, done + {i}, k) <==> AllDone(s, done, k)
    {
    }
    assert !AllDone(s, done, m);
  }

  lemma PostNotifyStranded(c: SQ.Config, s: SQ.SendState, base: nat, done: set<nat>, ignored: set<nat>)
    requires SP.Posting(c, s) && s.notifying != [] && StrandedExactly(s, done, ignored) && DataOrdered(s) && |s.log| !in done
    ensures StrandedExactly(SQ.PostNotify(s, base), done, ignored - {s.notifying[0].msg})
    ensures DataOrdered(SQ.PostNotify(s, base))
  {
    var s', m := SQ.PostNotify(s, base), s.notifying[0].msg;
    assert SP.MsgsOf(s.notifying) == [m] + SP.MsgsOf(s'.notifying);
    forall k | k in SP.MsgsOf(s'.notifying)
      ensures k in SP.MsgsOf(s.notifying) && k != m && (AllDone(s', done, k) <==> AllDone(s, done, k))
    {
      var j :| 0 <= j < |s'.notifying| && s'.notifying[j].msg == k;
      WaitingInOrder(c, s, 0, j + 1);
      assert forall x: nat | x < |s.log| :: s'.log[x] == s.log[x];
    }
    forall k | k in ignored - {m} ensures k in SP.MsgsOf(s'.notifying) {
      assert k in SP.MsgsOf(s.notifying);
    }
  }

  /** The notify that was asked for goes out if its message is the first in line. */
  ghost predicate ServesNotify(e: Endpoint, i: nat, p: PhysicalWc, e1: Endpoint)
    requires i < |e.send.log| && e.send.log[i].msg < |SendWcs(e.cq)|
  {
    AsksNotify(e, i, p) && e1.send.notifying != [] && e1.send.notifying[0].msg == e.send.log[i].msg
  }

  /** What a completion does: it is counted, the QP refilled, and the notify posted if it is asked for and in line. */
  lemma CompletedSend(e: Endpoint, h: History, i: nat, p: PhysicalWc)
    requires Inv(e, h) && ReportsSend(e, h, i, p)
    ensures var qp, m := e.send.log[i].qp, e.send.log[i].msg;
            && Ready(e) && (qp.Data? ==> qp.i < e.c.numQps) && SQ.StatusOf(e.send, qp) != []
            && m < |SendWcs(e.cq)| && Live(e.cq, SQ.StatusOf(e.send, qp)[0].virtualWrId)
            && var e1, r := Counted(e, qp, p), CompleteSend(e, qp, p);
               && r.Ok? && SP.Posting(e.c, e1.send) && |e1.send.log| !in h.sendDone + {i}
               && r.value.send == (if ServesNotify(e, i, p, e1) then SQ.PostNotify(e1.send, |e.recv.log|) else e1.send)
               && IgnoredAfter(e, h, i, p) == h.ignored + if AsksNotify(e, i, p) && !ServesNotify(e, i, p, e1) then {m} else {}
  {
    CompletedCount(e, h, i, p);
    if AsksNotify(e, i, p) { AskedFirst(e, h, i, p); }
  }

  /** As far as counting and refilling go. */
  lemma CompletedCount(e: Endpoint, h: History, i: nat, p: PhysicalWc)
    requires Inv(e, h) && ReportsSend(e, h, i, p)
    ensures var qp, m := e.send.log[i].qp, e.send.log[i].msg;
            && Ready(e) && (qp.Data? ==> qp.i < e.c.numQps) && SQ.StatusOf(e.send, qp) != []
            && m < |SendWcs(e.cq)| && SQ.StatusOf(e.send, qp)[0].virtualWrId == SendWcs(e.cq)[m].wrId
            && Live(e.cq, SendWcs(e.cq)[m].wrId) && Entry(e.cq, SendWcs(e.cq)[m].wrId) == SendWcs(e.cq)[m]
            && SQ.StatusOf(e.send, qp)[0].physicalWrId == p.wrId
            && SP.Posting(e.c, Counted(e, qp, p).send) && |Counted(e, qp, p).send.log| !in h.sendDone + {i}
  {
    ReportedSend(e, h, i, p);
    CountedInv(e, h, i, p);
  }

  /** Ids tell whether the message that asks is the first in line. */
  lemma AskedFirst(e: Endpoint, h: History, i: nat, p: PhysicalWc)
    requires Inv(e, h) && ReportsSend(e, h, i, p) && e.send.log[i].msg < |SendWcs(e.cq)| && AsksNotify(e, i, p)
    ensures var qp, m := e.send.log[i].qp, e.send.log[i].msg;
            && Ready(e) && (qp.Data? ==> qp.i < e.c.numQps) && SQ.StatusOf(e.send, qp) != []
            && Live(e.cq, SQ.StatusOf(e.send, qp)[0].virtualWrId)
            && var line := Counted(e, qp, p).send.notifying;
               line != [] && (line[0].wr.wrId == SendWcs(e.cq)[m].wrId <==> line[0].msg == m)
  {
    CountedInv(e, h, i, p);
    AskedMessageWaits(e, h, i, p);
    var m, e1, h' := e.send.log[i].msg, Counted(e, e.send.log[i].qp, p), AfterSend(e, h, i, p);
    var first := e1.send.notifying[0];
    WaitingIsLive(e1, h', first);
    if first.wr.wrId == SendWcs(e1.cq)[m].wrId { SameIdSameMessage(e1.cq, first.msg, m); }
  }

  /**
   * A message is stranded exactly when its request for a notify was ignored: the completion that asks is
   * served if its message is the first in line, and otherwise nothing ever asks again.
   */
  lemma CompleteSendStranded(e: Endpoint, h: History, i: nat, p: PhysicalWc)
    requires Inv(e, h) && ReportsSend(e, h, i, p)
    requires StrandedExactly(e.send, h.sendDone, h.ignored) && DataOrdered(e.send)
    ensures Ready(e) && (e.send.log[i].qp.Data? ==> e.send.log[i].qp.i < e.c.numQps)
    ensures var r := CompleteSend(e, e.send.log[i].qp, p);
            && r.Ok? && DataOrdered(r.value.send)
            && StrandedExactly(r.value.send, h.sendDone + {i}, IgnoredAfter(e, h, i, p))
  {
    CompletedSend(e, h, i, p);
    CountedStranded(e, h, i, p);
    var qp, m := e.send.log[i].qp, e.send.log[i].msg;
    var e1 := Counted(e, qp, p);
    if ServesNotify(e, i, p, e1) {
      PostNotifyStranded(e.c, e1.send, |e.recv.log|, h.sendDone + {i}, h.ignored + {m});
      assert m in h.ignored ==> AllDone(e.send, h.sendDone, m);
      assert h.ignored + {m} - {m} == h.ignored;
    }
  }

  /** An earlier message that needs a notify has not had it posted. */
  ghost predicate EarlierUnnotified(e: Endpoint, m: nat) {
    exists k: nat :: k < m && k < |e.send.msgs| && SQ.NeedsNotify(e.c, e.send.msgs[k]) && k !in SP.Notified(e.send.log)
  }

  /**
   * When a request for a notify is lost: exactly when the last data completion of its message overtakes a
   * message posted earlier whose notify is still to come.
   */
  lemma IgnoredExactly(e: Endpoint, h: History, i: nat, p: PhysicalWc)
    requires Inv(e, h) && ReportsSend(e, h, i, p)
    ensures Ready(e) && (e.send.log[i].qp.Data? ==> e.send.log[i].qp.i < e.c.numQps)
    ensures SQ.StatusOf(e.send, e.send.log[i].qp) != [] && e.send.log[i].msg < |SendWcs(e.cq)|
    ensures Live(e.cq, SQ.StatusOf(e.send, e.send.log[i].qp)[0].virtualWrId)
    ensures RequestIgnored(e, i, p) <==> AsksNotify(e, i, p) && EarlierUnnotified(e, e.send.log[i].msg)
  {
    CountedInv(e, h, i, p);
    if AsksNotify(e, i, p) {
      AskedMessageWaits(e, h, i, p);
      var qp, m := e.send.log[i].qp, e.send.log[i].msg;
      var e1, h' := Counted(e, qp, p), AfterSend(e, h, i, p);
      CountedLog(e, h, i, p);
      CountedMsgs(e, h, i, p);
      FirstWaiting(e1, h', m);
      assert EarlierUnnotified(e1, m) <==> EarlierUnnotified(e, m);
    }
  }

  lemma CountedMsgs(e: Endpoint, h: History, i: nat, p: PhysicalWc)
    requires Inv(e, h) && ReportsSend(e, h, i, p)
    ensures Ready(e) && (e.send.log[i].qp.Data? ==> e.send.log[i].qp.i < e.c.numQps)
    ensures SQ.StatusOf(e.send, e.send.log[i].qp) != [] && Live(e.cq, SQ.StatusOf(e.send, e.send.log[i].qp)[0].virtualWrId)
    ensures Counted(e, e.send.log[i].qp, p).send.msgs == e.send.msgs
  {
    CountedInv(e, h, i, p);
    var qp := e.send.log[i].qp;
    if qp.Data? {
      SP.CompletePost(e.c, e.send, SendWcs(e.cq), |e.cq.sendsOut|, h.sendDone, h.sendComps, i, p);
      SP.PostingSendable(e.c, SQ.PopStatus(e.send, qp));
      MapPendingLog(e.c, SQ.PopStatus(e.send, qp), |e.recv.log|, qp.i);
    }
  }

  /** A waiting message is first in line, by id, unless an earlier one still waits. */
  lemma FirstWaiting(e: Endpoint, h: History, m: nat)
    requires Inv(e, h) && m in SP.MsgsOf(e.send.notifying) && |e.cq.sendsOut| <= m < |SendWcs(e.cq)|
    ensures e.send.notifying != []
    ensures e.send.notifying[0].wr.wrId != SendWcs(e.cq)[m].wrId <==> EarlierUnnotified(e, m)
  {
    var waiting := e.send.notifying;
    var j :| 0 <= j < |waiting| && SP.MsgsOf(waiting)[j] == m;
    WaitingExactly(e.c, e.send, m);
    WaitingIsLive(e, h, waiting[0]);
    if j > 0 { WaitingInOrder(e.c, e.send, 0, j); }
    var first := waiting[0].msg;
    assert SP.MsgsOf(waiting)[0] == first;
    WaitingExactly(e.c, e.send, first);
    if EarlierUnnotified(e, m) {
      var k: nat :| k < m && k < |e.send.msgs| && SQ.NeedsNotify(e.c, e.send.msgs[k]) && k !in SP.Notified(e.send.log);
      WaitingExactly(e.c, e.send, k);
      var i :| 0 <= i < |waiting| && SP.MsgsOf(waiting)[i] == k;
      if i > 0 { WaitingInOrder(e.c, e.send, 0, i); }
    }
    if waiting[0].wr.wrId == SendWcs(e.cq)[m].wrId { SameIdSameMessage(e.cq, first, m); }
  }

  /** With a single data QP no request is ever ignored. */
  lemma OneQpServesAll(e: Endpoint, h: History, i: nat, p: PhysicalWc)
    requires Inv(e, h) && ReportsSend(e, h, i, p)
    requires StrandedExactly(e.send, h.sendDone, h.ignored) && DataOrdered(e.send)
    requires e.c.numQps == 1 && h.ignored == {}
    ensures IgnoredAfter(e, h, i, p) == {}
  {
    ReportedSend(e, h, i, p);
    if AsksNotify(e, i, p) { AskedIsFirst(e, h, i, p); }
  }

  lemma AskedIsFirst(e: Endpoint, h: History, i: nat, p: PhysicalWc)
    requires Inv(e, h) && ReportsSend(e, h, i, p) && e.send.log[i].msg < |SendWcs(e.cq)| && AsksNotify(e, i, p)
    requires Ready(e) && (e.send.log[i].qp.Data? ==> e.send.log[i].qp.i < e.c.numQps)
    requires SQ.StatusOf(e.send, e.send.log[i].qp) != []
    requires Live(e.cq, SQ.StatusOf(e.send, e.send.log[i].qp)[0].virtualWrId)
    requires StrandedExactly(e.send, h.sendDone, h.ignored) && DataOrdered(e.send)
    requires e.c.numQps == 1 && h.ignored == {}
    ensures !RequestIgnored(e, i, p)
  {
    CountedInv(e, h, i, p);
    CountedStranded(e, h, i, p);
    var e1, h' := Counted(e, e.send.log[i].qp, p), AfterSend(e, h, i, p);
    AskedMessageWaits(e, h, i, p);
    assert h.ignored + {e.send.log[i].msg} == {e.send.log[i].msg};
    CountedLog(e, h, i, p);
    FirstInLine(e1, h', i);
    WaitingIsLive(e1, h', e1.send.notifying[0]);
  }

  /** Refilling only appends to the post log. */
  lemma CountedLog(e: Endpoint, h: History, i: nat, p: PhysicalWc)
    requires Inv(e, h) && ReportsSend(e, h, i, p)
    ensures Ready(e) && (e.send.log[i].qp.Data? ==> e.send.log[i].qp.i < e.c.numQps)
    ensures SQ.StatusOf(e.send, e.send.log[i].qp) != [] && Live(e.cq, SQ.StatusOf(e.send, e.send.log[i].qp)[0].virtualWrId)
    ensures e.send.log <= Counted(e, e.send.log[i].qp, p).send.log
  {
    CountedInv(e, h, i, p);
    var qp := e.send.log[i].qp;
    if qp.Data? {
      SP.CompletePost(e.c, e.send, SendWcs(e.cq), |e.cq.sendsOut|, h.sendDone, h.sendComps, i, p);
      SP.PostingSendable(e.c, SQ.PopStatus(e.send, qp));
      MapPendingLog(e.c, SQ.PopStatus(e.send, qp), |e.recv.log|, qp.i);
    }
  }

  lemma {:induction false} MapPendingLog(c: SQ.Config, s: SQ.SendState, base: nat, hint: int)
    requires SQ.Sendable(c, s) && c.Valid() && |s.queues| == c.numQps && s.nextQp < c.numQps && -1 <= hint < c.numQps
    ensures s.log <= SQ.MapPending(c, s, base, hint).log && SQ.MapPending(c, s, base, hint).msgs == s.msgs
    decreases |s.pending|, SQ.FrontLeft(s), SQ.Slots(c, s.queues, hint)
  {
    if s.pending != [] {
      var (q, next, hint') := SQ.ChooseQp(c, s, hint);
      if q != -1 {
        SQ.PostChunkSendable(c, s.(nextQp := next), base, q);
        MapPendingLog(c, SQ.PostChunk(c, s.(nextQp := next), base, q), base, hint');
      }
    }
  }

  lemma FirstInLine(e: Endpoint, h: History, i: nat)
    requires Inv(e, h) && DataOrdered(e.send) && e.c.numQps == 1
    requires i in h.sendDone && i < |e.send.log| && e.send.log[i].qp.Data?
    requires e.send.log[i].msg in SP.MsgsOf(e.send.notifying)
    requires StrandedExactly(e.send, h.sendDone, {e.send.log[i].msg})
    ensures e.send.notifying[0].msg == e.send.log[i].msg
  {
    var waiting, m := e.send.notifying, e.send.log[i].msg;
    var k :| 0 <= k < |waiting| && SP.MsgsOf(waiting)[k] == m;
    assert SP.MsgsOf(waiting)[0] == waiting[0].msg;
    if k > 0 {
      WaitingInOrder(e.c, e.send, 0, k);
      EarlierOneQp(e, h, i, waiting[0].msg);
    }
  }

  /** On one data QP, once a chunk of a message has completed, so have all data chunks of earlier messages. */
  lemma EarlierOneQp(e: Endpoint, h: History, i: nat, k: nat)
    requires Inv(e, h) && DataOrdered(e.send) && e.c.numQps == 1
    requires i in h.sendDone && i < |e.send.log| && e.send.log[i].qp.Data? && k < e.send.log[i].msg
    requires k in SP.MsgsOf(e.send.notifying)
    ensures AllDone(e.send, h.sendDone, k)
  {
    WaitingExactly(e.c, e.send, k);
    SP.NotifiedIn(e.send.log, k);
    forall j: nat | j < |e.send.log| && e.send.log[j].msg == k
      ensures j in h.sendDone
    {
      assert SP.ContentOk(e.c, e.send, i) && SP.ContentOk(e.c, e.send, j);
      assert j < i;
    }
  }

  // ---------------------------------------------------------------- who finishes

  ghost predicate NothingInFlight(s: SQ.SendState) {
    (forall q | 0 <= q < |s.queues| :: s.queues[q] == []) && s.notifyQueue == []
  }

  /**
   * When nothing is in flight, every message has finished if and only if no request for a notify was ever
   * ignored; and the unfinished messages are exactly the ignored ones.
   */
  lemma FinishedUnlessIgnored(e: Endpoint, h: History)
    requires Inv(e, h) && AllRdma(e.send) && FlowInv(e.c, e.send) && e.c.limit != 0
    requires StrandedExactly(e.send, h.sendDone, h.ignored)
    requires NothingInFlight(e.send)
    ensures e.send.pending == []
    ensures forall k: nat | k < |SendWcs(e.cq)| :: SendWcs(e.cq)[k].remaining == 0 <==> k !in h.ignored
    ensures (forall k: nat | k < |SendWcs(e.cq)| :: SendWcs(e.cq)[k].remaining == 0) <==> h.ignored == {}
  {
    assert |e.send.queues[0]| == 0;
    var l := SP.SendLedger(e.c, e.send, SendWcs(e.cq), |e.cq.sendsOut|, h.sendDone, h.sendComps);
    forall i: nat | i < |e.send.log|
      ensures i in h.sendDone
    {
      assert SP.ContentOk(e.c, e.send, i);
      InFlightEmptyIff(e.send.log, h.sendDone, e.send.log[i].qp);
    }
    forall k: nat | k < |SendWcs(e.cq)|
      ensures SendWcs(e.cq)[k].remaining == 0 <==> k !in h.ignored
    {
      Remaining(l, k);
      CountDoneBound(e.send.log, h.sendDone, k);
      assert SP.HandedOverOk(e.c, e.send, k);
      WaitingExactly(e.c, e.send, k);
      if k in SP.Notified(e.send.log) { NotifiedNeeds(e.c, e.send, k); }
      assert AllDone(e.send, h.sendDone, k);
    }
    if h.ignored != {} {
      var k :| k in h.ignored;
      WaitingExactly(e.c, e.send, k);
    }
  }

  /** A message that has not been handed over completely has a chunk left to post. */
  lemma PendingHasLeft(c: SQ.Config, s: SQ.SendState, m: nat)
    requires SP.Posting(c, s) && m < |s.msgs|
    ensures m < SP.HandedOver(s) || CountMsg(s.log, m) < SQ.Chunks(s.msgs[m].length, c.maxMsgSize)
  {
    if SP.HandedOver(s) <= m { assert SP.PendingOk(c, s, m - SP.HandedOver(s)); }
  }

  lemma NotifiedNeeds(c: SQ.Config, s: SQ.SendState, m: nat)
    requires SP.Posting(c, s) && m in SP.Notified(s.log)
    ensures m < |s.msgs| && SQ.NeedsNotify(c, s.msgs[m])
  {
    SP.NotifyOrderIn(c, s.msgs, SP.HandedOver(s));
    var n :| 0 <= n < |SP.Notified(s.log)| && SP.Notified(s.log)[n] == m;
    var order := SP.NotifyOrder(c, s.msgs, SP.HandedOver(s));
    assert (SP.Notified(s.log) + SP.MsgsOf(s.notifying))[n] == m;
    assert order[n] in order;
  }
}
