/**
 * One endpoint: a virtual QP and its virtual CQ, the calls a user and the device make on them, and what
 * every such call keeps.
 */
module Endpoints {
  import opened Verbs
  import opened CompletionQueue
  import opened Ledgers
  import SQ = SendQueue
  import SP = SendProtocol
  import RQ = RecvQueue
  import Seq = SeqTracker

  datatype Endpoint = Endpoint(c: SQ.Config, send: SQ.SendState, recv: RQ.RecvState, cq: CqState)

  /** What the operations need to be defined at all. */
  ghost predicate Ready(e: Endpoint) {
    && e.c.Valid()
    && |e.send.queues| == e.c.numQps && e.send.nextQp < e.c.numQps && SQ.Sendable(e.c, e.send)
    && |e.recv.queues| == e.c.numQps && (e.c.scheme.Spray? ==> RQ.Receivable(e.c, e.recv))
  }

  // ---------------------------------------------------------------- operations

  lemma EnqueueSendable(c: SQ.Config, s: SQ.SendState, wr: SendWr)
    requires SQ.Sendable(c, s) && c.Valid() && SQ.LoopEnds(c, wr)
    ensures SQ.Sendable(c, SQ.Enqueue(c, s, wr))
  {
    SP.ChunkArithmetic(wr.length, c.maxMsgSize, 0);
    var s' := SQ.Enqueue(c, s, wr);
    assert forall v | v in s'.pending :: v in s.pending || v == s'.pending[|s.pending|];
  }

  lemma EnqueueReceivable(c: SQ.Config, r: RQ.RecvState, wr: RecvWr)
    requires RQ.Receivable(c, r) && c.Valid() && RQ.LoopEnds(c, wr)
    ensures RQ.Receivable(c, RQ.Enqueue(c, r, wr))
  {
    SP.ChunkArithmetic(wr.length, c.maxMsgSize, 0);
    var r' := RQ.Enqueue(c, r, wr);
    assert forall v | v in r'.pending :: v in r.pending || v == r'.pending[|r.pending|];
  }

  /** IbvVirtualQp::postSend */
  function PostSend(e: Endpoint, wr: SendWr): Result<Endpoint>
    requires Ready(e) && SQ.LoopEnds(e.c, wr)
  {
    if !SQ.Accepts(wr) then Err(InvalidArgument)
    else
      EnqueueSendable(e.c, e.send, wr);
      Ok(e.(cq := EnqueueSend(e.cq, wr, SQ.Expected(e.c, wr), SQ.NeedsNotify(e.c, wr)),
            send := SQ.MapPending(e.c, SQ.Enqueue(e.c, e.send, wr), |e.recv.log|, -1)))
  }

  /** IbvVirtualQp::postRecv */
  function PostRecv(e: Endpoint, wr: RecvWr): Result<Endpoint>
    requires Ready(e) && (e.c.scheme.Spray? && wr.numSge <= 1 ==> RQ.LoopEnds(e.c, wr))
  {
    if wr.numSge > 1 then Err(InvalidArgument)
    else
      var r := RQ.Enqueue(e.c, e.recv, wr);
      var e1 := e.(cq := EnqueueRecv(e.cq, wr, RQ.Expected(e.c, wr)));
      if e.c.scheme.Spray? then
        EnqueueReceivable(e.c, e.recv, wr);
        Ok(e1.(recv := RQ.MapPending(e.c, r, |e.send.log|, -1)))
      else if !e.recv.ready then Ok(e1.(recv := RQ.Initialize(e.c, r, |e.send.log|)))
      else Ok(e1.(recv := r))
  }

  /** A send completion: the QP refills the freed slot, the CQ counts it, and may ask for the notify. */
  function CompleteSend(e: Endpoint, qp: QpRef, wc: PhysicalWc): Result<Endpoint>
    requires Ready(e) && (qp.Data? ==> qp.i < e.c.numQps)
  {
    var queue := SQ.StatusOf(e.send, qp);
    if queue == [] then Err(StatusQueueEmpty)
    else if queue[0].physicalWrId != wc.wrId then Err(WrIdMismatch)
    else
      var id := queue[0].virtualWrId;
      var s1 := SQ.PopStatus(e.send, qp);
      var s2 := if qp.Data? then SQ.MapPending(e.c, s1, |e.recv.log|, qp.i) else s1;
      if !Live(e.cq, id) then Err(UnknownWrId)
      else
        var cq1 := AbsorbAt(e.cq, id, wc);
        var v := Absorb(Entry(e.cq, id), wc);
        if v.remaining == 1 && v.extraNotify then
          if s2.notifying == [] then Err(NotifyQueueEmpty)
          else if s2.notifying[0].wr.wrId == id then Ok(e.(cq := cq1, send := SQ.PostNotify(s2, |e.recv.log|)))
          else Ok(e.(cq := cq1, send := s2))
        else Ok(e.(cq := cq1, send := s2))
  }

  /** A receive completion: DQPLB reposts and counts notifies, SPRAY completes the virtual receive it served. */
  function CompleteRecv(e: Endpoint, qp: QpRef, wc: PhysicalWc): Result<Endpoint>
    requires Ready(e) && (qp.Data? ==> qp.i < e.c.numQps)
  {
    var queue := RQ.StatusOf(e.recv, qp);
    if queue == [] then Err(StatusQueueEmpty)
    else if queue[0].physicalWrId != wc.wrId then Err(WrIdMismatch)
    else
      var id := queue[0].virtualWrId;
      var r1 := RQ.PopStatus(e.recv, qp);
      if e.c.scheme.Dqplb? then
        var r2 := RQ.PostNotifyRecv(e.c, r1, |e.send.log|, qp);
        var (tracker, count) := Seq.Receive(r2.tracker, wc.imm);
        Ok(e.(recv := r2.(tracker := tracker), cq := e.cq.(recvs := MarkNotified(e.cq.recvs, count))))
      else
        var r2 := if qp.Data? then RQ.MapPending(e.c, r1, |e.send.log|, qp.i) else r1;
        if !Live(e.cq, id) then Err(UnknownWrId)
        else Ok(e.(recv := r2, cq := AbsorbAt(e.cq, id, wc)))
  }

  /** The immediate the poll loop passes on: a plain receive has none. */
  function RequestImm(wc: PhysicalWc): nat { if wc.opcode.WcRecvRdmaWithImm? then wc.imm else 0 }

  /** What the virtual QP gets to see of a receive completion. */
  function Passed(c: SQ.Config, wc: PhysicalWc): PhysicalWc {
    if c.scheme.Dqplb? then wc.(imm := RequestImm(wc)) else wc
  }

  /** One completion: receives by their two opcodes, anything else is a send. */
  function Dispatch(e: Endpoint, qp: QpRef, wc: PhysicalWc): Result<Endpoint>
    requires Ready(e) && (qp.Data? ==> qp.i < e.c.numQps)
  {
    if wc.opcode.WcSendSide? then CompleteSend(e, qp, wc)
    else CompleteRecv(e, qp, Passed(e.c, wc))
  }

  // ---------------------------------------------------------------- the work request id index

  ghost function SendWcs(cq: CqState): seq<VirtualWc> { cq.sendsOut + cq.sends }

  ghost function RecvWcs(cq: CqState): seq<VirtualWc> { cq.recvsOut + cq.recvs }

  /** `index` points at every queued completion and at nothing else; the queued ones are those past `out`. */
  ghost predicate IndexOk(index: map<int, WcRef>, sends: seq<VirtualWc>, sendsOut: nat, recvs: seq<VirtualWc>, recvsOut: nat) {
    && (forall n: nat | sendsOut <= n < |sends| :: sends[n].wrId in index && index[sends[n].wrId] == SendRef(n))
    && (forall n: nat | recvsOut <= n < |recvs| :: recvs[n].wrId in index && index[recvs[n].wrId] == RecvRef(n))
    && (forall id | id in index ::
          match index[id]
          case SendRef(n) => sendsOut <= n < |sends| && sends[n].wrId == id
          case RecvRef(n) => recvsOut <= n < |recvs| && recvs[n].wrId == id
          case NullRef => false)
  }

  ghost predicate IndexInv(cq: CqState) {
    IndexOk(cq.index, SendWcs(cq), |cq.sendsOut|, RecvWcs(cq), |cq.recvsOut|)
  }

  /** Looking up the id of a queued send finds that send. */
  lemma FindSend(cq: CqState, n: nat, p: PhysicalWc)
    requires IndexInv(cq) && |cq.sendsOut| <= n < |SendWcs(cq)|
    ensures var w := SendWcs(cq)[n];
            && Live(cq, w.wrId) && Entry(cq, w.wrId) == w
            && SendWcs(AbsorbAt(cq, w.wrId, p)) == SendWcs(cq)[n := Absorb(w, p)]
            && AbsorbAt(cq, w.wrId, p).(sends := cq.sends) == cq
  {
  }

  lemma FindRecv(cq: CqState, n: nat, p: PhysicalWc)
    requires IndexInv(cq) && |cq.recvsOut| <= n < |RecvWcs(cq)|
    ensures var w := RecvWcs(cq)[n];
            && Live(cq, w.wrId) && Entry(cq, w.wrId) == w
            && RecvWcs(AbsorbAt(cq, w.wrId, p)) == RecvWcs(cq)[n := Absorb(w, p)]
            && AbsorbAt(cq, w.wrId, p).(recvs := cq.recvs) == cq
  {
  }

  lemma IndexSame(index: map<int, WcRef>, sends: seq<VirtualWc>, sends': seq<VirtualWc>, so: nat,
                  recvs: seq<VirtualWc>, recvs': seq<VirtualWc>, ro: nat)
    requires IndexOk(index, sends, so, recvs, ro) && |sends'| == |sends| && |recvs'| == |recvs|
    requires forall n: nat | n < |sends| :: sends'[n].wrId == sends[n].wrId
    requires forall n: nat | n < |recvs| :: recvs'[n].wrId == recvs[n].wrId
    ensures IndexOk(index, sends', so, recvs', ro)
  {
  }

  lemma IndexEnqueueSend(cq: CqState, wr: SendWr, expected: nat, extraNotify: bool)
    requires IndexInv(cq) && wr.signaled && wr.wrId !in cq.index
    ensures IndexInv(EnqueueSend(cq, wr, expected, extraNotify))
    ensures SendWcs(EnqueueSend(cq, wr, expected, extraNotify)) == SendWcs(cq) + [FreshWc(wr.wrId, expected, extraNotify)]
  {
    assert SendWcs(EnqueueSend(cq, wr, expected, extraNotify)) == SendWcs(cq) + [FreshWc(wr.wrId, expected, extraNotify)];
  }

  lemma IndexEnqueueRecv(cq: CqState, wr: RecvWr, expected: nat)
    requires IndexInv(cq) && wr.wrId !in cq.index
    ensures IndexInv(EnqueueRecv(cq, wr, expected))
    ensures RecvWcs(EnqueueRecv(cq, wr, expected)) == RecvWcs(cq) + [FreshWc(wr.wrId, expected, false)]
  {
    assert RecvWcs(EnqueueRecv(cq, wr, expected)) == RecvWcs(cq) + [FreshWc(wr.wrId, expected, false)];
  }

  lemma IndexPoll(cq: CqState, cq': CqState, a: nat, b: nat)
    requires IndexInv(cq) && HandedOut(cq, cq', a, b)
    ensures IndexInv(cq') && SendWcs(cq') == SendWcs(cq) && RecvWcs(cq') == RecvWcs(cq)
  {
    assert SendWcs(cq') == SendWcs(cq);
    assert RecvWcs(cq') == RecvWcs(cq);
    var gone := Ids(cq.sends[..a]) + Ids(cq.recvs[..b]);
    forall id
      ensures id in gone <==>
        ((exists n: nat :: |cq.sendsOut| <= n < |cq'.sendsOut| && SendWcs(cq)[n].wrId == id)
         || (exists n: nat :: |cq.recvsOut| <= n < |cq'.recvsOut| && RecvWcs(cq)[n].wrId == id))
    {
      if id in Ids(cq.sends[..a]) {
        var i :| 0 <= i < a && cq.sends[..a][i].wrId == id;
        assert SendWcs(cq)[|cq.sendsOut| + i].wrId == id;
      } else if id in Ids(cq.recvs[..b]) {
        var i :| 0 <= i < b && cq.recvs[..b][i].wrId == id;
        assert RecvWcs(cq)[|cq.recvsOut| + i].wrId == id;
      }
      forall n: nat | |cq.sendsOut| <= n < |cq'.sendsOut| && SendWcs(cq)[n].wrId == id ensures id in gone {
        assert cq.sends[..a][n - |cq.sendsOut|].wrId == id;
      }
      forall n: nat | |cq.recvsOut| <= n < |cq'.recvsOut| && RecvWcs(cq)[n].wrId == id ensures id in gone {
        assert cq.recvs[..b][n - |cq.recvsOut|].wrId == id;
      }
    }
    assert cq'.index == cq.index - gone;
  }

  // ---------------------------------------------------------------- invariant of an endpoint

  /** What the device has done so far, and what became of the notifies. */
  datatype History = History(
    sendDone: set<nat>, sendComps: seq<Completion>,
    recvDone: set<nat>, recvComps: seq<Completion>,
    notified: nat,        // DQPLB: notifies reported by the tracker so far
    dropped: nat,         // DQPLB: notifies for which no unfinished receive was posted
    ignored: set<nat>)    // SPRAY: messages whose request for a notify was ignored

  /** Virtual receives finish in post order. */
  ghost predicate FinishedFirst(wcs: seq<VirtualWc>, finished: nat) {
    finished <= |wcs| && forall k: nat | k < |wcs| :: wcs[k].remaining == if k < finished then 0 else 1
  }

  /** A DQPLB receive takes nothing over from the physical completions. */
  ghost predicate UntouchedWc(w: VirtualWc, wrId: nat) { w.wrId == wrId && w.status == Success && w.byteLen == 0 && w.imm == 0 }

  ghost predicate DqplbRecvs(e: Endpoint, h: History) {
    && RQ.DqplbInv(e.c, e.recv, h.recvDone) && (e.recv.ready <==> e.recv.wrs != [])
    && |RecvWcs(e.cq)| == |e.recv.wrs|
    && (forall m: nat | m < |e.recv.wrs| :: e.recv.wrs[m].numSge == 0 && UntouchedWc(RecvWcs(e.cq)[m], e.recv.wrs[m].wrId))
    && h.dropped <= h.notified && FinishedFirst(RecvWcs(e.cq), h.notified - h.dropped)
    && |e.cq.recvsOut| <= h.notified - h.dropped
  }

  ghost predicate RecvInv(e: Endpoint, h: History) {
    if e.c.scheme.Spray? then RQ.SprayInv(e.c, e.recv, RecvWcs(e.cq), |e.cq.recvsOut|, h.recvDone, h.recvComps)
    else DqplbRecvs(e, h)
  }

  ghost predicate SendInv(e: Endpoint, h: History) {
    SP.SendInv(e.c, e.send, SendWcs(e.cq), |e.cq.sendsOut|, h.sendDone, h.sendComps)
  }

  ghost predicate Inv(e: Endpoint, h: History) {
    SendInv(e, h) && RecvInv(e, h) && IndexInv(e.cq)
  }

  lemma InvReady(e: Endpoint, h: History)
    requires Inv(e, h)
    ensures Ready(e)
  {
    SP.PostingSendable(e.c, e.send);
    if e.c.scheme.Spray? { RQ.PostingReceivable(e.c, e.recv); }
  }

  ghost function Idle(c: SQ.Config): Endpoint {
    var empty := seq(c.numQps, i => []);
    Endpoint(c, SQ.SendState([], [], empty, [], 0, 0, [], []),
             RQ.RecvState([], empty, [], Seq.Receiver(0, map[]), false, [], []),
             CqState([], [], [], [], map[]))
  }

  ghost const NO_HISTORY := History({}, [], {}, [], 0, 0, {})

  lemma IdleInv(c: SQ.Config)
    requires c.Valid()
    ensures Inv(Idle(c), NO_HISTORY)
  {
  }

  // ---------------------------------------------------------------- every operation keeps it

  /** The sending half alone. */
  lemma PostSendSends(e: Endpoint, h: History, wr: SendWr)
    requires SendInv(e, h) && Ready(e) && SP.ValidMsg(wr)
    ensures var e' := PostSend(e, wr).value;
            SendInv(e', h) && SendWcs(e'.cq) == SendWcs(e.cq) + [SP.InitialWc(e.c, wr)]
  {
    var e' := PostSend(e, wr).value;
    var s1 := SQ.Enqueue(e.c, e.send, wr);
    var wcs1 := SendWcs(e.cq) + [SP.InitialWc(e.c, wr)];
    SP.EnqueueInv(e.c, e.send, wr, SendWcs(e.cq), |e.cq.sendsOut|, h.sendDone, h.sendComps);
    EnqueueSendable(e.c, e.send, wr);
    SP.MapPendingInv(e.c, s1, |e.recv.log|, -1, wcs1, |e.cq.sendsOut|, h.sendDone, h.sendComps);
    assert SendWcs(e'.cq) == wcs1;
  }

  lemma PostSendInv(e: Endpoint, h: History, wr: SendWr)
    requires Inv(e, h) && SP.ValidMsg(wr) && wr.wrId !in e.cq.index
    ensures Ready(e) && PostSend(e, wr).Ok? && Inv(PostSend(e, wr).value, h)
    ensures SendWcs(PostSend(e, wr).value.cq) == SendWcs(e.cq) + [SP.InitialWc(e.c, wr)]
  {
    InvReady(e, h);
    PostSendSends(e, h, wr);
    IndexEnqueueSend(e.cq, wr, SQ.Expected(e.c, wr), SQ.NeedsNotify(e.c, wr));
    RecvFrame(e, PostSend(e, wr).value, h, h);
  }

  predicate ValidRecv(c: SQ.Config, wr: RecvWr) { RQ.ValidRecv(wr) && (c.scheme.Dqplb? ==> wr.numSge == 0) }

  lemma PostRecvInv(e: Endpoint, h: History, wr: RecvWr)
    requires Inv(e, h) && ValidRecv(e.c, wr) && wr.wrId !in e.cq.index
    ensures Ready(e) && PostRecv(e, wr).Ok? && Inv(PostRecv(e, wr).value, h)
  {
    InvReady(e, h);
    var e' := PostRecv(e, wr).value;
    assert e'.cq == EnqueueRecv(e.cq, wr, RQ.Expected(e.c, wr));
    IndexEnqueueRecv(e.cq, wr, RQ.Expected(e.c, wr));
    assert SendWcs(e'.cq) == SendWcs(e.cq);
    if e.c.scheme.Spray? { PostRecvSpray(e, h, wr); } else { PostRecvDqplb(e, h, wr); }
  }

  lemma PostRecvSpray(e: Endpoint, h: History, wr: RecvWr)
    requires Ready(e) && RecvInv(e, h) && e.c.scheme.Spray? && ValidRecv(e.c, wr)
    ensures PostRecv(e, wr).Ok? && RecvInv(PostRecv(e, wr).value, h)
  {
    var wcs1 := RecvWcs(e.cq) + [RQ.InitialWc(e.c, wr)];
    assert RecvWcs(PostRecv(e, wr).value.cq) == wcs1;
    RQ.EnqueueInv(e.c, e.recv, wr, RecvWcs(e.cq), |e.cq.recvsOut|, h.recvDone, h.recvComps);
    EnqueueReceivable(e.c, e.recv, wr);
    RQ.MapPendingInv(e.c, RQ.Enqueue(e.c, e.recv, wr), |e.send.log|, -1, wcs1, |e.cq.recvsOut|, h.recvDone, h.recvComps);
  }

  lemma PostRecvDqplb(e: Endpoint, h: History, wr: RecvWr)
    requires Ready(e) && RecvInv(e, h) && e.c.scheme.Dqplb? && ValidRecv(e.c, wr)
    ensures PostRecv(e, wr).Ok? && RecvInv(PostRecv(e, wr).value, h)
  {
    QueuedAfter(e.cq, wr, RQ.Expected(e.c, wr), h.notified - h.dropped);
    EnqueueDqplb(e.c, e.recv, wr, |e.send.log|, h.recvDone);
  }

  lemma EnqueueDqplb(c: SQ.Config, r: RQ.RecvState, wr: RecvWr, base: nat, done: set<nat>)
    requires RQ.DqplbInv(c, r, done)
    ensures var r1 := RQ.Enqueue(c, r, wr);
            && RQ.DqplbInv(c, r1, done)
            && (!r.ready ==>
                  var r2 := RQ.Initialize(c, r1, base);
                  RQ.DqplbInv(c, r2, done) && r2.ready && r2.wrs == r1.wrs)
  {
    var r1 := RQ.Enqueue(c, r, wr);
    assert RQ.DqplbInv(c, r1, done);
    if !r.ready {
      RQ.InitializeInv(c, r1, base, done);
      RQ.InitRoundsAdd(c, r1, base, c.limit, done);
    }
  }

  /** A receive queued behind the others has still to be finished. */
  lemma QueuedAfter(cq: CqState, wr: RecvWr, expected: nat, finished: nat)
    requires FinishedFirst(RecvWcs(cq), finished) && expected == 1
    ensures var wcs := RecvWcs(EnqueueRecv(cq, wr, expected));
            wcs == RecvWcs(cq) + [FreshWc(wr.wrId, expected, false)] && FinishedFirst(wcs, finished)
  {
    assert RecvWcs(EnqueueRecv(cq, wr, expected)) == RecvWcs(cq) + [FreshWc(wr.wrId, expected, false)];
  }

  lemma PollKeeps(e: Endpoint, h: History, n: nat)
    requires Inv(e, h)
    ensures Inv(e.(cq := Poll(e.cq, n).0), h)
  {
    var cq' := Poll(e.cq, n).0;
    var a, b := PollLoopFifo(Polling(e.cq, [], true, true), n);
    IndexPoll(e.cq, cq', a, b);
    SP.PollInv(e.c, e.send, SendWcs(e.cq), |e.cq.sendsOut|, |cq'.sendsOut|, h.sendDone, h.sendComps);
    PollKeepsRecvs(e, h, cq', a, b);
  }

  lemma PollKeepsRecvs(e: Endpoint, h: History, cq': CqState, a: nat, b: nat)
    requires RecvInv(e, h) && HandedOut(e.cq, cq', a, b) && RecvWcs(cq') == RecvWcs(e.cq)
    ensures RecvInv(e.(cq := cq'), h)
  {
    if e.c.scheme.Spray? {
      RQ.PollInv(e.c, e.recv, RecvWcs(e.cq), |e.cq.recvsOut|, |cq'.recvsOut|, h.recvDone, h.recvComps);
    } else {
      assert b > 0 ==> RecvWcs(e.cq)[|cq'.recvsOut| - 1].remaining <= 0;
    }
  }

  /** The device reports the completion of post i of the send log. */
  ghost predicate ReportsSend(e: Endpoint, h: History, i: nat, p: PhysicalWc) {
    Oldest(e.send.log, h.sendDone, i) && p.wrId == e.send.log[i].status.physicalWrId
  }

  /** The state between counting a send completion and asking for a notify. */
  ghost function Counted(e: Endpoint, qp: QpRef, p: PhysicalWc): Endpoint
    requires Ready(e) && (qp.Data? ==> qp.i < e.c.numQps) && SQ.StatusOf(e.send, qp) != []
    requires Live(e.cq, SQ.StatusOf(e.send, qp)[0].virtualWrId)
  {
    var s1 := SQ.PopStatus(e.send, qp);
    e.(send := if qp.Data? then SQ.MapPending(e.c, s1, |e.recv.log|, qp.i) else s1,
       cq := AbsorbAt(e.cq, SQ.StatusOf(e.send, qp)[0].virtualWrId, p))
  }

  ghost function AfterSend(e: Endpoint, h: History, i: nat, p: PhysicalWc): History
    requires i < |e.send.log|
  {
    h.(sendDone := h.sendDone + {i}, sendComps := h.sendComps + [Completion(e.send.log[i].msg, p)])
  }

  lemma {:induction false} MapPendingNotified(c: SQ.Config, s: SQ.SendState, base: nat, hint: int)
    requires SQ.Sendable(c, s) && c.Valid() && |s.queues| == c.numQps && s.nextQp < c.numQps && -1 <= hint < c.numQps
    ensures SP.Notified(SQ.MapPending(c, s, base, hint).log) == SP.Notified(s.log)
    decreases |s.pending|, SQ.FrontLeft(s), SQ.Slots(c, s.queues, hint)
  {
    if s.pending != [] {
      var (q, next, hint') := SQ.ChooseQp(c, s, hint);
      if q != -1 {
        var s1 := s.(nextQp := next);
        assert s.pending[0] in s.pending;
        SQ.PostChunkSendable(c, s1, base, q);
        var s2 := SQ.PostChunk(c, s1, base, q);
        assert s2.log == s.log + [s2.log[|s.log|]];
        SP.NotifiedAppend(s.log, s2.log[|s.log|]);
        MapPendingNotified(c, s2, base, hint');
      }
    }
  }

  lemma ReportedSend(e: Endpoint, h: History, i: nat, p: PhysicalWc)
    requires Inv(e, h) && ReportsSend(e, h, i, p)
    ensures var qp, m := e.send.log[i].qp, e.send.log[i].msg;
            && Ready(e) && (qp.Data? ==> qp.i < e.c.numQps) && SQ.StatusOf(e.send, qp) != []
            && SQ.StatusOf(e.send, qp)[0] == e.send.log[i].status
            && |e.cq.sendsOut| <= m < |SendWcs(e.cq)| && SendWcs(e.cq)[m].wrId == e.send.log[i].status.virtualWrId
            && Live(e.cq, SendWcs(e.cq)[m].wrId) && Entry(e.cq, SendWcs(e.cq)[m].wrId) == SendWcs(e.cq)[m]
  {
    InvReady(e, h);
    SP.CompletePost(e.c, e.send, SendWcs(e.cq), |e.cq.sendsOut|, h.sendDone, h.sendComps, i, p);
    FindSend(e.cq, e.send.log[i].msg, p);
  }

  lemma CountedInv(e: Endpoint, h: History, i: nat, p: PhysicalWc)
    requires Inv(e, h) && ReportsSend(e, h, i, p)
    ensures var qp, m := e.send.log[i].qp, e.send.log[i].msg;
            && Ready(e) && (qp.Data? ==> qp.i < e.c.numQps) && SQ.StatusOf(e.send, qp) != []
            && SQ.StatusOf(e.send, qp)[0] == e.send.log[i].status
            && |e.cq.sendsOut| <= m < |SendWcs(e.cq)| && SendWcs(e.cq)[m].wrId == e.send.log[i].status.virtualWrId
            && Live(e.cq, SendWcs(e.cq)[m].wrId) && Entry(e.cq, SendWcs(e.cq)[m].wrId) == SendWcs(e.cq)[m]
            && Inv(Counted(e, qp, p), AfterSend(e, h, i, p))
            && SendWcs(Counted(e, qp, p).cq) == SendWcs(e.cq)[m := Absorb(SendWcs(e.cq)[m], p)]
            && SP.Notified(Counted(e, qp, p).send.log) == SP.Notified(e.send.log)
  {
    ReportedSend(e, h, i, p);
    var qp, m := e.send.log[i].qp, e.send.log[i].msg;
    var h' := AfterSend(e, h, i, p);
    var s1 := SQ.PopStatus(e.send, qp);
    var cq1 := AbsorbAt(e.cq, SendWcs(e.cq)[m].wrId, p);
    FindSend(e.cq, m, p);
    SP.CompletePost(e.c, e.send, SendWcs(e.cq), |e.cq.sendsOut|, h.sendDone, h.sendComps, i, p);
    assert SP.SendInv(e.c, s1, SendWcs(cq1), |e.cq.sendsOut|, h'.sendDone, h'.sendComps);
    if qp.Data? {
      SP.PostingSendable(e.c, s1);
      SP.MapPendingInv(e.c, s1, |e.recv.log|, qp.i, SendWcs(cq1), |e.cq.sendsOut|, h'.sendDone, h'.sendComps);
      MapPendingNotified(e.c, s1, |e.recv.log|, qp.i);
    }
    IndexSame(e.cq.index, SendWcs(e.cq), SendWcs(cq1), |e.cq.sendsOut|, RecvWcs(e.cq), RecvWcs(cq1), |e.cq.recvsOut|);
    RecvFrame(e, Counted(e, qp, p), h, h');
  }

  /** Nothing on the receive side changed. */
  lemma RecvFrame(e: Endpoint, e': Endpoint, h: History, h': History)
    requires RecvInv(e, h) && e'.c == e.c && e'.recv == e.recv && e'.cq.recvs == e.cq.recvs && e'.cq.recvsOut == e.cq.recvsOut
    requires h' == h.(sendDone := h'.sendDone, sendComps := h'.sendComps)
    ensures RecvInv(e', h')
  {
  }

  /**
   * The completion of post i makes its QP's message ask for a notify exactly when it leaves one post
   * missing; it is then served if the message is the first of those waiting.
   */
  ghost predicate AsksNotify(e: Endpoint, i: nat, p: PhysicalWc)
    requires i < |e.send.log| && e.send.log[i].msg < |SendWcs(e.cq)|
  {
    var v := Absorb(SendWcs(e.cq)[e.send.log[i].msg], p);
    v.remaining == 1 && v.extraNotify
  }

  lemma AskedMessageWaits(e: Endpoint, h: History, i: nat, p: PhysicalWc)
    requires Inv(e, h) && ReportsSend(e, h, i, p) && e.send.log[i].msg < |SendWcs(e.cq)| && AsksNotify(e, i, p)
    ensures var qp, m := e.send.log[i].qp, e.send.log[i].msg;
            && qp.Data? && Ready(e) && qp.i < e.c.numQps && SQ.StatusOf(e.send, qp) != []
            && Live(e.cq, SQ.StatusOf(e.send, qp)[0].virtualWrId)
            && var s2 := Counted(e, qp, p).send;
               && m in SP.MsgsOf(s2.notifying)
               && forall j: nat | j < |s2.log| && s2.log[j].msg == m :: j in h.sendDone + {i}
  {
    var qp, m := e.send.log[i].qp, e.send.log[i].msg;
    CountedInv(e, h, i, p);
    var e1, h' := Counted(e, qp, p), AfterSend(e, h, i, p);
    var s1 := SQ.PopStatus(e.send, qp);
    SP.CompletePost(e.c, e.send, SendWcs(e.cq), |e.cq.sendsOut|, h.sendDone, h.sendComps, i, p);
    if qp.Notify? {
      SP.NotifyCompletesMessage(e.c, s1, SendWcs(e1.cq), |e.cq.sendsOut|, h'.sendDone, h'.sendComps, i);
      assert false;
    }
    assert m !in SP.Notified(e.send.log) by {
      SP.NotifiedIn(e.send.log, m);
    }
    SP.ReadyToNotify(e.c, e1.send, SendWcs(e1.cq), |e1.cq.sendsOut|, h'.sendDone, h'.sendComps, m);
  }

  /** Ids of queued sends are distinct. */
  lemma SameIdSameMessage(cq: CqState, a: nat, b: nat)
    requires IndexInv(cq) && |cq.sendsOut| <= a < |SendWcs(cq)| && |cq.sendsOut| <= b < |SendWcs(cq)|
    requires SendWcs(cq)[a].wrId == SendWcs(cq)[b].wrId
    ensures a == b
  {
  }

  /** A message waiting for its notify has not been returned, and its completion carries its id. */
  lemma WaitingIsLive(e: Endpoint, h: History, v: SQ.VirtualSendWr)
    requires Inv(e, h) && v in e.send.notifying
    ensures |e.cq.sendsOut| <= v.msg < |SendWcs(e.cq)| && SendWcs(e.cq)[v.msg].wrId == v.wr.wrId
    ensures SendWcs(e.cq)[v.msg].remaining >= 1
  {
    var l := SP.SendLedger(e.c, e.send, SendWcs(e.cq), |e.cq.sendsOut|, h.sendDone, h.sendComps);
    assert SP.NotifyingOk(e.send, v);
    Remaining(l, v.msg);
    assert SP.HandedOverOk(e.c, e.send, v.msg);
    var i :| 0 <= i < |e.send.notifying| && e.send.notifying[i] == v;
    var order := SP.NotifyOrder(e.c, e.send.msgs, SP.HandedOver(e.send));
    var n := |SP.Notified(e.send.log)|;
    SP.NotifyOrderIn(e.c, e.send.msgs, SP.HandedOver(e.send));
    assert SP.MsgsOf(e.send.notifying)[i] == v.msg;
    assert order[n + i] == v.msg;
    assert forall k | 0 <= k < n :: order[k] == SP.Notified(e.send.log)[k] && order[k] < order[n + i];
    CountDoneBound(e.send.log, h.sendDone, v.msg);
  }

  lemma CompleteSendInv(e: Endpoint, h: History, i: nat, p: PhysicalWc)
    requires Inv(e, h) && ReportsSend(e, h, i, p)
    ensures Ready(e) && (e.send.log[i].qp.Data? ==> e.send.log[i].qp.i < e.c.numQps)
    ensures var r := CompleteSend(e, e.send.log[i].qp, p);
            r.Ok? && Inv(r.value, AfterSend(e, h, i, p))
  {
    var qp, m := e.send.log[i].qp, e.send.log[i].msg;
    CountedInv(e, h, i, p);
    var e1, h' := Counted(e, qp, p), AfterSend(e, h, i, p);
    if AsksNotify(e, i, p) {
      AskedMessageWaits(e, h, i, p);
      assert e1.send.notifying != [];
      var first := e1.send.notifying[0];
      WaitingIsLive(e1, h', first);
      if first.wr.wrId == SendWcs(e1.cq)[m].wrId {
        SameIdSameMessage(e1.cq, first.msg, m);
        SP.PostNotifyInv(e.c, e1.send, |e.recv.log|, SendWcs(e1.cq), |e1.cq.sendsOut|, h'.sendDone, h'.sendComps);
      }
    }
  }

  // ---------------------------------------------------------------- receive completions

  ghost predicate ReportsRecv(e: Endpoint, h: History, i: nat, p: PhysicalWc) {
    Oldest(e.recv.log, h.recvDone, i) && p.wrId == e.recv.log[i].status.physicalWrId
  }

  /** How many notifies the tracker reports for this completion. */
  ghost function Notifies(e: Endpoint, p: PhysicalWc): nat {
    if e.c.scheme.Dqplb? then Seq.Receive(e.recv.tracker, p.imm).1 else 0
  }

  ghost function AfterRecv(e: Endpoint, h: History, i: nat, p: PhysicalWc): History
    requires i < |e.recv.log|
  {
    var h1 := h.(recvDone := h.recvDone + {i}, recvComps := h.recvComps + [Completion(e.recv.log[i].msg, p)]);
    var unfinished := |RecvWcs(e.cq)| - (h.notified - h.dropped);
    h1.(notified := h.notified + Notifies(e, p),
        dropped := h.dropped + if Notifies(e, p) > unfinished >= 0 then Notifies(e, p) - unfinished else 0)
  }

  /** Marking finishes the next receives in post order, as many as were notified or are left. */
  lemma {:induction false} MarkNotifiedFirst(recvs: seq<VirtualWc>, finished: nat, count: nat)
    requires FinishedFirst(recvs, finished)
    ensures var r := MarkNotified(recvs, count);
            && |r| == |recvs| && (forall k: nat | k < |r| :: r[k] == recvs[k].(remaining := r[k].remaining))
            && FinishedFirst(r, finished + Min(count, |recvs| - finished))
  {
    if recvs != [] && count != 0 {
      if recvs[0].remaining != 0 {
        assert finished == 0;
        MarkNotifiedFirst(recvs[1..], 0, count - 1);
      } else {
        assert finished > 0;
        MarkNotifiedFirst(recvs[1..], finished - 1, count);
      }
    }
  }

  lemma SendFrame(e: Endpoint, e': Endpoint, h: History, h': History)
    requires SendInv(e, h) && e'.c == e.c && e'.send == e.send && e'.cq.sends == e.cq.sends && e'.cq.sendsOut == e.cq.sendsOut
    requires h'.sendDone == h.sendDone && h'.sendComps == h.sendComps
    ensures SendInv(e', h')
  {
  }

  lemma CompleteRecvSpray(e: Endpoint, h: History, i: nat, p: PhysicalWc)
    requires Inv(e, h) && ReportsRecv(e, h, i, p) && e.c.scheme.Spray?
    ensures Ready(e) && (e.recv.log[i].qp.Data? ==> e.recv.log[i].qp.i < e.c.numQps)
    ensures var r, m := CompleteRecv(e, e.recv.log[i].qp, p), e.recv.log[i].msg;
            && r.Ok? && Inv(r.value, AfterRecv(e, h, i, p))
            && m < |RecvWcs(e.cq)| && RecvWcs(r.value.cq) == RecvWcs(e.cq)[m := Absorb(RecvWcs(e.cq)[m], p)]
            && r.value.send == e.send && r.value.cq.recvsOut == e.cq.recvsOut && SendWcs(r.value.cq) == SendWcs(e.cq)
  {
    InvReady(e, h);
    var qp, m := e.recv.log[i].qp, e.recv.log[i].msg;
    var h' := AfterRecv(e, h, i, p);
    RQ.CompletePost(e.c, e.recv, RecvWcs(e.cq), |e.cq.recvsOut|, h.recvDone, h.recvComps, i, p);
    var r1 := RQ.PopStatus(e.recv, qp);
    FindRecv(e.cq, m, p);
    var cq1 := AbsorbAt(e.cq, RecvWcs(e.cq)[m].wrId, p);
    assert RQ.SprayInv(e.c, r1, RecvWcs(cq1), |e.cq.recvsOut|, h'.recvDone, h'.recvComps);
    if qp.Data? {
      RQ.PostingReceivable(e.c, r1);
      RQ.MapPendingInv(e.c, r1, |e.send.log|, qp.i, RecvWcs(cq1), |e.cq.recvsOut|, h'.recvDone, h'.recvComps);
    }
    IndexSame(e.cq.index, SendWcs(e.cq), SendWcs(cq1), |e.cq.sendsOut|, RecvWcs(e.cq), RecvWcs(cq1), |e.cq.recvsOut|);
    SendFrame(e, CompleteRecv(e, qp, p).value, h, h');
  }

  lemma CompleteRecvDqplb(e: Endpoint, h: History, i: nat, p: PhysicalWc)
    requires Inv(e, h) && ReportsRecv(e, h, i, p) && e.c.scheme.Dqplb?
    ensures Ready(e) && e.recv.log[i].qp.Data? && e.recv.log[i].qp.i < e.c.numQps
    ensures var r := CompleteRecv(e, e.recv.log[i].qp, p);
            && r.Ok? && Inv(r.value, AfterRecv(e, h, i, p))
            && r.value.send == e.send && r.value.recv.tracker == Seq.Receive(e.recv.tracker, p.imm).0
            && r.value.recv.wrs == e.recv.wrs && r.value.cq.recvsOut == e.cq.recvsOut && SendWcs(r.value.cq) == SendWcs(e.cq)
  {
    InvReady(e, h);
    var qp := e.recv.log[i].qp;
    var h' := AfterRecv(e, h, i, p);
    RQ.DqplbCompletePost(e.c, e.recv, |e.send.log|, h.recvDone, i);
    var e' := CompleteRecv(e, qp, p).value;
    var f, count := h.notified - h.dropped, Notifies(e, p);
    assert e'.cq == e.cq.(recvs := MarkNotified(e.cq.recvs, count));
    MarkedWcs(e.cq, f, count);
    assert h'.notified - h'.dropped == f + Min(count, |RecvWcs(e.cq)| - f);
    IndexSame(e.cq.index, SendWcs(e.cq), SendWcs(e'.cq), |e.cq.sendsOut|, RecvWcs(e.cq), RecvWcs(e'.cq), |e.cq.recvsOut|);
    SendFrame(e, e', h, h');
    DqplbTrackerFrame(e.c, RQ.PostNotifyRecv(e.c, RQ.PopStatus(e.recv, qp), |e.send.log|, qp), e'.recv.tracker, h'.recvDone);
  }

  lemma DqplbTrackerFrame(c: SQ.Config, r: RQ.RecvState, tracker: Seq.Receiver, done: set<nat>)
    requires RQ.DqplbInv(c, r, done)
    ensures RQ.DqplbInv(c, r.(tracker := tracker), done)
  {
  }

  /** Marking in the queue marks in the whole history of receives. */
  lemma MarkedWcs(cq: CqState, finished: nat, count: nat)
    requires FinishedFirst(RecvWcs(cq), finished) && |cq.recvsOut| <= finished
    ensures var cq' := cq.(recvs := MarkNotified(cq.recvs, count));
            && |RecvWcs(cq')| == |RecvWcs(cq)|
            && (forall k: nat | k < |RecvWcs(cq)| :: RecvWcs(cq')[k] == RecvWcs(cq)[k].(remaining := RecvWcs(cq')[k].remaining))
            && FinishedFirst(RecvWcs(cq'), finished + Min(count, |RecvWcs(cq)| - finished))
  {
    var cq' := cq.(recvs := MarkNotified(cq.recvs, count));
    var out := |cq.recvsOut|;
    assert forall k: nat | k < |cq.recvs| :: cq.recvs[k] == RecvWcs(cq)[out + k];
    MarkNotifiedFirst(cq.recvs, finished - out, count);
    forall k: nat | k < |RecvWcs(cq)|
      ensures RecvWcs(cq')[k] == RecvWcs(cq)[k].(remaining := RecvWcs(cq')[k].remaining)
      ensures RecvWcs(cq')[k].remaining == if k < finished + Min(count, |RecvWcs(cq)| - finished) then 0 else 1
    {
      if k >= out {
        assert RecvWcs(cq')[k] == cq'.recvs[k - out];
        assert RecvWcs(cq)[k] == cq.recvs[k - out];
      } else {
        assert RecvWcs(cq')[k] == RecvWcs(cq)[k];
      }
    }
  }
}
