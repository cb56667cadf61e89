/**
 * The public calls, which reach from the virtual QP to the virtual CQ and back through the coordinator, and
 * the tie between the objects and the endpoint whose properties the protocol modules prove.
 */
module Ibverbx {
  import opened Verbs
  import opened Endpoints
  import opened VirtualCq
  import opened VirtualQp
  import CQ = CompletionQueue
  import SQ = SendQueue
  import RQ = RecvQueue

  /** virtualQpNum_ is never assigned, so every virtual QP of a coordinator has this number. */
  const VIRTUAL_QP_NUM: nat := 0

  /** A completion as the physical CQ reports it: the QP it came from, and the rest. */
  datatype CqEvent = CqEvent(qpNum: nat, wc: PhysicalWc)

  lemma DispatchReady(e: Endpoint, qp: QpRef, wc: PhysicalWc)
    requires Ready(e) && (qp.Data? ==> qp.i < e.c.numQps)
    ensures Dispatch(e, qp, wc).Ok? ==> Ready(Dispatch(e, qp, wc).value) && Dispatch(e, qp, wc).value.c == e.c
  {
  }

  ghost predicate OnQps(e: Endpoint, completions: seq<(QpRef, PhysicalWc)>) {
    forall i | 0 <= i < |completions| :: completions[i].0.Data? ==> completions[i].0.i < e.c.numQps
  }

  /** All completions in turn, stopping at the first error. */
  ghost function CompleteAll(e: Endpoint, completions: seq<(QpRef, PhysicalWc)>): Result<Endpoint>
    requires Ready(e) && OnQps(e, completions)
    decreases |completions|
  {
    if completions == [] then Ok(e)
    else
      DispatchReady(e, completions[0].0, completions[0].1);
      match Dispatch(e, completions[0].0, completions[0].1)
      case Err(error) => Err(error)
      case Ok(next) => CompleteAll(next, completions[1..])
  }

  /** What the two objects together stand for. */
  ghost function View(qp: IbvVirtualQp, cq: IbvVirtualCq): Endpoint
    reads qp, cq
  {
    Endpoint(qp.Config(), qp.send, qp.recv, cq.view)
  }

  /** Success or failure as the value-level operation says, and on success its state. */
  ghost predicate Follows<T>(r: Result<T>, spec: Result<Endpoint>, now: Endpoint) {
    if spec.Err? then r == Err(spec.error) else r.Ok? && now == spec.value
  }

  /** No object of the virtual CQ is one of the virtual QP's. */
  lemma Separate(qp: IbvVirtualQp, cq: IbvVirtualCq)
    ensures cq !in qp.Repr()
    ensures forall v | v in cq.pendingSendVirtualWcQue + cq.pendingRecvVirtualWcQue :: v !in qp.Repr()
  {
  }

  class Coordinator {
    var virtualQpNumToVirtualSendCq: map<nat, IbvVirtualCq>
    var virtualQpNumToVirtualRecvCq: map<nat, IbvVirtualCq>
    var physicalQpNumToVirtualQp: map<nat, IbvVirtualQp>

    constructor () {
      virtualQpNumToVirtualSendCq, virtualQpNumToVirtualRecvCq, physicalQpNumToVirtualQp := map[], map[], map[];
    }

    /** Requests from the virtual QP reach its CQs, and completions of each of its QPs reach the virtual QP. */
    ghost predicate RoutesTo(qp: IbvVirtualQp, sendCq: IbvVirtualCq, recvCq: IbvVirtualCq)
      reads this
    {
      && VIRTUAL_QP_NUM in virtualQpNumToVirtualSendCq && virtualQpNumToVirtualSendCq[VIRTUAL_QP_NUM] == sendCq
      && VIRTUAL_QP_NUM in virtualQpNumToVirtualRecvCq && virtualQpNumToVirtualRecvCq[VIRTUAL_QP_NUM] == recvCq
      && (forall i | 0 <= i < |qp.physicalQps| :: RoutesQp(qp.physicalQps[i].qpNum, qp))
      && RoutesQp(qp.notifyQp.qpNum, qp)
    }

    /** The same with one CQ for both directions. */
    ghost predicate Routes(qp: IbvVirtualQp, cq: IbvVirtualCq)
      reads this
    {
      RoutesTo(qp, cq, cq)
    }

    ghost predicate RoutesQp(qpNum: nat, qp: IbvVirtualQp)
      reads this
    {
      qpNum in physicalQpNumToVirtualQp && physicalQpNumToVirtualQp[qpNum] == qp
    }

    /** Physical QPs as a device makes them: distinct numbers, and nothing posted. */
    static ghost predicate JustMade(qps: seq<IbvQp>, notifyQp: IbvQp)
      reads qps, notifyQp
    {
      && (forall i, j | 0 <= i < j < |qps| :: qps[i].qpNum != qps[j].qpNum)
      && (forall i | 0 <= i < |qps| :: qps[i].qpNum != notifyQp.qpNum)
      && (forall q | q in qps + [notifyQp] :: q.physicalSendWrStatus == [] && q.physicalRecvWrStatus == [])
    }

    /**
     * createVirtualQp. `made` is what the device answers: the data QPs and the notify QP, or the error of the
     * first QP it could not make.
     */
    method CreateVirtualQp(made: Result<(seq<IbvQp>, IbvQp)>, sendCq: IbvVirtualCq?, recvCq: IbvVirtualCq?, maxMsgCntPerQp: int,
                           maxMsgSize: nat, loadBalancingScheme: Scheme) returns (r: Result<IbvVirtualQp>)
      requires maxMsgSize >= 1 && (made.Ok? ==> |made.value.0| >= 1 && JustMade(made.value.0, made.value.1))
      modifies this
      ensures sendCq == null || recvCq == null ==> r == Err(InvalidArgument)
      ensures sendCq != null && recvCq != null && made.Err? ==> r == Err(made.error)
      ensures r.Err? ==> unchanged(this) && (sendCq == null || recvCq == null || made.Err?)
      ensures r.Ok? ==>
        var (qps, notifyQp) := made.value;
        && fresh(r.value) && r.value.Valid() && r.value.physicalQps == qps && r.value.notifyQp == notifyQp
        && RoutesTo(r.value, sendCq, recvCq)
        && r.value.Config() == SQ.Config(loadBalancingScheme, maxMsgCntPerQp, maxMsgSize, |qps|)
        && r.value.send == NoSends(|qps|) && r.value.recv == NoRecvs(|qps|)
    {
      if sendCq == null || recvCq == null {
        return Err(InvalidArgument);
      }
      if made.Err? {
        return Err(made.error);
      }
      var qps, notifyQp := made.value.0, made.value.1;
      var qp := new IbvVirtualQp(qps, notifyQp, maxMsgCntPerQp, maxMsgSize, loadBalancingScheme);
      RegisterQps(qp);
      virtualQpNumToVirtualSendCq := virtualQpNumToVirtualSendCq[VIRTUAL_QP_NUM := sendCq];
      virtualQpNumToVirtualRecvCq := virtualQpNumToVirtualRecvCq[VIRTUAL_QP_NUM := recvCq];
      return Ok(qp);
    }

    /** The loop over the data QPs, and the notify QP after it. */
    method RegisterQps(qp: IbvVirtualQp)
      modifies `physicalQpNumToVirtualQp
      ensures forall i | 0 <= i < |qp.physicalQps| :: RoutesQp(qp.physicalQps[i].qpNum, qp)
      ensures RoutesQp(qp.notifyQp.qpNum, qp)
    {
      for i := 0 to |qp.physicalQps|
        invariant forall j | 0 <= j < i :: RoutesQp(qp.physicalQps[j].qpNum, qp)
      {
        physicalQpNumToVirtualQp := physicalQpNumToVirtualQp[qp.physicalQps[i].qpNum := qp];
      }
      physicalQpNumToVirtualQp := physicalQpNumToVirtualQp[qp.notifyQp.qpNum := qp];
    }

    /** A new virtual QP over a CQ with nothing queued is an idle endpoint. */
    lemma NewIsIdle(qp: IbvVirtualQp, cq: IbvVirtualCq)
      requires qp.send == NoSends(|qp.physicalQps|) && qp.recv == NoRecvs(|qp.physicalQps|)
      requires qp.Config().numQps == |qp.physicalQps| && cq.view == CQ.CqState([], [], [], [], map[])
      ensures View(qp, cq) == Idle(qp.Config())
    {
    }

    /** IbvVirtualQp::postSend */
    method PostSend(qp: IbvVirtualQp, ghost cq: IbvVirtualCq, wr: SendWr) returns (r: Result<()>)
      requires qp.Valid() && cq.Valid() && Routes(qp, cq) && SQ.LoopEnds(qp.Config(), wr)
      modifies qp.Repr(), cq
      ensures qp.Valid() && cq.Valid()
      ensures Ready(old(View(qp, cq))) && Follows(r, Endpoints.PostSend(old(View(qp, cq)), wr), View(qp, cq))
      ensures r.Ok? <==> wr.numSge <= 1 && wr.opcode in {RdmaWrite, RdmaWriteWithImm, RdmaRead, Opcode.Send}
      ensures r.Err? ==> View(qp, cq) == old(View(qp, cq))
    {
      if wr.numSge > 1 {
        return Err(InvalidArgument);
      }
      match wr.opcode {
        case SendWithImm | AtomicCmpAndSwp | AtomicFetchAndAdd => return Err(InvalidArgument);
        case _ =>
      }
      SendAccepted(qp, cq, wr);
      return Ok(());
    }

    /** The rest of postSend, for a request that is not refused. */
    method SendAccepted(qp: IbvVirtualQp, ghost cq: IbvVirtualCq, wr: SendWr)
      requires qp.Valid() && cq.Valid() && Routes(qp, cq) && SQ.LoopEnds(qp.Config(), wr) && SQ.Accepts(wr)
      modifies qp.Repr(), cq
      ensures qp.Valid() && cq.Valid() && qp.recv == old(qp.recv)
      ensures cq.view == CQ.EnqueueSend(old(cq.view), wr, SQ.Expected(qp.Config(), wr), SQ.NeedsNotify(qp.Config(), wr))
      ensures SQ.Sendable(qp.Config(), SQ.Enqueue(qp.Config(), old(qp.send), wr))
      ensures qp.send == SQ.MapPending(qp.Config(), SQ.Enqueue(qp.Config(), old(qp.send), wr), |qp.recv.log|, -1)
    {
      var sendExtraNotifyImm := wr.opcode.RdmaWriteWithImm? && qp.loadBalancingScheme.Spray?;
      var expectedMsgCnt := (wr.length + qp.maxMsgSize - 1) / qp.maxMsgSize;
      if sendExtraNotifyImm {
        expectedMsgCnt := expectedMsgCnt + 1;
      }
      virtualQpNumToVirtualSendCq[VIRTUAL_QP_NUM].ProcessSendRequest(wr, expectedMsgCnt, sendExtraNotifyImm);
      Separate(qp, cq);
      assert qp.Valid();
      qp.AcceptSend(wr, expectedMsgCnt, sendExtraNotifyImm);
    }

    /** IbvVirtualQp::postRecv */
    method PostRecv(qp: IbvVirtualQp, ghost cq: IbvVirtualCq, wr: RecvWr) returns (r: Result<()>)
      requires qp.Valid() && cq.Valid() && Routes(qp, cq) && (qp.loadBalancingScheme.Spray? && wr.numSge <= 1 ==> RQ.LoopEnds(qp.Config(), wr))
      modifies qp.Repr(), cq
      ensures qp.Valid() && cq.Valid()
      ensures Ready(old(View(qp, cq))) && Follows(r, Endpoints.PostRecv(old(View(qp, cq)), wr), View(qp, cq))
      ensures r.Ok? <==> wr.numSge <= 1
      ensures r.Err? ==> View(qp, cq) == old(View(qp, cq))
    {
      if wr.numSge > 1 {
        return Err(InvalidArgument);
      }
      var expectedMsgCnt := 1;
      if wr.numSge == 1 {
        expectedMsgCnt := (wr.length + qp.maxMsgSize - 1) / qp.maxMsgSize;
      }
      RecvAccepted(qp, cq, wr, expectedMsgCnt);
      return Ok(());
    }

    /** The rest of postRecv, for a request that is not refused. */
    method RecvAccepted(qp: IbvVirtualQp, ghost cq: IbvVirtualCq, wr: RecvWr, expectedMsgCnt: nat)
      requires qp.Valid() && cq.Valid() && Routes(qp, cq) && qp.Config().Valid() && expectedMsgCnt == RQ.Expected(qp.Config(), wr)
      requires qp.loadBalancingScheme.Spray? ==> RQ.LoopEnds(qp.Config(), wr)
      modifies qp.Repr(), cq
      ensures qp.Valid() && cq.Valid() && qp.send == old(qp.send)
      ensures cq.view == CQ.EnqueueRecv(old(cq.view), wr, expectedMsgCnt)
      ensures var r := RQ.Enqueue(qp.Config(), old(qp.recv), wr);
              if qp.loadBalancingScheme.Spray? then
                RQ.Receivable(qp.Config(), r) && qp.recv == RQ.MapPending(qp.Config(), r, |qp.send.log|, -1)
              else qp.recv == if r.ready then r else RQ.Initialize(qp.Config(), r, |qp.send.log|)
    {
      virtualQpNumToVirtualRecvCq[VIRTUAL_QP_NUM].ProcessRecvRequest(wr, expectedMsgCnt);
      Separate(qp, cq);
      assert qp.Valid();
      qp.AcceptRecv(wr, expectedMsgCnt);
    }

    /** The send branch of loopPollPhysicalCqUntilEmpty. */
    method HandleSend(cq: IbvVirtualCq, ghost qp: IbvVirtualQp, qpNum: nat, wc: PhysicalWc) returns (r: Result<()>)
      requires qp.Valid() && cq.Valid() && RoutesQp(qpNum, qp) && qp.Knows(qpNum)
      modifies qp.Repr(), cq`view, cq.pendingSendVirtualWcQue, cq.pendingRecvVirtualWcQue
      ensures qp.Valid() && cq.Valid() && Ready(old(View(qp, cq)))
      ensures Follows(r, CompleteSend(old(View(qp, cq)), IbvVirtualQp.QpRefOf(qp.QpIdxOf(qpNum)), wc), View(qp, cq))
    {
      var virtualQp := physicalQpNumToVirtualQp[qpNum];
      Separate(qp, cq);
      var response := virtualQp.ProcessSend(qpNum, wc.wrId);
      assert cq.Valid();
      if response.Err? {
        return Err(response.error);
      }
      r := CountSend(cq, virtualQp, response.value, wc);
    }

    /** The completion is counted at the virtual CQ, and may ask for the notify. */
    method CountSend(cq: IbvVirtualCq, qp: IbvVirtualQp, virtualWrId: int, wc: PhysicalWc) returns (r: Result<()>)
      requires qp.Valid() && cq.Valid()
      modifies qp.Repr(), cq`view, cq.pendingSendVirtualWcQue, cq.pendingRecvVirtualWcQue
      ensures qp.Valid() && cq.Valid() && qp.recv == old(qp.recv)
      ensures if !CQ.Live(old(cq.view), virtualWrId) then r == Err(UnknownWrId)
              else
                var v := CQ.Absorb(CQ.Entry(old(cq.view), virtualWrId), wc);
                cq.view == CQ.AbsorbAt(old(cq.view), virtualWrId, wc) && AskedForNotify(old(qp.send), qp.send, |qp.recv.log|, v, virtualWrId, r)
    {
      Separate(qp, cq);
      var virtualWc := cq.CountCompletion(virtualWrId, wc);
      assert qp.Valid();
      if virtualWc == null {
        return Err(UnknownWrId);
      }
      r := AskForNotify(qp, virtualWc, virtualWrId);
      assert cq.Valid();
    }

    static ghost predicate AskedForNotify(s: SQ.SendState, s': SQ.SendState, base: nat, v: CQ.VirtualWc, virtualWrId: int, r: Result<()>) {
      if v.remaining == 1 && v.extraNotify then
        if s.notifying == [] then r == Err(NotifyQueueEmpty)
        else r == Ok(()) && s' == if s.notifying[0].wr.wrId == virtualWrId then SQ.PostNotify(s, base) else s
      else r == Ok(()) && s' == s
    }

    /** The SEND_NOTIFY request, made when only the notify is missing. */
    method AskForNotify(qp: IbvVirtualQp, virtualWc: VirtualWc, virtualWrId: int) returns (r: Result<()>)
      requires qp.Valid()
      modifies qp.Repr()
      ensures qp.Valid() && qp.recv == old(qp.recv)
      ensures AskedForNotify(old(qp.send), qp.send, |qp.recv.log|, old(virtualWc.Value()), virtualWrId, r)
    {
      if virtualWc.remainingMsgCnt == 1 && virtualWc.sendExtraNotifyImm {
        var served := qp.ProcessSendNotify(virtualWrId);
        if served.Err? {
          return Err(served.error);
        }
      }
      return Ok(());
    }

    /** The receive branch. */
    method HandleRecv(cq: IbvVirtualCq, ghost qp: IbvVirtualQp, qpNum: nat, wc: PhysicalWc) returns (r: Result<()>)
      requires qp.Valid() && cq.Valid() && RoutesQp(qpNum, qp) && qp.Knows(qpNum)
      modifies qp.Repr(), cq`view, cq.pendingSendVirtualWcQue, cq.pendingRecvVirtualWcQue
      ensures qp.Valid() && cq.Valid() && Ready(old(View(qp, cq)))
      ensures Follows(r, CompleteRecv(old(View(qp, cq)), IbvVirtualQp.QpRefOf(qp.QpIdxOf(qpNum)),
                                      Passed(qp.Config(), wc)), View(qp, cq))
    {
      var virtualQp := physicalQpNumToVirtualQp[qpNum];
      Separate(qp, cq);
      var response := virtualQp.ProcessRecv(qpNum, wc.wrId, RequestImm(wc));
      assert cq.Valid();
      if response.Err? {
        return Err(response.error);
      }
      r := CountRecv(cq, virtualQp.loadBalancingScheme, response.value, wc);
      assert qp.Valid();
    }

    /** The completion at the virtual CQ: notified receives finish in DQPLB, the one served is counted in SPRAY. */
    method CountRecv(cq: IbvVirtualCq, scheme: Scheme, response: VirtualQpResponse, wc: PhysicalWc) returns (r: Result<()>)
      requires cq.Valid()
      modifies cq`view, cq.pendingSendVirtualWcQue, cq.pendingRecvVirtualWcQue
      ensures cq.Valid()
      ensures if scheme.Dqplb? then
                r == Ok(()) && cq.view == old(cq.view).(recvs := CQ.MarkNotified(old(cq.view).recvs, response.notifyCount))
              else if !CQ.Live(old(cq.view), response.virtualWrId) then r == Err(UnknownWrId)
              else r == Ok(()) && cq.view == CQ.AbsorbAt(old(cq.view), response.virtualWrId, wc)
    {
      if scheme.Dqplb? {
        cq.MarkNotified(response.notifyCount);
      } else {
        var virtualWc := cq.CountCompletion(response.virtualWrId, wc);
        if virtualWc == null {
          return Err(UnknownWrId);
        }
      }
      return Ok(());
    }

    /** The completions a run of the poll loop sees, by the QP they came from. */
    ghost function Resolved(qp: IbvVirtualQp, events: seq<CqEvent>): seq<(QpRef, PhysicalWc)>
      requires IbvVirtualQp.Numbered(qp.physicalQps, qp.notifyQp, qp.qpNumToIdx)
      requires forall i | 0 <= i < |events| :: qp.Knows(events[i].qpNum)
    {
      seq(|events|, i requires 0 <= i < |events| => (IbvVirtualQp.QpRefOf(qp.QpIdxOf(events[i].qpNum)), events[i].wc))
    }

    /**
     * loopPollPhysicalCqUntilEmpty. `events` are the completions the device reports one by one; then it has no
     * more, or fails to report.
     */
    method LoopPollPhysicalCqUntilEmpty(cq: IbvVirtualCq, ghost qp: IbvVirtualQp, events: seq<CqEvent>, fails: bool) returns (r: Result<()>)
      requires qp.Valid() && cq.Valid()
      requires forall i | 0 <= i < |events| :: RoutesQp(events[i].qpNum, qp) && qp.Knows(events[i].qpNum)
      modifies qp.Repr(), cq`view, cq.pendingSendVirtualWcQue, cq.pendingRecvVirtualWcQue
      ensures qp.Valid() && cq.Valid()
      ensures Ready(old(View(qp, cq))) && OnQps(old(View(qp, cq)), Resolved(qp, events))
      ensures Polled(r, CompleteAll(old(View(qp, cq)), Resolved(qp, events)), View(qp, cq), fails)
    {
      ghost var end := CompleteAll(View(qp, cq), Resolved(qp, events));
      var handled := HandleAll(cq, qp, events, end);
      if handled.Err? {
        return handled;
      }
      return if fails then Err(PollFailed) else Ok(());
    }

    /** The loop. */
    method HandleAll(cq: IbvVirtualCq, ghost qp: IbvVirtualQp, events: seq<CqEvent>, ghost end: Result<Endpoint>) returns (r: Result<()>)
      requires qp.Valid() && cq.Valid()
      requires forall i | 0 <= i < |events| :: RoutesQp(events[i].qpNum, qp) && qp.Knows(events[i].qpNum)
      requires Awaits(View(qp, cq), Resolved(qp, events), end)
      modifies qp.Repr(), cq`view, cq.pendingSendVirtualWcQue, cq.pendingRecvVirtualWcQue
      ensures qp.Valid() && cq.Valid()
      ensures if r.Err? then end == Err(r.error) else end == Ok(View(qp, cq))
    {
      var i := 0;
      ghost var all := Resolved(qp, events);
      assert all[0..] == all;
      while i < |events|
        invariant i <= |events| && qp.Valid() && cq.Valid() && Awaits(View(qp, cq), all[i..], end)
      {
        var ok := HandleNext(cq, qp, events, i, end);
        if ok.Err? {
          return ok;
        }
        i := i + 1;
      }
      assert all[i..] == [];
      AwaitsNone(View(qp, cq), end);
      return Ok(());
    }

    /** The first error of a completion; else all of them were handled, and then the device may have failed. */
    static ghost predicate Polled(r: Result<()>, spec: Result<Endpoint>, now: Endpoint, fails: bool) {
      match spec
      case Err(error) => r == Err(error)
      case Ok(e) => now == e && r == if fails then Err(PollFailed) else Ok(())
    }

    /** Handling `rest` from here gives `end`; under a quantifier, so that the verifier opens it only where it is used. */
    static ghost predicate Awaits(e: Endpoint, rest: seq<(QpRef, PhysicalWc)>, end: Result<Endpoint>) {
      forall k: Endpoint {:trigger Ready(k)} | k == e :: Ready(k) && OnQps(k, rest) && CompleteAll(k, rest) == end
    }

    static lemma AwaitsStep(e: Endpoint, rest: seq<(QpRef, PhysicalWc)>, end: Result<Endpoint>)
      requires Awaits(e, rest, end) && rest != []
      ensures Ready(e) && (rest[0].0.Data? ==> rest[0].0.i < e.c.numQps)
      ensures match Dispatch(e, rest[0].0, rest[0].1)
              case Err(error) => end == Err(error)
              case Ok(next) => Awaits(next, rest[1..], end)
    {
      assert Ready(e);
      DispatchReady(e, rest[0].0, rest[0].1);
    }

    static lemma AwaitsNone(e: Endpoint, end: Result<Endpoint>)
      requires Awaits(e, [], end)
      ensures end == Ok(e)
    {
      assert Ready(e);
    }

    method HandleNext(cq: IbvVirtualCq, ghost qp: IbvVirtualQp, events: seq<CqEvent>, i: nat, ghost end: Result<Endpoint>)
        returns (r: Result<()>)
      requires qp.Valid() && cq.Valid() && i < |events|
      requires forall i | 0 <= i < |events| :: RoutesQp(events[i].qpNum, qp) && qp.Knows(events[i].qpNum)
      requires Awaits(View(qp, cq), Resolved(qp, events)[i..], end)
      modifies qp.Repr(), cq`view, cq.pendingSendVirtualWcQue, cq.pendingRecvVirtualWcQue
      ensures qp.Valid() && cq.Valid()
      ensures if r.Err? then end == Err(r.error) else Awaits(View(qp, cq), Resolved(qp, events)[i + 1..], end)
    {
      ghost var all := Resolved(qp, events);
      assert all[i..][0] == all[i] && all[i..][1..] == all[i + 1..];
      AwaitsStep(View(qp, cq), all[i..], end);
      r := HandleOne(cq, qp, events[i]);
    }

    method HandleOne(cq: IbvVirtualCq, ghost qp: IbvVirtualQp, event: CqEvent) returns (r: Result<()>)
      requires qp.Valid() && cq.Valid() && RoutesQp(event.qpNum, qp) && qp.Knows(event.qpNum)
      modifies qp.Repr(), cq`view, cq.pendingSendVirtualWcQue, cq.pendingRecvVirtualWcQue
      ensures qp.Valid() && cq.Valid() && Ready(old(View(qp, cq)))
      ensures Follows(r, Dispatch(old(View(qp, cq)), IbvVirtualQp.QpRefOf(qp.QpIdxOf(event.qpNum)), event.wc), View(qp, cq))
    {
      match event.wc.opcode {
        case WcRecv | WcRecvRdmaWithImm => r := HandleRecv(cq, qp, event.qpNum, event.wc);
        case WcSendSide => r := HandleSend(cq, qp, event.qpNum, event.wc);
      }
    }

    /** IbvVirtualCq::pollCq */
    method PollCq(cq: IbvVirtualCq, ghost qp: IbvVirtualQp, events: seq<CqEvent>, fails: bool, numEntries: nat)
        returns (r: Result<seq<IbvWc>>)
      requires qp.Valid() && cq.Valid()
      requires forall i | 0 <= i < |events| :: RoutesQp(events[i].qpNum, qp) && qp.Knows(events[i].qpNum)
      modifies qp.Repr(), cq, cq.pendingSendVirtualWcQue, cq.pendingRecvVirtualWcQue
      ensures qp.Valid() && cq.Valid()
      ensures Ready(old(View(qp, cq))) && OnQps(old(View(qp, cq)), Resolved(qp, events))
      ensures match CompleteAll(old(View(qp, cq)), Resolved(qp, events))
              case Err(error) => r == Err(error)
              case Ok(e) =>
                if fails then View(qp, cq) == e && r == Err(PollFailed)
                else View(qp, cq) == e.(cq := CQ.PollCq(e.cq, numEntries).0) && r == Ok(CQ.PollCq(e.cq, numEntries).1)
    {
      var polled := LoopPollPhysicalCqUntilEmpty(cq, qp, events, fails);
      if polled.Err? {
        return Err(polled.error);
      }
      var wcs := cq.LoopPollVirtualCqUntil(numEntries);
      return Ok(wcs);
    }
  }
}
