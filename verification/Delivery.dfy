/** End to end: what holds in every state of every run of two connected endpoints. */
module Delivery {
  import opened Verbs
  import opened CompletionQueue
  import opened Ledgers
  import opened Endpoints
  import opened Progress
  import opened Links
  import SQ = SendQueue
  import SP = SendProtocol
  import RQ = RecvQueue
  import Seq = SeqTracker

  // ---------------------------------------------------------------- one side of a run

  /**
   * A device that serves each QP in order never meets the "status queue empty" or "wr_id mismatch" error,
   * nor any other: every completion it can report is accepted where its opcode leads.
   */
  lemma NoErrors(run: seq<Link>, n: nat, i: nat, r: nat, p: PhysicalWc)
    requires IsRun(run) && n < |run|
    ensures var x := run[n].x;
            ReportsSend(x.e, x.h, i, p) && p.opcode.WcSendSide? ==>
              Ready(x.e) && (x.e.send.log[i].qp.Data? ==> x.e.send.log[i].qp.i < x.e.c.numQps)
              && Dispatch(x.e, x.e.send.log[i].qp, p).Ok?
    ensures var x := run[n].x;
            ReportsRecv(x.e, x.h, r, p) && !p.opcode.WcSendSide? ==>
              Ready(x.e) && (x.e.recv.log[r].qp.Data? ==> x.e.recv.log[r].qp.i < x.e.c.numQps)
              && Dispatch(x.e, x.e.recv.log[r].qp, p).Ok?
  {
    RunInv(run, n);
    var x := run[n].x;
    if ReportsSend(x.e, x.h, i, p) && p.opcode.WcSendSide? { SendCompletes(x.e, x.h, i, p); }
    if ReportsRecv(x.e, x.h, r, p) && !p.opcode.WcSendSide? { RecvCompletes(x.e, x.h, r, p); }
  }

  lemma SendCompletes(e: Endpoint, h: History, i: nat, p: PhysicalWc)
    requires Inv(e, h) && ReportsSend(e, h, i, p) && p.opcode.WcSendSide?
    ensures Ready(e) && (e.send.log[i].qp.Data? ==> e.send.log[i].qp.i < e.c.numQps) && Dispatch(e, e.send.log[i].qp, p).Ok?
  {
    CompleteSendInv(e, h, i, p);
  }

  lemma RecvCompletes(e: Endpoint, h: History, r: nat, p: PhysicalWc)
    requires Inv(e, h) && ReportsRecv(e, h, r, p) && !p.opcode.WcSendSide?
    ensures Ready(e) && (e.recv.log[r].qp.Data? ==> e.recv.log[r].qp.i < e.c.numQps) && Dispatch(e, e.recv.log[r].qp, p).Ok?
  {
    if e.c.scheme.Spray? { CompleteRecvSpray(e, h, r, p); } else { CompleteRecvDqplb(e, h, r, Passed(e.c, p)); }
  }

  /**
   * Send completions come back in post order, one per message and only after the last physical completion
   * of their message; the status is the first error or success, the length the sum of the lengths.
   */
  lemma ReturnedSends(run: seq<Link>, n: nat, k: nat)
    requires IsRun(run) && n < |run| && k < |run[n].x.e.cq.sendsOut|
    ensures var x := run[n].x;
            var w, ps := x.e.cq.sendsOut[k], Absorbed(x.h.sendComps, k);
            && k < |x.e.send.msgs| && w.wrId == x.e.send.msgs[k].wrId && x.e.c.Valid()
            && |ps| == SQ.Expected(x.e.c, x.e.send.msgs[k]) && AllDone(x.e.send, x.h.sendDone, k)
            && (w.status == Success <==> forall i | 0 <= i < |ps| :: ps[i].status == Success)
            && (w.status != Success ==>
                  exists i :: 0 <= i < |ps| && ps[i].status == w.status && forall j | 0 <= j < i :: ps[j].status == Success)
            && w.byteLen == TotalBytes(ps) % TWO_32
  {
    RunInv(run, n);
    ReturnedSend(run[n].x.e, run[n].x.h, k);
  }

  lemma ReturnedSend(e: Endpoint, h: History, k: nat)
    requires Inv(e, h) && k < |e.cq.sendsOut|
    ensures var w, ps := e.cq.sendsOut[k], Absorbed(h.sendComps, k);
            && k < |e.send.msgs| && w.wrId == e.send.msgs[k].wrId
            && |ps| == SQ.Expected(e.c, e.send.msgs[k]) && AllDone(e.send, h.sendDone, k)
            && (w.status == Success <==> forall i | 0 <= i < |ps| :: ps[i].status == Success)
            && (w.status != Success ==>
                  exists i :: 0 <= i < |ps| && ps[i].status == w.status && forall j | 0 <= j < i :: ps[j].status == Success)
            && w.byteLen == TotalBytes(ps) % TWO_32
  {
    var l := SP.SendLedger(e.c, e.send, SendWcs(e.cq), |e.cq.sendsOut|, h.sendDone, h.sendComps);
    Remaining(l, k);
    assert Balanced(l, k);
    FoldMeaning(l.initial[k], Absorbed(h.sendComps, k));
    CountDoneBound(e.send.log, h.sendDone, k);
  }

  /** Only the completions of this receive are counted on it, and in SPRAY it is returned after its last one. */
  ghost predicate ReceiveFolded(x: Side, k: nat)
    requires k < |x.e.cq.recvsOut| && k < |x.e.recv.wrs| && x.e.c.Valid()
  {
    var w, ps := x.e.cq.recvsOut[k], Absorbed(x.h.recvComps, k);
    && |ps| == RQ.Expected(x.e.c, x.e.recv.wrs[k])
    && (w.status == Success <==> forall i | 0 <= i < |ps| :: ps[i].status == Success)
    && w.byteLen == TotalBytes(ps) % TWO_32
  }

  /**
   * Receive completions come back in post order too: in SPRAY each after the last physical completion of its
   * receive, in DQPLB each after its notify.
   */
  lemma ReturnedReceives(run: seq<Link>, n: nat, k: nat)
    requires IsRun(run) && n < |run| && k < |run[n].x.e.cq.recvsOut|
    ensures var x := run[n].x;
            && k < |x.e.recv.wrs| && x.e.cq.recvsOut[k].wrId == x.e.recv.wrs[k].wrId && x.e.c.Valid()
            && if x.e.c.scheme.Spray? then ReceiveFolded(x, k) else k < x.h.notified
  {
    RunInv(run, n);
    var x := run[n].x;
    assert RecvWcs(x.e.cq)[k] == x.e.cq.recvsOut[k];
    if x.e.c.scheme.Spray? {
      var l := RQ.RecvLedger(x.e.c, x.e.recv, RecvWcs(x.e.cq), |x.e.cq.recvsOut|, x.h.recvDone, x.h.recvComps);
      Remaining(l, k);
      assert Balanced(l, k);
      FoldMeaning(l.initial[k], Absorbed(x.h.recvComps, k));
      CountDoneBound(x.e.recv.log, x.h.recvDone, k);
    }
  }

  /** The answer says of these physical completions: Success if all succeeded and else the first error, and the sum of lengths. */
  ghost predicate SumsUp(w: IbvWc, ps: seq<PhysicalWc>) {
    && (w.status == Success <==> forall i | 0 <= i < |ps| :: ps[i].status == Success)
    && (w.status != Success ==>
          exists i :: 0 <= i < |ps| && ps[i].status == w.status && forall j | 0 <= j < i :: ps[j].status == Success)
    && w.byteLen == TotalBytes(ps) % 0x1_0000_0000 && (ps != [] ==> w.imm == ps[|ps| - 1].imm)
  }

  /** The answer is for the k-th send, all of whose posts have completed. */
  ghost predicate SendAnswer(x: Side, w: IbvWc, k: nat) {
    && x.e.c.Valid() && k < |x.e.send.msgs| && w.wrId == x.e.send.msgs[k].wrId
    && |Absorbed(x.h.sendComps, k)| == SQ.Expected(x.e.c, x.e.send.msgs[k]) && AllDone(x.e.send, x.h.sendDone, k)
    && SumsUp(w, Absorbed(x.h.sendComps, k))
  }

  /** The answer is for the k-th receive: in SPRAY after all its posts have completed, in DQPLB after k + 1 notifies. */
  ghost predicate RecvAnswer(x: Side, w: IbvWc, k: nat) {
    && x.e.c.Valid() && k < |x.e.recv.wrs| && w.wrId == x.e.recv.wrs[k].wrId
    && if x.e.c.scheme.Spray?
       then |Absorbed(x.h.recvComps, k)| == RQ.Expected(x.e.c, x.e.recv.wrs[k]) && SumsUp(w, Absorbed(x.h.recvComps, k))
       else k < x.h.notified && w.status == Success && w.byteLen == 0 && w.imm == 0
  }

  /**
   * The i-th of a sends and b receives handed out, `so` sends and `ro` receives having been handed out before:
   * the two in turns as long as there are both, sends first, then the rest.
   */
  ghost predicate AnswerAt(x: Side, ws: seq<IbvWc>, i: nat, a: nat, b: nat, so: nat, ro: nat)
    requires i < |ws| == a + b
  {
    if i < 2 * Min(a, b) then (if i % 2 == 0 then SendAnswer(x, ws[i], so + i / 2) else RecvAnswer(x, ws[i], ro + i / 2))
    else if a > b then SendAnswer(x, ws[i], so + (i - b)) else RecvAnswer(x, ws[i], ro + (i - a))
  }

  /**
   * What pollCq hands out, in any state of a run: the next sends and the next receives in post order, each with
   * the id of its request and what its physical completions add up to; it stops short of `count` only when the
   * completions in front of both queues are unfinished.
   */
  lemma PollHandsOut(run: seq<Link>, n: nat, count: nat) returns (a: nat, b: nat)
    requires IsRun(run) && n < |run|
    ensures var x := run[n].x;
            var (cq', ws) := PollCq(x.e.cq, count);
            && |ws| == a + b <= count + 1
            && |cq'.sendsOut| == |x.e.cq.sendsOut| + a && |cq'.recvsOut| == |x.e.cq.recvsOut| + b
            && (forall i: nat | i < |ws| :: AnswerAt(x, ws, i, a, b, |x.e.cq.sendsOut|, |x.e.cq.recvsOut|))
            && (|ws| < count ==> (cq'.sends == [] || cq'.sends[0].remaining > 0) && (cq'.recvs == [] || cq'.recvs[0].remaining > 0))
  {
    RunInv(run, n);
    a, b := PollLoopFifo(Polling(run[n].x.e.cq, [], true, true), count);
    var x := run[n].x;
    PolledAnswers(x, a, b);
    assert CompletionQueue.Poll(x.e.cq, count).1 == Merge(x.e.cq.sends[..a], x.e.cq.recvs[..b]);
  }

  lemma PolledAnswers(x: Side, a: nat, b: nat)
    requires Inv(x.e, x.h) && a <= |x.e.cq.sends| && b <= |x.e.cq.recvs|
    requires (forall i | 0 <= i < a :: x.e.cq.sends[i].remaining <= 0) && forall i | 0 <= i < b :: x.e.cq.recvs[i].remaining <= 0
    ensures var ws := Answers(Merge(x.e.cq.sends[..a], x.e.cq.recvs[..b]));
            |ws| == a + b && forall i: nat | i < |ws| :: AnswerAt(x, ws, i, a, b, |x.e.cq.sendsOut|, |x.e.cq.recvsOut|)
  {
    var sends := SendsAnswered(x, a);
    var recvs := RecvsAnswered(x, b);
    MergedAnswers(x, sends, recvs, |x.e.cq.sendsOut|, |x.e.cq.recvsOut|);
  }

  /** These completions give the answers for the sends from number `from` on; and so for receives. */
  ghost predicate AnswerSends(x: Side, sends: seq<VirtualWc>, from: nat) {
    forall k: nat | k < |sends| :: SendAnswer(x, Answer(sends[k]), from + k)
  }

  ghost predicate AnswerRecvs(x: Side, recvs: seq<VirtualWc>, from: nat) {
    forall k: nat | k < |recvs| :: RecvAnswer(x, Answer(recvs[k]), from + k)
  }

  lemma SendsAnswered(x: Side, a: nat) returns (sends: seq<VirtualWc>)
    requires Inv(x.e, x.h) && a <= |x.e.cq.sends| && forall i | 0 <= i < a :: x.e.cq.sends[i].remaining <= 0
    ensures sends == x.e.cq.sends[..a] && AnswerSends(x, sends, |x.e.cq.sendsOut|)
  {
    sends := x.e.cq.sends[..a];
    forall k: nat | k < a ensures SendAnswer(x, Answer(sends[k]), |x.e.cq.sendsOut| + k) { SendAnswered(x, k); }
  }

  lemma RecvsAnswered(x: Side, b: nat) returns (recvs: seq<VirtualWc>)
    requires Inv(x.e, x.h) && b <= |x.e.cq.recvs| && forall i | 0 <= i < b :: x.e.cq.recvs[i].remaining <= 0
    ensures recvs == x.e.cq.recvs[..b] && AnswerRecvs(x, recvs, |x.e.cq.recvsOut|)
  {
    recvs := x.e.cq.recvs[..b];
    forall k: nat | k < b ensures RecvAnswer(x, Answer(recvs[k]), |x.e.cq.recvsOut| + k) { RecvAnswered(x, k); }
  }

  lemma MergedAnswers(x: Side, sends: seq<VirtualWc>, recvs: seq<VirtualWc>, so: nat, ro: nat)
    requires AnswerSends(x, sends, so) && AnswerRecvs(x, recvs, ro)
    ensures var ws := Answers(Merge(sends, recvs));
            |ws| == |sends| + |recvs| && forall i: nat | i < |ws| :: AnswerAt(x, ws, i, |sends|, |recvs|, so, ro)
  {
    var ws := Answers(Merge(sends, recvs));
    if |sends| + |recvs| > 0 { MergeAt(sends, recvs, 0); }
    forall i: nat | i < |ws| ensures AnswerAt(x, ws, i, |sends|, |recvs|, so, ro) { MergeAt(sends, recvs, i); }
  }

  lemma SendAnswered(x: Side, k: nat)
    requires Inv(x.e, x.h) && k < |x.e.cq.sends| && x.e.cq.sends[k].remaining <= 0
    ensures SendAnswer(x, Answer(x.e.cq.sends[k]), |x.e.cq.sendsOut| + k)
  {
    var m := |x.e.cq.sendsOut| + k;
    assert SendWcs(x.e.cq)[m] == x.e.cq.sends[k];
    var l := SP.SendLedger(x.e.c, x.e.send, SendWcs(x.e.cq), |x.e.cq.sendsOut|, x.h.sendDone, x.h.sendComps);
    Remaining(l, m);
    assert Balanced(l, m);
    FoldMeaning(l.initial[m], Absorbed(x.h.sendComps, m));
    CountDoneBound(x.e.send.log, x.h.sendDone, m);
  }

  lemma RecvAnswered(x: Side, k: nat)
    requires Inv(x.e, x.h) && k < |x.e.cq.recvs| && x.e.cq.recvs[k].remaining <= 0
    ensures RecvAnswer(x, Answer(x.e.cq.recvs[k]), |x.e.cq.recvsOut| + k)
  {
    var m := |x.e.cq.recvsOut| + k;
    assert RecvWcs(x.e.cq)[m] == x.e.cq.recvs[k];
    if x.e.c.scheme.Spray? {
      var l := RQ.RecvLedger(x.e.c, x.e.recv, RecvWcs(x.e.cq), |x.e.cq.recvsOut|, x.h.recvDone, x.h.recvComps);
      Remaining(l, m);
      assert Balanced(l, m);
      FoldMeaning(l.initial[m], Absorbed(x.h.recvComps, m));
      CountDoneBound(x.e.recv.log, x.h.recvDone, m);
    }
  }

  /** The work request id index points at every queued completion, each under its own id, and at nothing else. */
  lemma IndexPoints(run: seq<Link>, n: nat)
    requires IsRun(run) && n < |run|
    ensures IndexInv(run[n].x.e.cq)
  {
    RunInv(run, n);
  }

  /** The status deques of every QP are what is in flight on it, in the order of posting, on both sides. */
  lemma DequesAreInFlight(run: seq<Link>, n: nat)
    requires IsRun(run) && n < |run|
    ensures var x := run[n].x;
            && SP.Queues(x.e.c, x.e.send, x.h.sendDone)
            && RQ.Queues(x.e.c, x.e.recv, x.h.recvDone)
  {
    RunInv(run, n);
  }

  /** Completion conservation in every state of every run. */
  lemma ConservedInRuns(run: seq<Link>, n: nat, k: nat)
    requires IsRun(run) && n < |run|
    requires |run[n].x.e.cq.sendsOut| <= k < |SendWcs(run[n].x.e.cq)|
    ensures var e := run[n].x.e;
            var w := SendWcs(e.cq)[k];
            w.remaining == HeldIn(e.send.pending, k) + HeldIn(e.send.notifying, k)
                           + CountIdAll(e.send.queues, w.wrId) + CountId(e.send.notifyQueue, w.wrId)
  {
    RunInv(run, n);
    Conservation(run[n].x.e, run[n].x.h, k);
  }

  /** Once a first receive has been posted, every data QP of a DQPLB receiver holds exactly its limit of posted receives. */
  lemma DqplbReceiveDepth(run: seq<Link>, n: nat, q: nat)
    requires IsRun(run) && n < |run| && run[n].x.e.c.scheme.Dqplb? && run[n].x.e.recv.wrs != [] && q < run[n].x.e.c.numQps
    ensures q < |run[n].x.e.recv.queues|
    ensures |run[n].x.e.recv.queues[q]| == if run[n].x.e.c.limit < 0 then 0 else run[n].x.e.c.limit
  {
    RunInv(run, n);
  }

  /** Flow control and work conservation in every state of every run. */
  lemma FlowControl(run: seq<Link>, n: nat)
    requires IsRun(run) && n < |run|
    ensures FlowInv(run[n].x.e.c, run[n].x.e.send)
  {
    RunInv(run, n);
  }

  /**
   * Without SPRAY notifies, or with a single data QP, a state with nothing in flight has finished every
   * message; in general it has finished exactly those whose request for a notify was not ignored.
   */
  lemma QuiescentMeansFinished(run: seq<Link>, n: nat)
    requires IsRun(run) && n < |run| && run[n].x.e.c.limit != 0 && NothingInFlight(run[n].x.e.send)
    ensures var x := run[n].x;
            && (forall k: nat | k < |SendWcs(x.e.cq)| :: SendWcs(x.e.cq)[k].remaining == 0 <==> k !in x.h.ignored)
            && (x.e.c.scheme.Dqplb? || x.e.c.numQps == 1 ==> x.h.ignored == {})
  {
    RunInv(run, n);
    var x := run[n].x;
    FinishedUnlessIgnored(x.e, x.h);
    if x.e.c.scheme.Dqplb? && x.h.ignored != {} {
      var m :| m in x.h.ignored;
      WaitingExactly(x.e.c, x.e.send, m);
    }
  }

  /**
   * Side x completes post i, which leaves only the notify of its message missing, before the notify of an
   * earlier message has been posted.
   */
  ghost predicate Overtakes(l: Link, l': Link, i: nat, p: PhysicalWc) {
    && Completes(l, l', i, p)
    && l.x.e.send.log[i].msg < |SendWcs(l.x.e.cq)| && AsksNotify(l.x.e, i, p)
    && EarlierUnnotified(l.x.e, l.x.e.send.log[i].msg)
  }

  ghost predicate Overtaking(l: Link, l': Link) {
    exists i: nat, p: PhysicalWc :: Overtakes(l, l', i, p)
  }

  /** No step up to state n overtakes. */
  ghost predicate NoneOvertakes(run: seq<Link>, n: nat)
    requires n < |run|
  {
    n == 0 || (NoneOvertakes(run, n - 1) && !Overtaking(run[n - 1], run[n]))
  }

  lemma IgnoredStep(l: Link, l': Link)
    requires LinkInv(l) && Next(l, l')
    ensures l'.x.h.ignored == {} <==> l.x.h.ignored == {} && !Overtaking(l, l')
  {
    forall i: nat, p: PhysicalWc | Completes(l, l', i, p)
      ensures l'.x.h.ignored == {} <==> l.x.h.ignored == {} && !Overtakes(l, l', i, p)
    {
      CompletionIgnores(l, l', i, p);
    }
    if !(exists i: nat, p: PhysicalWc :: Completes(l, l', i, p)) {
      OtherStepsIgnoreNothing(l, l');
    }
  }

  lemma CompletionIgnores(l: Link, l': Link, i: nat, p: PhysicalWc)
    requires LinkInv(l) && Completes(l, l', i, p)
    ensures l'.x.h.ignored == {} <==> l.x.h.ignored == {} && !Overtakes(l, l', i, p)
  {
    IgnoredExactly(l.x.e, l.x.h, i, p);
  }

  lemma OtherStepsIgnoreNothing(l: Link, l': Link)
    requires Next(l, l') && !(exists i: nat, p: PhysicalWc :: Completes(l, l', i, p))
    ensures l'.x.h.ignored == l.x.h.ignored
  {
    var step :| Acts(l, l', step) || Acts(Swap(l), Swap(l'), step);
    if Acts(l, l', step) { OwnStepIgnores(l, l', step); } else { PeerStepIgnores(Swap(l), Swap(l'), step); }
  }

  lemma OwnStepIgnores(l: Link, l': Link, step: Step)
    requires Acts(l, l', step) && !step.Complete?
    ensures l'.x.h.ignored == l.x.h.ignored
  {
    match step
    case Flush(r, p) => RecvIgnores(l.x.e, l.x.h, r, Passed(l.x.e.c, p));
    case _ =>
  }

  lemma RecvIgnores(e: Endpoint, h: History, r: nat, p: PhysicalWc)
    requires r < |e.recv.log|
    ensures AfterRecv(e, h, r, p).ignored == h.ignored
  {
  }

  lemma PeerStepIgnores(l: Link, l': Link, step: Step)
    requires Acts(l, l', step)
    ensures l'.y.h.ignored == l.y.h.ignored
  {
    match step
    case Receive(i, r, p) => RecvIgnores(l.y.e, l.y.h, r, Passed(l.y.e.c, p));
    case _ =>
  }

  lemma {:induction false} IgnoredRun(run: seq<Link>, n: nat)
    requires IsRun(run) && n < |run|
    ensures run[n].x.h.ignored == {} <==> NoneOvertakes(run, n)
  {
    if n > 0 {
      RunInv(run, n - 1);
      assert Next(run[n - 1], run[n - 1 + 1]);
      IgnoredStep(run[n - 1], run[n]);
      IgnoredRun(run, n - 1);
    }
  }

  /**
   * Progress, exactly: a state with nothing in flight has finished every message if and only if no message's
   * last data completion ever overtook an earlier message whose notify was still to come.
   */
  lemma FinishedIffNoneOvertakes(run: seq<Link>, n: nat)
    requires IsRun(run) && n < |run| && run[n].x.e.c.limit != 0 && NothingInFlight(run[n].x.e.send)
    ensures (forall k: nat | k < |SendWcs(run[n].x.e.cq)| :: SendWcs(run[n].x.e.cq)[k].remaining == 0) <==> NoneOvertakes(run, n)
  {
    RunInv(run, n);
    IgnoredRun(run, n);
    FinishedUnlessIgnored(run[n].x.e, run[n].x.h);
  }

  // ---------------------------------------------------------------- SPRAY

  /** All chunks of message m have been posted and have arrived. */
  ghost predicate MessageArrived(x: Side, m: nat) {
    && m < SP.HandedOver(x.e.send)
    && forall i: nat | i < |x.e.send.log| && x.e.send.log[i].msg == m && x.e.send.log[i].qp.Data? :: i in Arrived(x)
  }

  /** All chunks of message m have been posted and have completed, with success or with an error. */
  ghost predicate DataCompleted(x: Side, m: nat) {
    && m < SP.HandedOver(x.e.send)
    && forall i: nat | i < |x.e.send.log| && x.e.send.log[i].msg == m && x.e.send.log[i].qp.Data? :: i in x.h.sendDone
  }

  /** Some chunk of message m has failed. */
  ghost predicate FailsData(x: Side, m: nat) {
    exists i: nat :: i in x.failed && i < |x.e.send.log| && x.e.send.log[i].msg == m && x.e.send.log[i].qp.Data?
  }

  /** Some chunk of message m has failed and has not landed. */
  ghost predicate LosesData(x: Side, m: nat) {
    exists i: nat :: i in x.failed && i !in x.landed && i < |x.e.send.log| && x.e.send.log[i].msg == m && x.e.send.log[i].qp.Data?
  }

  /** The chunks of message m have all completed, and it has arrived exactly if none was lost. */
  ghost predicate Settled(x: Side, m: nat) {
    DataCompleted(x, m) && (MessageArrived(x, m) <==> !LosesData(x, m))
  }

  /**
   * Notifies go out in message order, and only after the chunks of their message have completed: in every
   * state a message whose notify has been posted has arrived, unless one of its chunks failed without landing.
   */
  lemma NotifiesAreSafe(run: seq<Link>, n: nat, k: nat)
    requires IsRun(run) && n < |run| && k < |SP.Notified(run[n].x.e.send.log)|
    ensures var x := run[n].x;
            var m := SP.Notified(x.e.send.log)[k];
            && Settled(x, m)
            && x.e.c.scheme.Spray? && |SP.NotifyOrder(x.e.c, x.e.send.msgs, |x.e.send.msgs|)| > k
            && m == SP.NotifyOrder(x.e.c, x.e.send.msgs, |x.e.send.msgs|)[k]
  {
    RunInv(run, n);
    NotifiedIsSettled(run[n].x, k);
    NotifiedInOrder(run[n].x.e.c, run[n].x.e.send, k);
  }

  /** A SPRAY message whose chunks have all completed has arrived if and only if none was lost. */
  lemma CompletedIsSettled(x: Side, m: nat)
    requires SideInv(x) && LandedOk(x) && x.e.c.scheme.Spray? && DataCompleted(x, m)
    ensures Settled(x, m)
  {
    var s := x.e.send;
    forall i: nat | i < |s.log| && s.log[i].msg == m && s.log[i].qp.Data?
      ensures i in Arrived(x) <==> i in x.landed
      ensures i in x.landed || i in x.failed
    {
      SprayDataHasNoImm(x.e.c, s, i);
      assert i in x.h.sendDone && i in Landed(x) + x.failed;
    }
    if LosesData(x, m) {
      var i: nat :| i in x.failed && i !in x.landed && i < |s.log| && s.log[i].msg == m && s.log[i].qp.Data?;
      assert i !in Arrived(x);
    }
  }

  /**
   * What the sender can see: once the chunks of a SPRAY message have completed, the message has arrived if its
   * completion shows no error; and where no failed post has landed, it has arrived exactly if no chunk failed.
   */
  lemma SuccessIsArrived(run: seq<Link>, n: nat, m: nat)
    requires IsRun(run) && n < |run| && run[n].x.e.c.scheme.Spray? && DataCompleted(run[n].x, m)
    ensures var x := run[n].x;
            && m < |SendWcs(x.e.cq)| && (SendWcs(x.e.cq)[m].status == Success ==> MessageArrived(x, m))
            && ((forall i | i in x.failed :: i !in x.landed) ==> (MessageArrived(x, m) <==> !FailsData(x, m)))
  {
    RunInv(run, n);
    var x := run[n].x;
    CompletedIsSettled(x, m);
    if LosesData(x, m) { assert Fails(x, m); }
  }

  /** A message that needs a notify has finished at the sender only after its notify has been posted. */
  lemma FinishedIsNotified(run: seq<Link>, n: nat, m: nat)
    requires IsRun(run) && n < |run| && m < |SendWcs(run[n].x.e.cq)| && SendWcs(run[n].x.e.cq)[m].remaining == 0
    ensures var x := run[n].x;
            m < |x.e.send.msgs| && (SQ.NeedsNotify(x.e.c, x.e.send.msgs[m]) ==> m in SP.Notified(x.e.send.log))
  {
    RunInv(run, n);
    var x := run[n].x;
    Remaining(SP.SendLedger(x.e.c, x.e.send, SendWcs(x.e.cq), |x.e.cq.sendsOut|, x.h.sendDone, x.h.sendComps), m);
    CountDoneBound(x.e.send.log, x.h.sendDone, m);
    PendingHasLeft(x.e.c, x.e.send, m);
    assert SP.HandedOverOk(x.e.c, x.e.send, m);
  }

  /** The k-th notify is that of the k-th message that needs one. */
  lemma NotifiedInOrder(c: SQ.Config, s: SQ.SendState, k: nat)
    requires SP.Posting(c, s) && k < |SP.Notified(s.log)|
    ensures var order := SP.NotifyOrder(c, s.msgs, |s.msgs|);
            k < |order| && SP.Notified(s.log)[k] == order[k]
  {
    NotifyOrderPrefix(c, s.msgs, SP.HandedOver(s), |s.msgs|);
    assert (SP.Notified(s.log) + SP.MsgsOf(s.notifying))[k] == SP.Notified(s.log)[k];
  }

  lemma NotifiedIsSettled(x: Side, k: nat)
    requires SideInv(x) && LandedOk(x) && k < |SP.Notified(x.e.send.log)|
    ensures x.e.c.scheme.Spray? && Settled(x, SP.Notified(x.e.send.log)[k])
  {
    var c, s := x.e.c, x.e.send;
    var m := SP.Notified(s.log)[k];
    var j := NotifiedAt(s.log, k);
    NotifiedNeeds(c, s, m);
    if m >= SP.HandedOver(s) { SP.NotNotifiedYet(c, s, m); }
    CompletedIsSettled(x, m);
  }

  lemma SprayDataHasNoImm(c: SQ.Config, s: SQ.SendState, i: nat)
    requires SP.Contents(c, s) && c.scheme.Spray? && i < |s.log| && s.log[i].qp.Data?
    ensures !HasImm(s.log, i)
  {
    assert SP.ContentOk(c, s, i);
  }

  lemma {:induction false} NotifyOrderPrefix(c: SQ.Config, msgs: seq<SendWr>, d: nat, d': nat)
    requires d <= d' <= |msgs|
    ensures SP.NotifyOrder(c, msgs, d) <= SP.NotifyOrder(c, msgs, d')
    decreases d'
  {
    if d < d' { NotifyOrderPrefix(c, msgs, d, d' - 1); }
  }

  /** The first k + 1 notifies are those of the first k + 1 messages that need one, and what holds of one holds of all these. */
  lemma NotifiedThrough(run: seq<Link>, n: nat, k: nat)
    requires IsRun(run) && n < |run| && k < |SP.Notified(run[n].x.e.send.log)|
    ensures var x := run[n].x;
            var order := SP.NotifyOrder(x.e.c, x.e.send.msgs, |x.e.send.msgs|);
            && k < |order| && SP.Notified(x.e.send.log)[k] == order[k] && (forall j | 0 <= j <= k :: Settled(x, order[j]))
            && (forall i, j | 0 <= i < j < |order| :: order[i] < order[j])
            && forall m: nat :: m in order <==> m < |x.e.send.msgs| && x.e.send.msgs[m].opcode.RdmaWriteWithImm? && x.e.c.scheme.Spray?
  {
    SP.NotifyOrderIn(run[n].x.e.c, run[n].x.e.send.msgs, |run[n].x.e.send.msgs|);
    var x := run[n].x;
    var order := SP.NotifyOrder(x.e.c, x.e.send.msgs, |x.e.send.msgs|);
    NotifiesAreSafe(run, n, k);
    forall j: nat | j <= k ensures Settled(x, order[j]) { NotifiesAreSafe(run, n, j); }
  }

  /**
   * SPRAY, end to end: the k-th receive of y has completed with success exactly when the k-th notify has
   * been handled. By then the chunks of the first k messages that need a notify have all completed, each of
   * these messages has arrived unless a chunk of it was lost, and the receive carries the k-th one's immediate.
   */
  lemma SprayReceivesAreSafe(run: seq<Link>, n: nat, k: nat)
    requires IsRun(run) && n < |run| && run[n].x.e.c.scheme.Spray? && k < |RecvWcs(run[n].y.e.cq)|
    ensures var x, y := run[n].x, run[n].y;
            var order, w := SP.NotifyOrder(x.e.c, x.e.send.msgs, |x.e.send.msgs|), RecvWcs(y.e.cq)[k];
            && (w.remaining == 0 && w.status == Success <==> k < Received(y))
            && (k < Received(y) ==>
                  && k < |order| && (forall j | 0 <= j <= k :: Settled(x, order[j]))
                  && w.imm == x.e.send.msgs[order[k]].imm)
  {
    RunInv(run, n);
    NthReceive(run[n].x, run[n].y, k);
    if k < Received(run[n].y) { NotifiedThrough(run, n, k); }
  }

  lemma {:induction false} AbsorbedNth(comps: seq<Completion>, k: nat)
    requires forall i: nat | i < |comps| :: comps[i].msg == i
    ensures Absorbed(comps, k) == if k < |comps| then [comps[k].wc] else []
  {
    if comps != [] { AbsorbedNth(comps[..|comps| - 1], k); }
  }

  lemma NthReceive(x: Side, y: Side, k: nat)
    requires Inv(y.e, y.h) && y.e.c.scheme.Spray? && NotifiesMatch(x, y) && k < |RecvWcs(y.e.cq)|
    ensures RecvWcs(y.e.cq)[k].remaining == 0 && RecvWcs(y.e.cq)[k].status == Success <==> k < Received(y)
    ensures k < Received(y) ==>
      && k < |SP.Notified(x.e.send.log)| && SP.Notified(x.e.send.log)[k] < |x.e.send.msgs|
      && RecvWcs(y.e.cq)[k].imm == x.e.send.msgs[SP.Notified(x.e.send.log)[k]].imm
  {
    var l := RQ.RecvLedger(y.e.c, y.e.recv, RecvWcs(y.e.cq), |y.e.cq.recvsOut|, y.h.recvDone, y.h.recvComps);
    Remaining(l, k);
    assert Balanced(l, k);
    FoldMeaning(l.initial[k], Absorbed(y.h.recvComps, k));
    forall i: nat | i < |y.h.recvComps| ensures y.h.recvComps[i].msg == i { assert ReceiveOk(x, y, i); }
    AbsorbedNth(y.h.recvComps, k);
    if k < |y.h.recvComps| { assert ReceiveOk(x, y, k); }
  }

  // ---------------------------------------------------------------- DQPLB

  /** The messages that carry sequence numbers are the DQPLB writes with immediate. */
  ghost predicate Sequenced(x: Side, m: nat)
    requires m < |x.e.send.msgs|
  {
    x.e.send.msgs[m].opcode.RdmaWriteWithImm? && x.e.c.scheme.Dqplb?
  }

  /** Message m and all earlier messages that carry sequence numbers have completely arrived. */
  ghost predicate ArrivedThrough(x: Side, m: nat) {
    forall k: nat | k <= m && k < |x.e.send.msgs| && Sequenced(x, k) :: MessageArrived(x, k)
  }

  /** How many of the first `m` messages carry sequence numbers and have arrived with all earlier ones. */
  ghost function CountThrough(x: Side, m: nat): nat
    requires m <= |x.e.send.msgs|
  {
    if m == 0 then 0
    else CountThrough(x, m - 1) + if Sequenced(x, m - 1) && ArrivedThrough(x, m - 1) then 1 else 0
  }

  /** All chunks of message m are among these posts. */
  ghost predicate FullIn(c: SQ.Config, msgs: seq<SendWr>, log: seq<Posted<PhysicalSend>>, m: nat)
    requires c.Valid() && m < |msgs|
  {
    SQ.CarriesSequence(c, msgs[m]) && CountMsg(log, m) == SQ.Chunks(msgs[m].length, c.maxMsgSize)
  }

  ghost function CountFull(c: SQ.Config, msgs: seq<SendWr>, log: seq<Posted<PhysicalSend>>, m: nat): nat
    requires c.Valid() && m <= |msgs|
  {
    if m == 0 then 0 else CountFull(c, msgs, log, m - 1) + if FullIn(c, msgs, log, m - 1) then 1 else 0
  }

  lemma {:induction false} CountFullAppend(c: SQ.Config, s: SQ.SendState, i: nat, m: nat)
    requires SP.Contents(c, s) && c.scheme.Dqplb? && i < |s.log| && m <= |s.msgs|
    ensures CountFull(c, s.msgs, s.log[..i + 1], m) == CountFull(c, s.msgs, s.log[..i], m)
              + if s.log[i].msg < m && SP.IsSequenced(s.log[i]) && SeqLast(s.log, i) then 1 else 0
  {
    if m > 0 {
      CountFullAppend(c, s, i, m - 1);
      assert SP.ContentOk(c, s, i);
      assert s.log[..i] + [s.log[i]] == s.log[..i + 1];
      CountMsgAppend(s.log[..i], s.log[i], m - 1);
      SequencedExactly(c, s, i);
    }
  }

  /** In DQPLB the posts of a message that carries sequence numbers are the sequenced ones, its last chunk flagged. */
  lemma SequencedExactly(c: SQ.Config, s: SQ.SendState, i: nat)
    requires SP.Contents(c, s) && c.scheme.Dqplb? && i < |s.log|
    ensures s.log[i].msg < |s.msgs| && s.log[i].qp.Data?
    ensures SP.IsSequenced(s.log[i]) <==> SQ.CarriesSequence(c, s.msgs[s.log[i].msg])
    ensures SP.IsSequenced(s.log[i]) ==>
      (SeqLast(s.log, i) <==> CountMsg(s.log[..i], s.log[i].msg) + 1 == SQ.Chunks(s.msgs[s.log[i].msg].length, c.maxMsgSize))
    ensures CountMsg(s.log[..i], s.log[i].msg) < SQ.Chunks(s.msgs[s.log[i].msg].length, c.maxMsgSize)
  {
    assert SP.ContentOk(c, s, i);
    var m := s.log[i].msg;
    Seq.ImmRoundTrip(Seq.Residue(SeqOf(s.log, i)), CountMsg(s.log[..i], m) + 1 == SQ.Chunks(s.msgs[m].length, c.maxMsgSize));
  }

  lemma {:induction false} CountFullNone(c: SQ.Config, msgs: seq<SendWr>, m: nat)
    requires c.Valid() && m <= |msgs| && forall k | 0 <= k < |msgs| :: msgs[k].length >= 1
    ensures CountFull(c, msgs, [], m) == 0
  {
    if m > 0 {
      CountFullNone(c, msgs, m - 1);
      SP.ChunkArithmetic(msgs[m - 1].length, c.maxMsgSize, 0);
    }
  }

  lemma LastsAppend(before: seq<bool>, after: seq<bool>, more: seq<bool>)
    requires after == before + more && |more| <= 1
    ensures Seq.Lasts(after) == Seq.Lasts(before) + if more == [true] then 1 else 0
  {
    if more != [] { assert after[..|after| - 1] == before; }
  }

  /** The last-chunk bits among the first posts count the messages that are completely among them. */
  lemma {:induction false} LastsAreFull(c: SQ.Config, s: SQ.SendState, i: nat)
    requires SP.Contents(c, s) && SP.Posting(c, s) && c.scheme.Dqplb? && i <= |s.log|
    ensures Seq.Lasts(SP.Flags(s.log[..i])) == CountFull(c, s.msgs, s.log[..i], |s.msgs|)
  {
    if i == 0 {
      assert s.log[..0] == [];
      CountFullNone(c, s.msgs, |s.msgs|);
    } else {
      LastsAreFull(c, s, i - 1);
      CountFullAppend(c, s, i - 1, |s.msgs|);
      SequencedExactly(c, s, i - 1);
      assert s.log[..i - 1] + [s.log[i - 1]] == s.log[..i];
      var before, after := SP.Flags(s.log[..i - 1]), SP.Flags(s.log[..i]);
      SP.FlagsAppend(s.log[..i - 1], s.log[i - 1]);
      LastsAppend(before, after, if SP.IsSequenced(s.log[i - 1]) then [SeqLast(s.log, i - 1)] else []);
    }
  }

  /** The post that carries sequence number k. */
  lemma {:induction false} PostOfSeq(log: seq<Posted<PhysicalSend>>, k: nat) returns (p: nat)
    requires k < |SP.Flags(log)|
    ensures p < |log| && SP.IsSequenced(log[p]) && SeqOf(log, p) == k
  {
    var n := |log| - 1;
    if k < |SP.Flags(log[..n])| {
      p := PostOfSeq(log[..n], k);
      assert log[..n][..p] == log[..p];
    } else {
      p := n;
    }
  }

  /** `p` is where the posts beyond the delivered prefix begin: the post with the next number, or the end. */
  ghost predicate Frontier(x: Side, y: Side, p: nat) {
    && p <= |x.e.send.log| && SeqOf(x.e.send.log, p) == y.stream.next
    && (p < |x.e.send.log| ==> SP.IsSequenced(x.e.send.log[p]))
  }

  lemma FindFrontier(x: Side, y: Side) returns (p: nat)
    requires StreamMatches(x, y)
    ensures Frontier(x, y, p)
  {
    var log := x.e.send.log;
    assert log[..|log|] == log;
    if y.stream.next < |SP.Flags(log)| { p := PostOfSeq(log, y.stream.next); } else { p := |log|; }
  }

  /** Before the frontier every sequenced post has arrived; the frontier itself has not. */
  lemma FrontierSplits(x: Side, y: Side, p: nat, i: nat)
    requires LandedOk(x) && StreamMatches(x, y) && Frontier(x, y, p) && i < |x.e.send.log| && SP.IsSequenced(x.e.send.log[i])
    ensures i < p ==> i in Arrived(x)
    ensures i == p ==> i !in Arrived(x)
  {
    var log := x.e.send.log;
    assert HasImm(log, i);
    assert i in x.polled ==> SeqOf(log, i) in PolledSeqs(log, x.polled);
    if i < p {
      SeqBelow(log, i, p);
      var k := SeqOf(log, i);
      assert k in PolledSeqs(log, x.polled);
      var j :| j in x.polled && j < |log| && SP.IsSequenced(log[j]) && SeqOf(log, j) == k;
      SeqInjective(log, i, j);
    }
  }

  /** A message is completely before the frontier exactly when it and all earlier ones have arrived. */
  lemma FullBeforeFrontier(x: Side, y: Side, p: nat, m: nat)
    requires SideInv(x) && LandedOk(x) && x.e.c.scheme.Dqplb? && StreamMatches(x, y) && Frontier(x, y, p)
    requires m < |x.e.send.msgs| && SQ.CarriesSequence(x.e.c, x.e.send.msgs[m])
    ensures FullIn(x.e.c, x.e.send.msgs, x.e.send.log[..p], m) <==> ArrivedThrough(x, m)
  {
    if FullIn(x.e.c, x.e.send.msgs, x.e.send.log[..p], m) {
      FullMeansArrived(x, y, p, m);
    }
    if ArrivedThrough(x, m) {
      ArrivedMeansFull(x, y, p, m);
    }
  }

  lemma {:induction false} CountMsgTail(log: seq<Posted<PhysicalSend>>, p: nat, m: nat)
    requires p <= |log| && forall j: nat | p <= j < |log| :: log[j].msg != m
    ensures CountMsg(log[..p], m) == CountMsg(log, m)
  {
    if p < |log| {
      assert log[..|log| - 1][..p] == log[..p];
      CountMsgTail(log[..|log| - 1], p, m);
    } else {
      assert log[..p] == log;
    }
  }

  lemma CountMsgWhole(c: SQ.Config, s: SQ.SendState, m: nat)
    requires SP.Posting(c, s) && c.scheme.Dqplb? && m < |s.msgs|
    ensures CountMsg(s.log, m) <= SQ.Chunks(s.msgs[m].length, c.maxMsgSize)
    ensures CountMsg(s.log, m) == SQ.Chunks(s.msgs[m].length, c.maxMsgSize) <==> m < SP.HandedOver(s)
  {
    if m < SP.HandedOver(s) {
      assert SP.HandedOverOk(c, s, m);
      if m in SP.Notified(s.log) { NotifiedNeeds(c, s, m); }
    } else {
      assert SP.PendingOk(c, s, m - SP.HandedOver(s));
    }
  }

  /** No post of a message that is already full before p comes at or after p. */
  lemma NothingLeft(c: SQ.Config, s: SQ.SendState, p: nat, m: nat, j: nat)
    requires SP.Posting(c, s) && SP.Contents(c, s) && c.scheme.Dqplb? && p <= |s.log| && m < |s.msgs|
    requires FullIn(c, s.msgs, s.log[..p], m) && p <= j < |s.log|
    ensures s.log[j].msg != m
  {
    if s.log[j].msg == m {
      SequencedExactly(c, s, j);
      assert s.log[..j][..p] == s.log[..p];
      CountMsgPrefix(s.log[..j], p, m);
    }
  }

  /** Some post before p belongs to a message that is full there. */
  lemma {:induction false} SomePost(log: seq<Posted<PhysicalSend>>, m: nat) returns (i: nat)
    requires CountMsg(log, m) > 0
    ensures i < |log| && log[i].msg == m
  {
    var n := |log| - 1;
    if log[n].msg == m { i := n; } else { i := SomePost(log[..n], m); }
  }

  lemma FullMeansArrived(x: Side, y: Side, p: nat, m: nat)
    requires SideInv(x) && LandedOk(x) && x.e.c.scheme.Dqplb? && StreamMatches(x, y) && Frontier(x, y, p)
    requires m < |x.e.send.msgs| && FullIn(x.e.c, x.e.send.msgs, x.e.send.log[..p], m)
    ensures ArrivedThrough(x, m)
  {
    var c, s := x.e.c, x.e.send;
    SP.ChunkArithmetic(s.msgs[m].length, c.maxMsgSize, 0);
    CountMsgPrefix(s.log, p, m);
    CountMsgWhole(c, s, m);
    var first := SomePost(s.log[..p], m);
    forall k: nat, i: nat | k <= m && k < |s.msgs| && SQ.CarriesSequence(c, s.msgs[k]) && i < |s.log| && s.log[i].msg == k
      ensures i in Arrived(x)
    {
      SequencedExactly(c, s, i);
      SequencedExactly(c, s, first);
      if i >= p {
        NothingLeft(c, s, p, m, i);
      } else {
        FrontierSplits(x, y, p, i);
      }
    }
  }

  lemma ArrivedMeansFull(x: Side, y: Side, p: nat, m: nat)
    requires SideInv(x) && LandedOk(x) && x.e.c.scheme.Dqplb? && StreamMatches(x, y) && Frontier(x, y, p)
    requires m < |x.e.send.msgs| && SQ.CarriesSequence(x.e.c, x.e.send.msgs[m]) && ArrivedThrough(x, m)
    ensures FullIn(x.e.c, x.e.send.msgs, x.e.send.log[..p], m)
  {
    assert Sequenced(x, m);
    CountMsgWhole(x.e.c, x.e.send, m);
    forall j: nat | p <= j < |x.e.send.log| ensures x.e.send.log[j].msg != m { PastFrontier(x, y, p, m, j); }
    CountMsgTail(x.e.send.log, p, m);
  }

  /** A message that has arrived with all earlier ones has no post at or past the frontier. */
  lemma PastFrontier(x: Side, y: Side, p: nat, m: nat, j: nat)
    requires SP.Contents(x.e.c, x.e.send) && DataOrdered(x.e.send) && LandedOk(x) && x.e.c.scheme.Dqplb? && StreamMatches(x, y)
    requires Frontier(x, y, p) && m < |x.e.send.msgs| && ArrivedThrough(x, m) && p <= j < |x.e.send.log|
    ensures x.e.send.log[j].msg != m
  {
    var c, s := x.e.c, x.e.send;
    SequencedExactly(c, s, p);
    SequencedExactly(c, s, j);
    FrontierSplits(x, y, p, p);
    assert Sequenced(x, s.log[p].msg);
  }

  lemma {:induction false} CountsAgree(x: Side, y: Side, p: nat, m: nat)
    requires SideInv(x) && LandedOk(x) && x.e.c.scheme.Dqplb? && StreamMatches(x, y) && Frontier(x, y, p) && m <= |x.e.send.msgs|
    ensures CountFull(x.e.c, x.e.send.msgs, x.e.send.log[..p], m) == CountThrough(x, m)
  {
    if m > 0 {
      CountsAgree(x, y, p, m - 1);
      if SQ.CarriesSequence(x.e.c, x.e.send.msgs[m - 1]) { FullBeforeFrontier(x, y, p, m - 1); }
    }
  }

  /**
   * DQPLB, end to end: for every interleaving of in-order deliveries on the QPs, and whichever posts fail, the
   * notifies reported so far are exactly the messages whose chunks, and all earlier messages' chunks, have all
   * arrived; as long as no receive has failed.
   */
  lemma DqplbNotifiesExactly(run: seq<Link>, n: nat)
    requires IsRun(run) && n < |run| && run[n].x.e.c.scheme.Dqplb? && run[n].y.flushed == []
    ensures run[n].y.h.notified == CountThrough(run[n].x, |run[n].x.e.send.msgs|)
  {
    RunInv(run, n);
    NotifiedIsCount(run[n].x, run[n].y);
  }

  lemma NotifiedIsCount(x: Side, y: Side)
    requires SideInv(x) && LandedOk(x) && x.e.c.scheme.Dqplb? && StreamMatches(x, y)
    ensures y.h.notified == CountThrough(x, |x.e.send.msgs|)
  {
    var p := FindFrontier(x, y);
    var bits := SP.Flags(x.e.send.log);
    assert x.e.send.log[..|x.e.send.log|] == x.e.send.log;
    FlagsPrefix(x.e.send.log[..p], x.e.send.log);
    assert bits[..y.stream.next] == SP.Flags(x.e.send.log[..p]);
    LastsAreFull(x.e.c, x.e.send, p);
    CountsAgree(x, y, p, |x.e.send.msgs|);
  }

  /** What a failed receive claims is only set aside, and nothing is reported. */
  ghost predicate SetAside(y: Side, y': Side, imm: nat) {
    && y'.e.recv.tracker == y.e.recv.tracker.(parked := y.e.recv.tracker.parked[Seq.ImmSequence(imm) := Seq.ImmLast(imm)])
    && y'.h.notified == y.h.notified
  }

  /**
   * The first failed receive of a DQPLB side counts as the arrival of the number that its immediate reads, 0
   * for a completion that carries none. The claim is only set aside, and nothing is reported, if and only if
   * that is not the number expected next.
   */
  lemma FailedReceiveIff(run: seq<Link>, n: nat, l': Link, r: nat, p: PhysicalWc)
    requires IsRun(run) && n < |run| && run[n].x.e.c.scheme.Dqplb? && run[n].x.flushed == []
    requires Flushes(run[n], l', r, p)
    ensures var imm := if p.opcode.WcRecvRdmaWithImm? then p.imm else 0;
            SetAside(run[n].x, l'.x, imm) <==> Seq.ImmSequence(imm) != run[n].x.e.recv.tracker.next
  {
    RunInv(run, n);
    FlushSetsAsideIff(run[n].y, run[n].x, l'.x, r, p);
  }

  lemma FlushSetsAsideIff(x: Side, y: Side, y': Side, r: nat, p: PhysicalWc)
    requires StreamMatches(x, y) && Inv(y.e, y.h) && y.e.c.scheme.Dqplb? && CompletesReceive(y, y', r, p)
    ensures var imm := if p.opcode.WcRecvRdmaWithImm? then p.imm else 0;
            SetAside(y, y', imm) <==> Seq.ImmSequence(imm) != y.e.recv.tracker.next
  {
    ReceiveTracks(y, y', r, p);
    NextIsMissing(x, y);
    Seq.ParkedIff(y.e.recv.tracker, if p.opcode.WcRecvRdmaWithImm? then p.imm else 0);
  }

  lemma NextIsMissing(x: Side, y: Side)
    requires StreamMatches(x, y)
    ensures y.e.recv.tracker.next !in y.e.recv.tracker.parked
  {
    var w, u := y.e.recv.tracker, y.stream;
    if w.next in w.parked {
      var k :| k in u.parked && Seq.Residue(k) == w.next;
      Seq.WindowInjective(u, k, u.next);
    }
  }

  /** How many of the first m messages carry sequence numbers. */
  ghost function Rank(x: Side, m: nat): nat
    requires m <= |x.e.send.msgs|
  {
    if m == 0 then 0 else Rank(x, m - 1) + if Sequenced(x, m - 1) then 1 else 0
  }

  lemma {:induction false} RankCounts(x: Side, m: nat, k: nat)
    requires m < |x.e.send.msgs| && SQ.CarriesSequence(x.e.c, x.e.send.msgs[m]) && m < k <= |x.e.send.msgs|
    ensures ArrivedThrough(x, m) <==> Rank(x, m) < CountThrough(x, k)
    ensures !ArrivedThrough(x, m) ==> CountThrough(x, k) <= Rank(x, m)
    decreases k
  {
    CountAtMostRank(x, m);
    if k == m + 1 {
      if ArrivedThrough(x, m) { AllBelowCount(x, m, m); }
    } else {
      RankCounts(x, m, k - 1);
    }
  }

  lemma {:induction false} CountAtMostRank(x: Side, m: nat)
    requires m <= |x.e.send.msgs|
    ensures CountThrough(x, m) <= Rank(x, m)
  {
    if m > 0 { CountAtMostRank(x, m - 1); }
  }

  lemma {:induction false} AllBelowCount(x: Side, m: nat, k: nat)
    requires m < |x.e.send.msgs| && ArrivedThrough(x, m) && k <= m
    ensures CountThrough(x, k) == Rank(x, k)
  {
    if k > 0 { AllBelowCount(x, m, k - 1); }
  }

  /** No notify of this side was ever reported with no receive left to finish. */
  ghost predicate Served(l: Side) {
    l.h.dropped == 0
  }

  /** DQPLB receives finish in post order, so a side that served every notify had a receive posted for each. */
  lemma ServedHasReceives(s: Side)
    requires Inv(s.e, s.h) && s.e.c.scheme.Dqplb? && Served(s)
    ensures s.h.notified <= |s.e.recv.wrs|
  {
  }

  /** Only the completion of a receive touches these two counts. */
  lemma CountsStay(l: Link, l': Link, step: Step)
    requires Acts(l, l', step)
    ensures !step.Flush? ==> l'.x.h.notified == l.x.h.notified && l'.x.h.dropped == l.x.h.dropped
    ensures step.Flush? ==> l'.x.h == AfterRecv(l.x.e, l.x.h, step.f, Passed(l.x.e.c, step.w))
    ensures !step.Receive? ==> l'.y == l.y
    ensures step.Receive? ==> l'.y.h == AfterRecv(l.y.e, l.y.h, step.r, Passed(l.y.e.c, step.q))
  {
  }

  lemma ReceiveKeepsConfig(y: Side, y': Side, r: nat, p: PhysicalWc)
    requires CompletesReceive(y, y', r, p)
    ensures y'.e.c == y.e.c
  {
  }

  lemma SendKeepsConfig(x: Side, e': Endpoint, i: nat, p: PhysicalWc)
    requires Ready(x.e) && i < |x.e.send.log| && (x.e.send.log[i].qp.Data? ==> x.e.send.log[i].qp.i < x.e.c.numQps)
    requires CompleteSend(x.e, x.e.send.log[i].qp, p) == Ok(e')
    ensures e'.c == x.e.c
  {
  }

  lemma ConfigStep(l: Link, l': Link, step: Step)
    requires Acts(l, l', step)
    ensures l'.x.e.c == l.x.e.c && l'.y.e.c == l.y.e.c
  {
    match step {
      case PostSend(wr) =>
      case PostRecv(wr) =>
      case Land(i) =>
      case Complete(i, p) => SendKeepsConfig(l.x, l'.x.e, i, p);
      case Receive(i, r, p) => ReceiveKeepsConfig(l.y, l'.y, r, p);
      case Flush(r, p) => ReceiveKeepsConfig(l.x, l'.x, r, p);
      case Poll(n) =>
    }
  }

  /** A completed receive drops a notify only by reporting more of them than receives were posted. */
  lemma ServedReceive(e: Endpoint, h: History, r: nat, p: PhysicalWc)
    requires Inv(e, h) && e.c.scheme.Dqplb? && ReportsRecv(e, h, r, p)
    ensures AfterRecv(e, h, r, p).dropped == 0 <==> h.dropped == 0 && AfterRecv(e, h, r, p).notified <= |e.recv.wrs|
  {
  }

  lemma ServedCompletes(y: Side, y': Side, r: nat, p: PhysicalWc)
    requires Inv(y.e, y.h) && y.e.c.scheme.Dqplb? && CompletesReceive(y, y', r, p)
    ensures Served(y') <==> Served(y) && y'.h.notified <= |y'.e.recv.wrs|
  {
    ServedReceive(y.e, y.h, r, Passed(y.e.c, p));
    CompleteRecvDqplb(y.e, y.h, r, Passed(y.e.c, p));
  }

  /** A step drops a notify only by reporting more of them than receives were posted. */
  lemma ServedByActor(l: Link, l': Link, step: Step)
    requires SideInv(l.x) && SideInv(l'.x) && Acts(l, l', step) && l.x.e.c.scheme.Dqplb? && l'.x.e.c == l.x.e.c
    ensures Served(l'.x) <==> Served(l.x) && l'.x.h.notified <= |l'.x.e.recv.wrs|
  {
    CountsStay(l, l', step);
    if step.Flush? {
      ServedCompletes(l.x, l'.x, step.f, step.w);
    } else if Served(l'.x) {
      ServedHasReceives(l'.x);
    }
  }

  lemma ServedByPeer(l: Link, l': Link, step: Step)
    requires SideInv(l.y) && SideInv(l'.y) && Acts(l, l', step) && l.y.e.c.scheme.Dqplb? && l'.y.e.c == l.y.e.c
    ensures Served(l'.y) <==> Served(l.y) && l'.y.h.notified <= |l'.y.e.recv.wrs|
  {
    CountsStay(l, l', step);
    if step.Receive? {
      ServedCompletes(l.y, l'.y, step.r, step.q);
    } else if Served(l'.y) {
      ServedHasReceives(l'.y);
    }
  }

  lemma ServedStep(l: Link, l': Link, step: Step)
    requires LinkInv(l) && LinkInv(l') && Acts(l, l', step) && l.x.e.c.scheme.Dqplb?
    ensures l'.x.e.c == l.x.e.c && l'.y.e.c == l.y.e.c
    ensures Served(l'.x) <==> Served(l.x) && l'.x.h.notified <= |l'.x.e.recv.wrs|
    ensures Served(l'.y) <==> Served(l.y) && l'.y.h.notified <= |l'.y.e.recv.wrs|
  {
    ConfigStep(l, l', step);
    ServedByActor(l, l', step);
    ServedByPeer(l, l', step);
  }

  /** At least as many receives have been posted at y as messages of x have arrived with all earlier ones. */
  ghost predicate EnoughNow(l: Link) {
    CountThrough(l.x, |l.x.e.send.msgs|) <= |l.y.e.recv.wrs|
  }

  /** At every moment up to state n. */
  ghost predicate EnoughReceives(run: seq<Link>, n: nat)
    requires n < |run|
  {
    EnoughNow(run[n]) && (n == 0 || EnoughReceives(run, n - 1))
  }

  lemma ServedEither(l: Link, l': Link)
    requires LinkInv(l) && LinkInv(l') && Next(l, l') && (l.x.e.c.scheme.Dqplb? || l'.x.e.c.scheme.Dqplb?)
    ensures l'.x.e.c == l.x.e.c
    ensures Served(l'.y) <==> Served(l.y) && l'.y.h.notified <= |l'.y.e.recv.wrs|
  {
    var step :| Acts(l, l', step) || Acts(Swap(l), Swap(l'), step);
    if Acts(l, l', step) {
      ConfigStep(l, l', step);
      ServedStep(l, l', step);
    } else {
      ConfigStep(Swap(l), Swap(l'), step);
      ServedStep(Swap(l), Swap(l'), step);
    }
  }

  /** What one step to state n does to whether y has served every notify. */
  ghost predicate ServedFollows(run: seq<Link>, n: nat)
    requires 0 < n < |run|
  {
    Served(run[n].y) <==> Served(run[n - 1].y) && EnoughNow(run[n])
  }

  lemma ServedNext(run: seq<Link>, n: nat)
    requires IsRun(run) && 0 < n < |run| && run[n].x.e.c.scheme.Dqplb? && run[n].y.flushed == []
    ensures ServedFollows(run, n)
  {
    DqplbNotifiesExactly(run, n);
    RunInv(run, n - 1);
    RunInv(run, n);
    assert Next(run[n - 1], run[n - 1 + 1]);
    ServedEither(run[n - 1], run[n]);
  }

  lemma ConfigNext(l: Link, l': Link)
    requires Next(l, l')
    ensures l'.x.e.c == l.x.e.c
  {
    var step :| Acts(l, l', step) || Acts(Swap(l), Swap(l'), step);
    if Acts(l, l', step) { ConfigStep(l, l', step); } else { ConfigStep(Swap(l), Swap(l'), step); }
  }

  ghost predicate SameConfig(run: seq<Link>, n: nat)
    requires 0 < n < |run|
  {
    run[n].x.e.c == run[n - 1].x.e.c
  }

  lemma ConfigAt(run: seq<Link>, n: nat)
    requires IsRun(run) && 0 < n < |run|
    ensures SameConfig(run, n)
  {
    assert Next(run[n - 1], run[n - 1 + 1]);
    ConfigNext(run[n - 1], run[n]);
  }

  lemma {:induction false} ConfigBetween(run: seq<Link>, i: nat, n: nat)
    requires i <= n < |run| && forall j: nat | 0 < j < |run| :: SameConfig(run, j)
    ensures run[i].x.e.c == run[n].x.e.c
    decreases n
  {
    if i < n {
      ConfigBetween(run, i, n - 1);
      assert SameConfig(run, n);
    }
  }

  /** The configuration of an endpoint never changes. */
  lemma ConfigStays(run: seq<Link>, i: nat, n: nat)
    requires IsRun(run) && i <= n < |run|
    ensures run[i].x.e.c == run[n].x.e.c
  {
    forall j: nat | 0 < j < |run| ensures SameConfig(run, j) { ConfigAt(run, j); }
    ConfigBetween(run, i, n);
  }

  lemma {:induction false} ServedSoFar(run: seq<Link>, n: nat)
    requires n < |run| && Served(run[0].y) && EnoughNow(run[0])
    requires forall i: nat | 0 < i <= n :: ServedFollows(run, i)
    ensures Served(run[n].y) <==> EnoughReceives(run, n)
  {
    if n > 0 {
      ServedSoFar(run, n - 1);
      assert ServedFollows(run, n);
    }
  }

  lemma ServedFirst(l: Link)
    requires Initial(l)
    ensures Served(l.y) && EnoughNow(l)
  {
  }

  lemma FlushedNext(l: Link, l': Link)
    requires Next(l, l')
    ensures |l.y.flushed| <= |l'.y.flushed|
  {
    var step :| Acts(l, l', step) || Acts(Swap(l), Swap(l'), step);
  }

  ghost predicate FlushedGrows(run: seq<Link>, n: nat)
    requires 0 < n < |run|
  {
    |run[n - 1].y.flushed| <= |run[n].y.flushed|
  }

  lemma FlushedAt(run: seq<Link>, n: nat)
    requires IsRun(run) && 0 < n < |run|
    ensures FlushedGrows(run, n)
  {
    assert Next(run[n - 1], run[n - 1 + 1]);
    FlushedNext(run[n - 1], run[n]);
  }

  lemma {:induction false} FlushedBetween(run: seq<Link>, i: nat, n: nat)
    requires i <= n < |run| && forall j: nat | 0 < j < |run| :: FlushedGrows(run, j)
    ensures |run[i].y.flushed| <= |run[n].y.flushed|
    decreases n
  {
    if i < n {
      FlushedBetween(run, i, n - 1);
      assert FlushedGrows(run, n);
    }
  }

  /** A failed receive is never taken back. */
  lemma FlushedStays(run: seq<Link>, i: nat, n: nat)
    requires IsRun(run) && i <= n < |run|
    ensures |run[i].y.flushed| <= |run[n].y.flushed|
  {
    forall j: nat | 0 < j < |run| ensures FlushedGrows(run, j) { FlushedAt(run, j); }
    FlushedBetween(run, i, n);
  }

  /** A notify is lost for want of a receive exactly when, at some moment, fewer receives than notifies had been posted. */
  lemma ServedExactly(run: seq<Link>, n: nat)
    requires IsRun(run) && n < |run| && run[n].x.e.c.scheme.Dqplb? && run[n].y.flushed == []
    ensures Served(run[n].y) <==> EnoughReceives(run, n)
  {
    ServedFirst(run[0]);
    forall i: nat | 0 < i <= n ensures ServedFollows(run, i) {
      ConfigStays(run, i, n);
      FlushedStays(run, i, n);
      ServedNext(run, i);
    }
    ServedSoFar(run, n);
  }

  /**
   * With enough posted receives, the r-th receive has completed exactly when the r-th sequenced message and
   * all earlier ones have completely arrived.
   */
  lemma DqplbReceivesExactly(run: seq<Link>, n: nat, m: nat)
    requires IsRun(run) && n < |run| && run[n].x.e.c.scheme.Dqplb? && run[n].y.flushed == [] && EnoughReceives(run, n)
    requires m < |run[n].x.e.send.msgs| && run[n].x.e.send.msgs[m].opcode.RdmaWriteWithImm?
    requires Rank(run[n].x, m) < |RecvWcs(run[n].y.e.cq)|
    ensures RecvWcs(run[n].y.e.cq)[Rank(run[n].x, m)].remaining == 0 <==> ArrivedThrough(run[n].x, m)
  {
    RunInv(run, n);
    ServedExactly(run, n);
    DqplbNotifiesExactly(run, n);
    ReceiveAtRank(run[n].x, run[n].y, m);
  }

  lemma ReceiveAtRank(x: Side, y: Side, m: nat)
    requires m < |x.e.send.msgs| && SQ.CarriesSequence(x.e.c, x.e.send.msgs[m])
    requires DqplbRecvs(y.e, y.h) && Served(y) && y.h.notified == CountThrough(x, |x.e.send.msgs|)
    requires Rank(x, m) < |RecvWcs(y.e.cq)|
    ensures RecvWcs(y.e.cq)[Rank(x, m)].remaining == 0 <==> ArrivedThrough(x, m)
  {
    RankCounts(x, m, |x.e.send.msgs|);
  }
}
