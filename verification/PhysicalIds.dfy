/** The ids of physical work requests: one counter numbers the sends and the receives of a virtual QP together. */
module PhysicalIds {
  import opened Verbs
  import opened CompletionQueue
  import opened Endpoints
  import opened Links
  import SQ = SendQueue
  import RQ = RecvQueue

  type Sends = seq<Posted<PhysicalSend>>
  type Recvs = seq<Posted<PhysicalRecv>>

  /** No two posts have the same id, and the next post's id is still free. */
  ghost predicate Unique(sends: Sends, recvs: Recvs) {
    && (forall i | 0 <= i < |sends| :: sends[i].status.physicalWrId < |sends| + |recvs|)
    && (forall i | 0 <= i < |recvs| :: recvs[i].status.physicalWrId < |sends| + |recvs|)
    && (forall i, j | 0 <= i < j < |sends| :: sends[i].status.physicalWrId != sends[j].status.physicalWrId)
    && (forall i, j | 0 <= i < j < |recvs| :: recvs[i].status.physicalWrId != recvs[j].status.physicalWrId)
    && forall i, j | 0 <= i < |sends| && 0 <= j < |recvs| :: sends[i].status.physicalWrId != recvs[j].status.physicalWrId
  }

  lemma {:induction false} SendsUnique(c: SQ.Config, s: SQ.SendState, hint: int, recvs: Recvs)
    requires SQ.Sendable(c, s) && c.Valid() && |s.queues| == c.numQps && s.nextQp < c.numQps && -1 <= hint < c.numQps
    requires Unique(s.log, recvs)
    ensures Unique(SQ.MapPending(c, s, |recvs|, hint).log, recvs)
    decreases |s.pending|, SQ.FrontLeft(s), SQ.Slots(c, s.queues, hint)
  {
    if s.pending != [] {
      var (q, next, hint') := SQ.ChooseQp(c, s, hint);
      if q != -1 {
        SQ.PostingStep(c, s, |recvs|, hint);
        SendsUnique(c, SQ.PostChunk(c, s.(nextQp := next), |recvs|, q), hint', recvs);
      }
    }
  }

  lemma {:induction false} RecvsUnique(c: SQ.Config, r: RQ.RecvState, hint: int, sends: Sends)
    requires RQ.Receivable(c, r) && c.Valid() && c.scheme.Spray? && |r.queues| == c.numQps && Unique(sends, r.log)
    ensures Unique(sends, RQ.MapPending(c, r, |sends|, hint).log)
    decreases |r.pending|, RQ.FrontLeft(r), RQ.Slots(c, r, hint)
  {
    if r.pending != [] {
      if r.pending[0].wr.numSge == 0 {
        RQ.NoticeStep(c, r, |sends|, hint);
        RecvsUnique(c, RQ.PostNotifyRecv(c, r, |sends|, Notify), hint, sends);
      } else if hint == 0 || SQ.HasRoom(|r.queues[0]|, c.limit) {
        RQ.ChunkStep(c, r, |sends|, hint);
        PostChunkUnique(c, r, sends);
        RecvsUnique(c, RQ.PostChunk(c, r, |sends|), -1, sends);
      }
    }
  }

  lemma PostChunkUnique(c: SQ.Config, r: RQ.RecvState, sends: Sends)
    requires r.pending != [] && |r.queues| > 0 && r.pending[0].offset <= r.pending[0].wr.length && Unique(sends, r.log)
    ensures Unique(sends, RQ.PostChunk(c, r, |sends|).log)
  {
  }

  lemma {:induction false} RoundUnique(r: RQ.RecvState, sends: Sends, j: nat)
    requires j <= |r.queues| && Unique(sends, r.log)
    ensures Unique(sends, RQ.InitRound(r, |sends|, j).log)
    decreases |r.queues| - j
  {
    if j < |r.queues| { RoundUnique(RQ.AddPost(r, |sends|, Data(j), -1, 0, PhysicalRecv(0, 0, 0)), sends, j + 1); }
  }

  lemma {:induction false} RoundsUnique(r: RQ.RecvState, sends: Sends, rounds: int)
    requires Unique(sends, r.log)
    ensures Unique(sends, RQ.InitRounds(r, |sends|, rounds).log)
    decreases rounds
  {
    if rounds > 0 {
      RoundUnique(r, sends, 0);
      RoundsUnique(RQ.InitRound(r, |sends|, 0), sends, rounds - 1);
    }
  }

  ghost predicate IdsOk(e: Endpoint) { Unique(e.send.log, e.recv.log) }

  lemma PostSendUnique(e: Endpoint, wr: SendWr)
    requires Ready(e) && IdsOk(e) && SQ.LoopEnds(e.c, wr) && Endpoints.PostSend(e, wr).Ok?
    ensures IdsOk(Endpoints.PostSend(e, wr).value)
  {
    EnqueueSendable(e.c, e.send, wr);
    SendsUnique(e.c, SQ.Enqueue(e.c, e.send, wr), -1, e.recv.log);
  }

  lemma PostRecvUnique(e: Endpoint, wr: RecvWr)
    requires Ready(e) && IdsOk(e) && (e.c.scheme.Spray? && wr.numSge <= 1 ==> RQ.LoopEnds(e.c, wr)) && Endpoints.PostRecv(e, wr).Ok?
    ensures IdsOk(Endpoints.PostRecv(e, wr).value)
  {
    var r := RQ.Enqueue(e.c, e.recv, wr);
    if e.c.scheme.Spray? {
      EnqueueReceivable(e.c, e.recv, wr);
      RecvsUnique(e.c, r, -1, e.send.log);
    } else if !e.recv.ready {
      RoundsUnique(r, e.send.log, e.c.limit);
    }
  }

  lemma CompleteSendUnique(e: Endpoint, qp: QpRef, wc: PhysicalWc)
    requires Ready(e) && IdsOk(e) && (qp.Data? ==> qp.i < e.c.numQps) && CompleteSend(e, qp, wc).Ok?
    ensures IdsOk(CompleteSend(e, qp, wc).value)
  {
    var s1 := SQ.PopStatus(e.send, qp);
    if qp.Data? { SendsUnique(e.c, s1, qp.i, e.recv.log); }
    var s2 := if qp.Data? then SQ.MapPending(e.c, s1, |e.recv.log|, qp.i) else s1;
    if s2.notifying != [] { NotifyUnique(s2, e.recv.log); }
  }

  lemma NotifyUnique(s: SQ.SendState, recvs: Recvs)
    requires s.notifying != [] && Unique(s.log, recvs)
    ensures Unique(SQ.PostNotify(s, |recvs|).log, recvs)
  {
  }

  lemma CompleteRecvUnique(e: Endpoint, qp: QpRef, wc: PhysicalWc)
    requires Ready(e) && IdsOk(e) && (qp.Data? ==> qp.i < e.c.numQps) && CompleteRecv(e, qp, wc).Ok?
    ensures IdsOk(CompleteRecv(e, qp, wc).value)
  {
    if e.c.scheme.Spray? && qp.Data? { RecvsUnique(e.c, RQ.PopStatus(e.recv, qp), qp.i, e.send.log); }
  }

  lemma StepUnique(l: Link, l': Link, step: Step)
    requires Acts(l, l', step) && IdsOk(l.x.e) && IdsOk(l.y.e)
    ensures IdsOk(l'.x.e) && IdsOk(l'.y.e)
  {
    match step
    case PostSend(wr) => PostSendUnique(l.x.e, wr);
    case PostRecv(wr) => PostRecvUnique(l.x.e, wr);
    case Complete(i, p) => CompleteSendUnique(l.x.e, l.x.e.send.log[i].qp, p);
    case Receive(i, r, p) => CompleteRecvUnique(l.y.e, l.y.e.recv.log[r].qp, Passed(l.y.e.c, p));
    case Flush(r, p) => CompleteRecvUnique(l.x.e, l.x.e.recv.log[r].qp, Passed(l.x.e.c, p));
    case Land(i) =>
    case Poll(n) =>
  }

  /** In every state of every run the ids of all posts of a virtual QP are different. */
  lemma {:induction false} RunUnique(run: seq<Link>, n: nat)
    requires IsRun(run) && n < |run|
    ensures IdsOk(run[n].x.e) && IdsOk(run[n].y.e)
  {
    if n > 0 {
      RunUnique(run, n - 1);
      assert Next(run[n - 1], run[n - 1 + 1]);
      NextUnique(run[n - 1], run[n]);
    }
  }

  lemma NextUnique(l: Link, l': Link)
    requires Next(l, l') && IdsOk(l.x.e) && IdsOk(l.y.e)
    ensures IdsOk(l'.x.e) && IdsOk(l'.y.e)
  {
    var step :| Acts(l, l', step) || Acts(Swap(l), Swap(l'), step);
    if Acts(l, l', step) { StepUnique(l, l', step); } else { StepUnique(Swap(l), Swap(l'), step); }
  }
}
