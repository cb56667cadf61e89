/**
 * The virtual QP as the object it is: deques, counters and physical QPs updated in place by loops. Every
 * method is tied to the operations on values in SendQueue and RecvQueue.
 */
module VirtualQp {
  import opened Verbs
  import SQ = SendQueue
  import Endpoints
  import RQ = RecvQueue
  import Seq = SeqTracker

  /** A physical QP: its number and the requests outstanding on it. */
  class IbvQp {
    const qpNum: nat
    var physicalSendWrStatus: seq<WrStatus>
    var physicalRecvWrStatus: seq<WrStatus>

    constructor (qpNum: nat)
      ensures this.qpNum == qpNum && physicalSendWrStatus == [] && physicalRecvWrStatus == []
    {
      this.qpNum, physicalSendWrStatus, physicalRecvWrStatus := qpNum, [], [];
    }
  }

  ghost function NoSends(n: nat): SQ.SendState { SQ.SendState([], [], seq(n, i => []), [], 0, 0, [], []) }

  ghost function NoRecvs(n: nat): RQ.RecvState {
    RQ.RecvState([], seq(n, i => []), [], Seq.Receiver(0, map[]), false, [], [])
  }

  datatype VirtualQpResponse = VirtualQpResponse(virtualWrId: int, notifyCount: nat)

  class IbvVirtualQp {
    const physicalQps: seq<IbvQp>
    const notifyQp: IbvQp
    const maxMsgCntPerQp: int
    const maxMsgSize: nat
    const loadBalancingScheme: Scheme
    const dqplbSeqTracker: Seq.DqplbSeqTracker
    const qpNumToIdx: map<nat, nat>
    var pendingSendVirtualWrQue: seq<SQ.VirtualSendWr>
    var pendingSendNotifyVirtualWrQue: seq<SQ.VirtualSendWr>
    var pendingRecvVirtualWrQue: seq<RQ.VirtualRecvWr>
    var nextSendPhysicalQpIdx: nat
    var nextPhysicalWrId: nat
    var dqplbReceiverInitialized: bool
    /** How many sends and receives were accepted; they number the messages, and no branch reads them. */
    var acceptedSends: nat
    var acceptedRecvs: nat
    /** What the fields stand for, together with the history of posts. */
    ghost var send: SQ.SendState
    ghost var recv: RQ.RecvState

    ghost function Config(): SQ.Config {
      SQ.Config(loadBalancingScheme, maxMsgCntPerQp, maxMsgSize, |physicalQps|)
    }

    ghost function Repr(): set<object> {
      {this, notifyQp, dqplbSeqTracker} + set q | q in physicalQps
    }

    ghost predicate Valid()
      reads this, dqplbSeqTracker, notifyQp, physicalQps
    {
      && Fields() && Numbered(physicalQps, notifyQp, qpNumToIdx)
      && Tracks(dqplbSeqTracker, send, recv)
      && QpsHold(physicalQps, notifyQp, send, recv)
      && Usable(Config(), send, recv)
    }

    ghost predicate Fields()
      reads this
    {
      && pendingSendVirtualWrQue == send.pending && pendingSendNotifyVirtualWrQue == send.notifying
      && nextSendPhysicalQpIdx == send.nextQp && acceptedSends == |send.msgs|
      && pendingRecvVirtualWrQue == recv.pending && dqplbReceiverInitialized == recv.ready && acceptedRecvs == |recv.wrs|
      && nextPhysicalWrId == |send.log| + |recv.log|
    }

    /** The number of a QP leads back to it, and the notify QP's number to none of the data QPs. */
    static ghost predicate Numbered(qps: seq<IbvQp>, notifyQp: IbvQp, qpNumToIdx: map<nat, nat>) {
      && (forall i | 0 <= i < |qps| :: qps[i].qpNum in qpNumToIdx && qpNumToIdx[qps[i].qpNum] == i)
      && (forall i | 0 <= i < |qps| :: qps[i] != notifyQp && qps[i].qpNum != notifyQp.qpNum)
      && (forall num | num in qpNumToIdx :: qpNumToIdx[num] < |qps|)
    }

    static ghost predicate Tracks(tracker: Seq.DqplbSeqTracker, send: SQ.SendState, recv: RQ.RecvState)
      reads tracker
    {
      tracker.sendNext == send.sendNext && tracker.View() == recv.tracker
    }

    static ghost predicate QpsHold(qps: seq<IbvQp>, notifyQp: IbvQp, send: SQ.SendState, recv: RQ.RecvState)
      reads qps, notifyQp
    {
      && |qps| == |send.queues| == |recv.queues|
      && (forall i | 0 <= i < |qps| :: qps[i].physicalSendWrStatus == send.queues[i])
      && (forall i | 0 <= i < |qps| :: qps[i].physicalRecvWrStatus == recv.queues[i])
      && notifyQp.physicalSendWrStatus == send.notifyQueue && notifyQp.physicalRecvWrStatus == recv.notifyQueue
    }

    static ghost predicate Usable(c: SQ.Config, send: SQ.SendState, recv: RQ.RecvState) {
      && c.Valid() && |send.queues| == c.numQps == |recv.queues| && send.nextQp < c.numQps && SQ.Sendable(c, send)
      && (c.scheme.Spray? ==> RQ.Receivable(c, recv))
    }

    constructor (qps: seq<IbvQp>, notifyQp: IbvQp, maxMsgCntPerQp: int, maxMsgSize: nat, loadBalancingScheme: Scheme)
      requires |qps| >= 1 && maxMsgSize >= 1
      requires forall i, j | 0 <= i < j < |qps| :: qps[i].qpNum != qps[j].qpNum
      requires forall i | 0 <= i < |qps| :: qps[i].qpNum != notifyQp.qpNum
      requires forall q | q in qps + [notifyQp] :: q.physicalSendWrStatus == [] && q.physicalRecvWrStatus == []
      ensures Valid() && physicalQps == qps && this.notifyQp == notifyQp && fresh(dqplbSeqTracker)
      ensures Config() == SQ.Config(loadBalancingScheme, maxMsgCntPerQp, maxMsgSize, |qps|)
      ensures send == NoSends(|qps|) && recv == NoRecvs(|qps|)
    {
      physicalQps, this.notifyQp := qps, notifyQp;
      this.maxMsgCntPerQp, this.maxMsgSize, this.loadBalancingScheme := maxMsgCntPerQp, maxMsgSize, loadBalancingScheme;
      dqplbSeqTracker := new Seq.DqplbSeqTracker();
      var numToIdx: map<nat, nat> := map[];
      for i := 0 to |qps|
        invariant forall j | 0 <= j < i :: qps[j].qpNum in numToIdx && numToIdx[qps[j].qpNum] == j
        invariant forall num | num in numToIdx :: numToIdx[num] < i
      {
        numToIdx := numToIdx[qps[i].qpNum := i];
      }
      qpNumToIdx := numToIdx;
      pendingSendVirtualWrQue, pendingSendNotifyVirtualWrQue, pendingRecvVirtualWrQue := [], [], [];
      nextSendPhysicalQpIdx, nextPhysicalWrId, dqplbReceiverInitialized := 0, 0, false;
      acceptedSends, acceptedRecvs := 0, 0;
      send, recv := NoSends(|qps|), NoRecvs(|qps|);
    }

    // -------------------------------------------------------------- sending

    /** findAvailableSendQp. With a limit of -1 the cursor's QP is taken without looking. */
    method FindAvailableSendQp() returns (availableQpIdx: int)
      requires Valid()
      modifies `nextSendPhysicalQpIdx, `send
      ensures Valid() && (availableQpIdx, send.nextQp) == SQ.ScanFrom(Config(), old(send).queues, old(send).nextQp, Config().numQps)
      ensures send == old(send).(nextQp := send.nextQp)
    {
      ghost var end := SQ.ScanFrom(Config(), send.queues, send.nextQp, |physicalQps|);
      if maxMsgCntPerQp == -1 {
        availableQpIdx := StepCursor();
        return;
      }
      for i := 0 to |physicalQps|
        invariant Valid() && send == old(send).(nextQp := send.nextQp)
        invariant SQ.ScanFrom(Config(), send.queues, send.nextQp, |physicalQps| - i) == end
      {
        availableQpIdx := StepCursor();
        if SQ.HasRoom(|physicalQps[availableQpIdx].physicalSendWrStatus|, maxMsgCntPerQp) {
          return;
        }
      }
      availableQpIdx := -1;
    }

    /** The QP under the cursor, which moves on. */
    method StepCursor() returns (qpIdx: nat)
      requires Valid()
      modifies `nextSendPhysicalQpIdx, `send
      ensures Valid() && qpIdx == old(send).nextQp < |physicalQps|
      ensures send == old(send).(nextQp := SQ.NextIndex(qpIdx, |physicalQps|))
    {
      qpIdx := nextSendPhysicalQpIdx;
      nextSendPhysicalQpIdx := SQ.NextIndex(nextSendPhysicalQpIdx, |physicalQps|);
      send := send.(nextQp := nextSendPhysicalQpIdx);
    }

    /** updatePhysicalSendWrFromVirtualSendWr */
    method UpdatePhysicalSendWr(v: SQ.VirtualSendWr) returns (wrId: nat, request: PhysicalSend)
      requires v.offset <= v.wr.length && |physicalQps| >= 1 && maxMsgSize >= 1
      modifies `nextPhysicalWrId, dqplbSeqTracker`sendNext
      ensures wrId == old(nextPhysicalWrId) && nextPhysicalWrId == wrId + 1
      ensures request == SQ.ChunkRequest(Config(), v, old(dqplbSeqTracker.sendNext))
      ensures dqplbSeqTracker.sendNext ==
        if SQ.CarriesSequence(Config(), v.wr) then (old(dqplbSeqTracker.sendNext) + 1) % Seq.SEQ_NUM_MASK else old(dqplbSeqTracker.sendNext)
    {
      wrId := nextPhysicalWrId;
      nextPhysicalWrId := nextPhysicalWrId + 1;
      var lenToSend: nat := Min(v.wr.length - v.offset, maxMsgSize);
      var opcode := v.wr.opcode;
      var remoteAddr: nat := 0;
      match v.wr.opcode {
        case RdmaWrite | RdmaRead =>
          remoteAddr := v.wr.remoteAddr + v.offset;
        case RdmaWriteWithImm =>
          opcode := if loadBalancingScheme.Spray? then RdmaWrite else RdmaWriteWithImm;
          remoteAddr := v.wr.remoteAddr + v.offset;
        case _ =>
      }
      var imm := 0;
      if opcode.RdmaWriteWithImm? && loadBalancingScheme.Dqplb? {
        imm := dqplbSeqTracker.GetSendImm(v.remaining);
      }
      request := PhysicalSend(opcode, v.wr.addr + v.offset, lenToSend, remoteAddr, imm);
    }

    /** The front message's next chunk is posted; the message itself has not moved on yet. */
    ghost function WithChunk(s: SQ.SendState, base: nat, q: nat): SQ.SendState
      requires s.pending != [] && q < |s.queues| && s.pending[0].offset <= s.pending[0].wr.length
    {
      SQ.PostChunk(Config(), s, base, q).(pending := s.pending, notifying := s.notifying)
    }

    /** One pass of the posting loop, first half: the next chunk of the front message goes out on the chosen QP. */
    method PostFrontChunk(availableQpIdx: nat) returns (length: nat)
      requires Valid() && pendingSendVirtualWrQue != [] && availableQpIdx < |physicalQps|
      requires pendingSendVirtualWrQue[0].offset <= pendingSendVirtualWrQue[0].wr.length
      modifies `nextPhysicalWrId, `send, dqplbSeqTracker, physicalQps[availableQpIdx]
      ensures Valid() && send == WithChunk(old(send), |recv.log|, availableQpIdx)
      ensures length == SQ.ChunkRequest(Config(), old(send).pending[0], old(send).sendNext).length
    {
      var v := pendingSendVirtualWrQue[0];
      var wrId, request := UpdatePhysicalSendWr(v);
      var qp := physicalQps[availableQpIdx];
      qp.physicalSendWrStatus := qp.physicalSendWrStatus + [WrStatus(wrId, v.wr.wrId)];
      send := WithChunk(send, |recv.log|, availableQpIdx);
      length := request.length;
    }

    /** Second half: the front message stays, has nothing left, or only its notify is left. */
    method AdvanceFront(length: nat)
      requires Valid() && pendingSendVirtualWrQue != []
      requires pendingSendVirtualWrQue[0].offset + length <= pendingSendVirtualWrQue[0].wr.length
      modifies `pendingSendVirtualWrQue, `pendingSendNotifyVirtualWrQue, `send
      ensures Valid()
      ensures var v := old(send).pending[0].(offset := old(send).pending[0].offset + length,
                                             remaining := old(send).pending[0].remaining - 1);
              var last := v.remaining == 1 && v.extraNotify;
              send == old(send).(pending := if v.remaining == 0 || last then old(send).pending[1..] else [v] + old(send).pending[1..],
                                 notifying := if last then old(send).notifying + [v] else old(send).notifying)
    {
      var v := pendingSendVirtualWrQue[0];
      assert v in send.pending && forall w | w in send.pending[1..] :: w in send.pending;
      v := v.(offset := v.offset + length, remaining := v.remaining - 1);
      if v.remaining == 0 {
        pendingSendVirtualWrQue := pendingSendVirtualWrQue[1..];
      } else if v.remaining == 1 && v.extraNotify {
        pendingSendNotifyVirtualWrQue := pendingSendNotifyVirtualWrQue + [v];
        pendingSendVirtualWrQue := pendingSendVirtualWrQue[1..];
      } else {
        pendingSendVirtualWrQue := [v] + pendingSendVirtualWrQue[1..];
      }
      send := send.(pending := pendingSendVirtualWrQue, notifying := pendingSendNotifyVirtualWrQue);
    }

    /** The choice at the top of the posting loop, and what is left of the freed-slot hint. */
    method ChooseQp(qpIdx: int) returns (availableQpIdx: int, hint: int)
      requires Valid() && pendingSendVirtualWrQue != [] && -1 <= qpIdx < |physicalQps|
      modifies `nextSendPhysicalQpIdx, `send
      ensures Valid() && (availableQpIdx, send.nextQp, hint) == SQ.ChooseQp(Config(), old(send), qpIdx)
      ensures send == old(send).(nextQp := send.nextQp)
    {
      availableQpIdx, hint := -1, qpIdx;
      if IsRdma(pendingSendVirtualWrQue[0].wr.opcode) {
        if qpIdx == -1 {
          availableQpIdx := FindAvailableSendQp();
        } else {
          availableQpIdx := qpIdx;
        }
        hint := -1;
      } else if SQ.HasRoom(|physicalQps[0].physicalSendWrStatus|, maxMsgCntPerQp) {
        availableQpIdx := 0;
      }
    }

    method PostOnQp(availableQpIdx: nat)
      requires Valid() && pendingSendVirtualWrQue != [] && availableQpIdx < |physicalQps|
      modifies this, dqplbSeqTracker, physicalQps[availableQpIdx]
      ensures Valid() && recv == old(recv) && send == SQ.PostChunk(Config(), old(send), |recv.log|, availableQpIdx)
    {
      assert pendingSendVirtualWrQue[0] in send.pending;
      var length := PostFrontChunk(availableQpIdx);
      AdvanceFront(length);
    }

    /** mapPendingSendQueToPhysicalQp */
    method MapPendingSendQueToPhysicalQp(qpIdx: int)
      requires Valid() && -1 <= qpIdx < |physicalQps|
      modifies Repr()
      ensures Valid() && recv == old(recv)
      ensures send == SQ.MapPending(Config(), old(send), |recv.log|, qpIdx)
    {
      var hint := qpIdx;
      while pendingSendVirtualWrQue != []
        invariant Valid() && recv == old(recv) && -1 <= hint < |physicalQps|
        invariant SQ.MapPending(Config(), send, |recv.log|, hint) == SQ.MapPending(Config(), old(send), |recv.log|, qpIdx)
        decreases |send.pending|, SQ.FrontLeft(send), SQ.Slots(Config(), send.queues, hint)
      {
        var posted, rest := PostNext(hint);
        hint := rest;
        if !posted {
          break;
        }
      }
    }

    /** One pass of the loop, if a QP may be used. */
    method PostNext(qpIdx: int) returns (posted: bool, hint: int)
      requires Valid() && pendingSendVirtualWrQue != [] && -1 <= qpIdx < |physicalQps|
      modifies Repr()
      ensures Valid() && recv == old(recv) && -1 <= hint < |physicalQps|
      ensures SQ.MapPending(Config(), old(send), |recv.log|, qpIdx)
              == if posted then SQ.MapPending(Config(), send, |recv.log|, hint) else send
      ensures posted ==> SQ.LessToPost(Config(), send, hint, old(send), qpIdx)
    {
      ghost var s := send;
      var availableQpIdx;
      availableQpIdx, hint := ChooseQp(qpIdx);
      posted := availableQpIdx != -1;
      if posted {
        SQ.PostingStep(Config(), s, |recv.log|, qpIdx);
        PostOnQp(availableQpIdx);
      }
    }

    /** postSendNotifyImm */
    method PostSendNotifyImm() returns (sendWr: PhysicalSend)
      requires Valid() && pendingSendNotifyVirtualWrQue != []
      modifies this, notifyQp
      ensures Valid() && recv == old(recv) && send == SQ.PostNotify(old(send), |recv.log|)
      ensures send.log == old(send).log + [Posted(Notify, WrStatus(old(nextPhysicalWrId), old(send).notifying[0].wr.wrId), old(send).notifying[0].msg, sendWr)]
      ensures sendWr == PhysicalSend(RdmaWriteWithImm, 0, 0, old(send).notifying[0].wr.remoteAddr, old(send).notifying[0].wr.imm)
    {
      var v := pendingSendNotifyVirtualWrQue[0];
      sendWr := PhysicalSend(RdmaWriteWithImm, 0, 0, v.wr.remoteAddr, v.wr.imm);
      notifyQp.physicalSendWrStatus := notifyQp.physicalSendWrStatus + [WrStatus(nextPhysicalWrId, v.wr.wrId)];
      nextPhysicalWrId := nextPhysicalWrId + 1;
      pendingSendNotifyVirtualWrQue := pendingSendNotifyVirtualWrQue[1..];
      send := SQ.PostNotify(send, |recv.log|);
    }

    // -------------------------------------------------------------- receiving

    static function QpRefOf(qpIdx: int): QpRef
      requires qpIdx >= -1
    {
      if qpIdx == -1 then Notify else Data(qpIdx)
    }

    /** One more receive on a physical QP, for the given virtual request. */
    method PostPhysicalRecv(qpIdx: int, virtualWrId: int, ghost msg: nat, wr: PhysicalRecv)
      requires Valid() && -1 <= qpIdx < |physicalQps|
      modifies `nextPhysicalWrId, `recv, notifyQp, physicalQps
      ensures Valid() && recv == RQ.AddPost(old(recv), |send.log|, QpRefOf(qpIdx), virtualWrId, msg, wr)
    {
      var qp := if qpIdx == -1 then notifyQp else physicalQps[qpIdx];
      qp.physicalRecvWrStatus := qp.physicalRecvWrStatus + [WrStatus(nextPhysicalWrId, virtualWrId)];
      nextPhysicalWrId := nextPhysicalWrId + 1;
      recv := RQ.AddPost(recv, |send.log|, QpRefOf(qpIdx), virtualWrId, msg, wr);
    }

    /** postRecvNotifyImm */
    method PostRecvNotifyImm(qpIdx: int)
      requires Valid() && -1 <= qpIdx < |physicalQps| && (loadBalancingScheme.Spray? ==> pendingRecvVirtualWrQue != [])
      modifies Repr()
      ensures Valid() && send == old(send)
      ensures recv == RQ.PostNotifyRecv(Config(), old(recv), |send.log|, QpRefOf(qpIdx))
    {
      var virtualRecvWrId := if loadBalancingScheme.Spray? then pendingRecvVirtualWrQue[0].wr.wrId else -1;
      PostPhysicalRecv(qpIdx, virtualRecvWrId, if loadBalancingScheme.Spray? then recv.pending[0].msg else 0, PhysicalRecv(0, 0, 0));
      if loadBalancingScheme.Spray? {
        RQ.ReceivableFrame(Config(), recv, recv.(pending := recv.pending[1..]));
        pendingRecvVirtualWrQue := pendingRecvVirtualWrQue[1..];
        recv := recv.(pending := recv.pending[1..]);
      }
    }

    /** initializeDqplbReceiver */
    method InitializeDqplbReceiver()
      requires Valid()
      modifies Repr()
      ensures Valid() && send == old(send) && recv == RQ.Initialize(Config(), old(recv), |send.log|)
    {
      var i := 0;
      ghost var end := RQ.InitRounds(recv, |send.log|, maxMsgCntPerQp);
      while i < maxMsgCntPerQp
        invariant Valid() && send == old(send)
        invariant RQ.InitRounds(recv, |send.log|, maxMsgCntPerQp - i) == end
      {
        InitializeRound();
        i := i + 1;
      }
      dqplbReceiverInitialized := true;
      recv := recv.(ready := true);
    }

    /** The inner loop: one anonymous receive on every data QP. */
    method InitializeRound()
      requires Valid()
      modifies `nextPhysicalWrId, `recv, notifyQp, physicalQps
      ensures Valid() && recv == RQ.InitRound(old(recv), |send.log|, 0)
    {
      ghost var end := RQ.InitRound(recv, |send.log|, 0);
      for j := 0 to |physicalQps|
        invariant Valid() && RQ.InitRound(recv, |send.log|, j) == end
      {
        RoundStep(recv, |send.log|, j);
        PostPhysicalRecv(j, -1, 0, PhysicalRecv(0, 0, 0));
      }
    }

    static lemma RoundStep(r: RQ.RecvState, base: nat, j: nat)
      requires j < |r.queues|
      ensures RQ.InitRound(r, base, j) == RQ.InitRound(RQ.AddPost(r, base, Data(j), -1, 0, PhysicalRecv(0, 0, 0)), base, j + 1)
    {
    }

    /** findAvailableRecvQp */
    method FindAvailableRecvQp() returns (availableQpIdx: int)
      requires Valid()
      ensures availableQpIdx == if SQ.HasRoom(|recv.queues[0]|, maxMsgCntPerQp) then 0 else -1
    {
      availableQpIdx := -1;
      if maxMsgCntPerQp == -1 || SQ.HasRoom(|physicalQps[0].physicalRecvWrStatus|, maxMsgCntPerQp) {
        availableQpIdx := 0;
      }
    }

    /** The next chunk of the front receive goes to data QP 0. */
    method PostFrontRecvChunk()
      requires Valid() && loadBalancingScheme.Spray? && pendingRecvVirtualWrQue != [] && pendingRecvVirtualWrQue[0].wr.numSge != 0
      requires pendingRecvVirtualWrQue[0].offset <= pendingRecvVirtualWrQue[0].wr.length
      modifies `pendingRecvVirtualWrQue, `recv, `nextPhysicalWrId, notifyQp, physicalQps
      ensures Valid() && recv == RQ.PostChunk(Config(), old(recv), |send.log|)
    {
      var v := pendingRecvVirtualWrQue[0];
      var lenToRecv: nat := Min(v.wr.length - v.offset, maxMsgSize);
      PostPhysicalRecv(0, v.wr.wrId, v.msg, PhysicalRecv(1, v.wr.addr + v.offset, lenToRecv));
      assert pendingRecvVirtualWrQue[0] == v;
      AdvanceRecvFront(lenToRecv);
    }

    method AdvanceRecvFront(length: nat)
      requires Valid() && loadBalancingScheme.Spray? && pendingRecvVirtualWrQue != [] && pendingRecvVirtualWrQue[0].wr.numSge != 0
      requires pendingRecvVirtualWrQue[0].offset + length <= pendingRecvVirtualWrQue[0].wr.length
      modifies `pendingRecvVirtualWrQue, `recv
      ensures Valid()
      ensures recv == RQ.Advance(old(recv), length)
    {
      RQ.AdvanceReceivable(Config(), recv, length);
      var v := pendingRecvVirtualWrQue[0];
      v := v.(offset := v.offset + length, remaining := v.remaining - 1);
      pendingRecvVirtualWrQue := if v.remaining == 0 then pendingRecvVirtualWrQue[1..] else [v] + pendingRecvVirtualWrQue[1..];
      recv := RQ.Advance(recv, length);
    }

    /** mapPendingRecvQueToPhysicalQp */
    method MapPendingRecvQueToPhysicalQp(qpIdx: int)
      requires Valid() && loadBalancingScheme.Spray? && -1 <= qpIdx < |physicalQps|
      modifies Repr()
      ensures Valid() && send == old(send) && recv == RQ.MapPending(Config(), old(recv), |send.log|, qpIdx)
    {
      var hint := qpIdx;
      while pendingRecvVirtualWrQue != []
        invariant Valid() && send == old(send) && -1 <= hint < |physicalQps|
        invariant RQ.MapPending(Config(), recv, |send.log|, hint) == RQ.MapPending(Config(), old(recv), |send.log|, qpIdx)
        decreases |recv.pending|, RQ.FrontLeft(recv), RQ.Slots(Config(), recv, hint)
      {
        var posted, rest := PostNextRecv(hint);
        hint := rest;
        if !posted {
          break;
        }
      }
    }

    /** One pass of the loop, if the front receive can be posted. */
    method PostNextRecv(qpIdx: int) returns (posted: bool, hint: int)
      requires Valid() && loadBalancingScheme.Spray? && pendingRecvVirtualWrQue != [] && -1 <= qpIdx < |physicalQps|
      modifies Repr()
      ensures Valid() && send == old(send) && -1 <= hint < |physicalQps|
      ensures RQ.MapPending(Config(), old(recv), |send.log|, qpIdx)
              == if posted then RQ.MapPending(Config(), recv, |send.log|, hint) else recv
      ensures posted ==> RQ.LessToPost(Config(), recv, hint, old(recv), qpIdx)
    {
      posted, hint := true, qpIdx;
      if pendingRecvVirtualWrQue[0].wr.numSge == 0 {
        RQ.NoticeStep(Config(), recv, |send.log|, hint);
        PostRecvNotifyImm(-1);
      } else {
        var availableQpIdx := qpIdx;
        if qpIdx != 0 {
          availableQpIdx := FindAvailableRecvQp();
        }
        hint := -1;
        posted := availableQpIdx != -1;
        if posted {
          RQ.ChunkStep(Config(), recv, |send.log|, qpIdx);
          PostFrontRecvChunk();
        }
      }
    }

    // -------------------------------------------------------------- accepting requests

    /** postSend, once the virtual CQ has its entry. */
    method AcceptSend(wr: SendWr, expectedMsgCnt: nat, sendExtraNotifyImm: bool)
      requires Valid() && SQ.LoopEnds(Config(), wr)
      requires Config().Valid() && expectedMsgCnt == SQ.Expected(Config(), wr) && sendExtraNotifyImm == SQ.NeedsNotify(Config(), wr)
      modifies Repr()
      ensures Valid() && recv == old(recv) && SQ.Sendable(Config(), SQ.Enqueue(Config(), old(send), wr))
      ensures send == SQ.MapPending(Config(), SQ.Enqueue(Config(), old(send), wr), |recv.log|, -1)
    {
      var v := SQ.VirtualSendWr(wr, expectedMsgCnt, 0, sendExtraNotifyImm, acceptedSends);
      Endpoints.EnqueueSendable(Config(), send, wr);
      pendingSendVirtualWrQue := pendingSendVirtualWrQue + [v];
      acceptedSends := acceptedSends + 1;
      send := SQ.Enqueue(Config(), send, wr);
      MapPendingSendQueToPhysicalQp(-1);
    }

    /** The request joins the pending queue. */
    method QueueRecv(wr: RecvWr, expectedMsgCnt: nat)
      requires Valid() && (loadBalancingScheme.Spray? ==> RQ.LoopEnds(Config(), wr))
      requires Config().Valid() && expectedMsgCnt == RQ.Expected(Config(), wr)
      modifies `pendingRecvVirtualWrQue, `acceptedRecvs, `recv
      ensures Valid() && recv == RQ.Enqueue(Config(), old(recv), wr)
    {
      var v := RQ.VirtualRecvWr(wr, expectedMsgCnt, 0, acceptedRecvs);
      if loadBalancingScheme.Spray? {
        Endpoints.EnqueueReceivable(Config(), recv, wr);
      }
      pendingRecvVirtualWrQue := pendingRecvVirtualWrQue + [v];
      acceptedRecvs := acceptedRecvs + 1;
      recv := RQ.Enqueue(Config(), recv, wr);
    }

    /** postRecv, once the virtual CQ has its entry. */
    method AcceptRecv(wr: RecvWr, expectedMsgCnt: nat)
      requires Valid() && (loadBalancingScheme.Spray? ==> RQ.LoopEnds(Config(), wr))
      requires Config().Valid() && expectedMsgCnt == RQ.Expected(Config(), wr)
      modifies Repr()
      ensures Valid() && send == old(send)
      ensures var r := RQ.Enqueue(Config(), old(recv), wr);
              if loadBalancingScheme.Spray? then RQ.Receivable(Config(), r) && recv == RQ.MapPending(Config(), r, |send.log|, -1)
              else recv == if r.ready then r else RQ.Initialize(Config(), r, |send.log|)
    {
      QueueRecv(wr, expectedMsgCnt);
      if !loadBalancingScheme.Dqplb? {
        MapPendingRecvQueToPhysicalQp(-1);
      } else if !dqplbReceiverInitialized {
        InitializeDqplbReceiver();
      }
    }

    // -------------------------------------------------------------- completions

    ghost predicate Knows(physicalQpNum: nat) {
      physicalQpNum == notifyQp.qpNum || physicalQpNum in qpNumToIdx
    }

    /** Which QP a completion came from: -1 is the notify QP. */
    function QpIdxOf(physicalQpNum: nat): (qpIdx: int)
      requires Numbered(physicalQps, notifyQp, qpNumToIdx) && Knows(physicalQpNum)
      ensures -1 <= qpIdx < |physicalQps|
    {
      if physicalQpNum == notifyQp.qpNum then -1 else qpNumToIdx[physicalQpNum]
    }

    /** Taking the front off a status deque of sends. */
    method DequeuePhysicalSend(qpIdx: int)
      requires Valid() && -1 <= qpIdx < |physicalQps| && SQ.StatusOf(send, QpRefOf(qpIdx)) != []
      modifies `send, notifyQp, physicalQps
      ensures Valid() && send == SQ.PopStatus(old(send), QpRefOf(qpIdx))
    {
      var qp := if qpIdx == -1 then notifyQp else physicalQps[qpIdx];
      qp.physicalSendWrStatus := qp.physicalSendWrStatus[1..];
      send := SQ.PopStatus(send, QpRefOf(qpIdx));
    }

    method DequeuePhysicalRecv(qpIdx: int)
      requires Valid() && -1 <= qpIdx < |physicalQps| && RQ.StatusOf(recv, QpRefOf(qpIdx)) != []
      modifies `recv, notifyQp, physicalQps
      ensures Valid() && recv == RQ.PopStatus(old(recv), QpRefOf(qpIdx))
    {
      var qp := if qpIdx == -1 then notifyQp else physicalQps[qpIdx];
      qp.physicalRecvWrStatus := qp.physicalRecvWrStatus[1..];
      recv := RQ.PopStatus(recv, QpRefOf(qpIdx));
    }

    /** What a completion must match: the front of its QP's status deque. */
    static function Match(queue: seq<WrStatus>, wrId: nat): Result<int> {
      if queue == [] then Err(StatusQueueEmpty)
      else if queue[0].physicalWrId != wrId then Err(WrIdMismatch)
      else Ok(queue[0].virtualWrId)
    }

    /** processRequest, type SEND */
    method ProcessSend(physicalQpNum: nat, wrId: nat) returns (response: Result<int>)
      requires Valid() && Knows(physicalQpNum)
      modifies Repr()
      ensures Valid() && recv == old(recv)
      ensures var queue := SQ.StatusOf(old(send), QpRefOf(QpIdxOf(physicalQpNum)));
              response == if queue == [] then Err(StatusQueueEmpty) else if queue[0].physicalWrId != wrId then Err(WrIdMismatch)
                          else Ok(queue[0].virtualWrId)
      ensures response.Err? ==> send == old(send)
      ensures response.Ok? ==>
        var qp := QpRefOf(QpIdxOf(physicalQpNum));
        && SQ.Sendable(Config(), SQ.PopStatus(old(send), qp))
        && send == if qp.Data? then SQ.MapPending(Config(), SQ.PopStatus(old(send), qp), |recv.log|, qp.i)
                   else SQ.PopStatus(old(send), qp)
    {
      var qpIdx := QpIdxOf(physicalQpNum);
      var physicalQp := if qpIdx == -1 then notifyQp else physicalQps[qpIdx];
      assert physicalQp.physicalSendWrStatus == SQ.StatusOf(send, QpRefOf(qpIdx));
      response := Match(physicalQp.physicalSendWrStatus, wrId);
      if response.Ok? {
        DequeuePhysicalSend(qpIdx);
        if qpIdx != -1 {
          MapPendingSendQueToPhysicalQp(qpIdx);
        }
      }
    }

    /** processRequest, type SEND_NOTIFY: served only if the message is the first of those waiting. */
    method ProcessSendNotify(wrId: int) returns (response: Result<int>)
      requires Valid()
      modifies Repr()
      ensures Valid() && recv == old(recv)
      ensures response == if old(send).notifying == [] then Err(NotifyQueueEmpty) else Ok(0)
      ensures send == if response.Ok? && old(send).notifying[0].wr.wrId == wrId then SQ.PostNotify(old(send), |recv.log|) else old(send)
    {
      if pendingSendNotifyVirtualWrQue == [] {
        return Err(NotifyQueueEmpty);
      }
      if pendingSendNotifyVirtualWrQue[0].wr.wrId == wrId {
        var _ := PostSendNotifyImm();
      }
      return Ok(0);
    }

    /** processRequest, type RECV */
    method ProcessRecv(physicalQpNum: nat, wrId: nat, immData: nat) returns (response: Result<VirtualQpResponse>)
      requires Valid() && Knows(physicalQpNum)
      modifies Repr()
      ensures Valid() && send == old(send)
      ensures var queue := RQ.StatusOf(old(recv), QpRefOf(QpIdxOf(physicalQpNum)));
              if queue == [] then response == Err(StatusQueueEmpty) && recv == old(recv)
              else if queue[0].physicalWrId != wrId then response == Err(WrIdMismatch) && recv == old(recv)
              else response.Ok? && response.value.virtualWrId == queue[0].virtualWrId
      ensures response.Ok? ==>
        var qp := QpRefOf(QpIdxOf(physicalQpNum));
        var r1 := RQ.PopStatus(old(recv), qp);
        if loadBalancingScheme.Dqplb? then
          var r2 := RQ.PostNotifyRecv(Config(), r1, |send.log|, qp);
          (recv, response.value.notifyCount) == (r2.(tracker := Seq.Receive(r2.tracker, immData).0), Seq.Receive(r2.tracker, immData).1)
        else RQ.Receivable(Config(), r1) && recv == if qp.Data? then RQ.MapPending(Config(), r1, |send.log|, qp.i) else r1
    {
      var qpIdx := QpIdxOf(physicalQpNum);
      var physicalQp := if qpIdx == -1 then notifyQp else physicalQps[qpIdx];
      assert physicalQp.physicalRecvWrStatus == RQ.StatusOf(recv, QpRefOf(qpIdx));
      var m := Match(physicalQp.physicalRecvWrStatus, wrId);
      if m.Err? {
        return Err(m.error);
      }
      DequeuePhysicalRecv(qpIdx);
      var notifyCount := 0;
      if loadBalancingScheme.Dqplb? {
        PostRecvNotifyImm(qpIdx);
        notifyCount := TrackReceived(immData);
      } else if qpIdx != -1 {
        MapPendingRecvQueToPhysicalQp(qpIdx);
      }
      return Ok(VirtualQpResponse(m.value, notifyCount));
    }

    method TrackReceived(immData: nat) returns (notifyCount: nat)
      requires Valid()
      modifies `recv, dqplbSeqTracker
      ensures Valid()
      ensures (recv, notifyCount) == (old(recv).(tracker := Seq.Receive(old(recv).tracker, immData).0), Seq.Receive(old(recv).tracker, immData).1)
    {
      notifyCount := dqplbSeqTracker.ProcessReceivedImm(immData);
      recv := recv.(tracker := dqplbSeqTracker.View());
    }
  }
}
