/**
 * The virtual completion queue as the object it is: two queues of completions updated in place, and an index
 * of pointers into them. Every method is tied to the operations on values in CompletionQueue.
 */
module VirtualCq {
  import opened Verbs
  import CQ = CompletionQueue

  /** An entry of a completion queue. `slot` says which one: the n-th ever queued in its direction. */
  class VirtualWc {
    const wrId: nat
    const sendExtraNotifyImm: bool
    var status: WcStatus
    var byteLen: nat
    var imm: nat
    var remainingMsgCnt: int
    ghost const slot: CQ.WcRef

    ghost function Value(): CQ.VirtualWc reads this {
      CQ.VirtualWc(wrId, status, byteLen, imm, remainingMsgCnt, sendExtraNotifyImm)
    }

    constructor (wrId: nat, expectedMsgCnt: nat, sendExtraNotifyImm: bool, ghost slot: CQ.WcRef)
      ensures Value() == CQ.FreshWc(wrId, expectedMsgCnt, sendExtraNotifyImm) && this.slot == slot
    {
      this.wrId, this.sendExtraNotifyImm, this.slot := wrId, sendExtraNotifyImm, slot;
      status, byteLen, imm, remainingMsgCnt := Success, 0, 0, expectedMsgCnt;
    }

    /** updateVirtualWcFromPhysicalWc, after the count */
    method UpdateFromPhysicalWc(physicalWc: PhysicalWc)
      modifies this
      ensures Value() == CQ.Absorb(old(Value()), physicalWc)
    {
      remainingMsgCnt := remainingMsgCnt - 1;
      if physicalWc.status != Success {
        if status == Success {
          status := physicalWc.status;
        }
      }
      byteLen := (byteLen + physicalWc.byteLen) % CQ.TWO_32;
      imm := physicalWc.imm;
    }
  }

  class IbvVirtualCq {
    var pendingSendVirtualWcQue: seq<VirtualWc>
    var pendingRecvVirtualWcQue: seq<VirtualWc>
    var virtualWrIdToVirtualWc: map<int, VirtualWc?>
    /** What the queues and the index stand for. */
    ghost var view: CQ.CqState

    /** The queues hold the values of the view, and every pointer in the index leads to the entry the view's index names. */
    ghost predicate Valid()
      reads this, pendingSendVirtualWcQue, pendingRecvVirtualWcQue
    {
      && Holds(pendingSendVirtualWcQue, view.sends) && Holds(pendingRecvVirtualWcQue, view.recvs)
      && InOrder(pendingSendVirtualWcQue, |view.sendsOut|, pendingRecvVirtualWcQue, |view.recvsOut|)
      && Indexed(virtualWrIdToVirtualWc, view.index, pendingSendVirtualWcQue, pendingRecvVirtualWcQue)
    }

    static ghost predicate Holds(queue: seq<VirtualWc>, values: seq<CQ.VirtualWc>)
      reads queue
    {
      |queue| == |values| && forall i | 0 <= i < |queue| :: queue[i].Value() == values[i]
    }

    static ghost predicate InOrder(sends: seq<VirtualWc>, sendsOut: nat, recvs: seq<VirtualWc>, recvsOut: nat) {
      && (forall i | 0 <= i < |sends| :: sends[i].slot == CQ.SendRef(sendsOut + i))
      && (forall i | 0 <= i < |recvs| :: recvs[i].slot == CQ.RecvRef(recvsOut + i))
    }

    static ghost predicate Indexed(pointers: map<int, VirtualWc?>, index: map<int, CQ.WcRef>,
                                   sends: seq<VirtualWc>, recvs: seq<VirtualWc>) {
      && pointers.Keys == index.Keys
      && forall id | id in pointers :: PointsAt(id, pointers[id], index[id], sends, recvs)
    }

    static ghost predicate PointsAt(id: int, p: VirtualWc?, ref: CQ.WcRef, sends: seq<VirtualWc>, recvs: seq<VirtualWc>) {
      if p == null then ref == CQ.NullRef
      else
        && p.wrId == id && p.slot == ref
        && (ref.SendRef? ==> p in sends) && (ref.RecvRef? ==> p in recvs) && !ref.NullRef?
    }

    constructor ()
      ensures Valid() && view == CQ.CqState([], [], [], [], map[])
    {
      pendingSendVirtualWcQue, pendingRecvVirtualWcQue, virtualWrIdToVirtualWc := [], [], map[];
      view := CQ.CqState([], [], [], [], map[]);
    }

    /** processRequest for a send */
    method ProcessSendRequest(wr: SendWr, expectedMsgCnt: nat, sendExtraNotifyImm: bool)
      requires Valid()
      modifies this
      ensures Valid()
      ensures view == CQ.EnqueueSend(old(view), wr, expectedMsgCnt, sendExtraNotifyImm)
    {
      var virtualWcPtr: VirtualWc? := null;
      if wr.signaled || wr.opcode.RdmaWriteWithImm? {
        var virtualWc := new VirtualWc(wr.wrId, expectedMsgCnt, sendExtraNotifyImm, CQ.SendRef(|view.sendsOut| + |view.sends|));
        pendingSendVirtualWcQue := pendingSendVirtualWcQue + [virtualWc];
        virtualWcPtr := virtualWc;
      }
      virtualWrIdToVirtualWc := virtualWrIdToVirtualWc[wr.wrId := virtualWcPtr];
      view := CQ.EnqueueSend(view, wr, expectedMsgCnt, sendExtraNotifyImm);
    }

    /** processRequest for a receive */
    method ProcessRecvRequest(wr: RecvWr, expectedMsgCnt: nat)
      requires Valid()
      modifies this
      ensures Valid()
      ensures view == CQ.EnqueueRecv(old(view), wr, expectedMsgCnt)
    {
      var virtualWc := new VirtualWc(wr.wrId, expectedMsgCnt, false, CQ.RecvRef(|view.recvsOut| + |view.recvs|));
      pendingRecvVirtualWcQue := pendingRecvVirtualWcQue + [virtualWc];
      virtualWrIdToVirtualWc := virtualWrIdToVirtualWc[wr.wrId := virtualWc];
      view := CQ.EnqueueRecv(view, wr, expectedMsgCnt);
    }

    /** Counting a physical completion through the index changes exactly the entry it points at. */
    method CountCompletion(virtualWrId: int, physicalWc: PhysicalWc) returns (virtualWc: VirtualWc?)
      requires Valid()
      modifies `view, pendingSendVirtualWcQue, pendingRecvVirtualWcQue
      ensures Valid()
      ensures virtualWc != null <==> CQ.Live(old(view), virtualWrId)
      ensures if virtualWc == null then view == old(view)
              else virtualWc.Value() == CQ.Absorb(CQ.Entry(old(view), virtualWrId), physicalWc)
                   && view == CQ.AbsorbAt(old(view), virtualWrId, physicalWc)
    {
      virtualWc := null;
      if virtualWrId in virtualWrIdToVirtualWc {
        virtualWc := virtualWrIdToVirtualWc[virtualWrId];
        assert PointsAt(virtualWrId, virtualWc, view.index[virtualWrId], pendingSendVirtualWcQue, pendingRecvVirtualWcQue);
        if virtualWc != null {
          Count(virtualWc, physicalWc);
        }
      }
    }

    /** Counting a completion on a queued entry changes the value at its slot and no other. */
    method Count(virtualWc: VirtualWc, physicalWc: PhysicalWc)
      requires Valid()
      requires virtualWc.slot.SendRef? ==> virtualWc in pendingSendVirtualWcQue
      requires virtualWc.slot.RecvRef? ==> virtualWc in pendingRecvVirtualWcQue
      requires !virtualWc.slot.NullRef?
      modifies `view, pendingSendVirtualWcQue, pendingRecvVirtualWcQue
      ensures Valid() && virtualWc.Value() == CQ.Absorb(old(virtualWc.Value()), physicalWc)
      ensures view == if virtualWc.slot.SendRef? then old(view).(sends := Updated(old(view).sends, virtualWc, old(|view.sendsOut|)))
                      else old(view).(recvs := Updated(old(view).recvs, virtualWc, old(|view.recvsOut|)))
    {
      virtualWc.UpdateFromPhysicalWc(physicalWc);
      if virtualWc.slot.SendRef? {
        view := view.(sends := Updated(view.sends, virtualWc, |view.sendsOut|));
      } else {
        view := view.(recvs := Updated(view.recvs, virtualWc, |view.recvsOut|));
      }
    }

    /** The values of a queue with that of one entry brought up to date. */
    static ghost function Updated(values: seq<CQ.VirtualWc>, virtualWc: VirtualWc, out: nat): seq<CQ.VirtualWc>
      reads virtualWc
    {
      var ref := virtualWc.slot;
      if !ref.NullRef? && out <= ref.n < out + |values| then values[ref.n - out := virtualWc.Value()] else values
    }

    /** The DQPLB branch of loopPollPhysicalCqUntilEmpty. */
    method MarkNotified(notifyCount: nat)
      requires Valid()
      modifies `view, pendingSendVirtualWcQue, pendingRecvVirtualWcQue
      ensures Valid()
      ensures view == old(view).(recvs := CQ.MarkNotified(old(view).recvs, notifyCount))
    {
      var processedCount, i := 0, 0;
      ghost var left, end := notifyCount, CQ.MarkNotified(view.recvs, notifyCount);
      CQ.MarkInPlace(view.recvs, notifyCount);
      while i < |pendingRecvVirtualWcQue| && processedCount < notifyCount
        invariant Valid() && i <= |view.recvs| && left == notifyCount - processedCount
        invariant view == old(view).(recvs := view.recvs)
        invariant CQ.MarkFrom(view.recvs, i, left) == end
      {
        var marked := MarkOne(i, left, end);
        if marked {
          processedCount, left := processedCount + 1, left - 1;
        }
        i := i + 1;
      }
    }

    /** One pass of that loop: an unfinished receive becomes finished. */
    method MarkOne(i: nat, ghost left: nat, ghost end: seq<CQ.VirtualWc>) returns (marked: bool)
      requires Valid() && i < |pendingRecvVirtualWcQue| && left > 0 && CQ.MarkFrom(view.recvs, i, left) == end
      modifies `view, pendingSendVirtualWcQue, pendingRecvVirtualWcQue
      ensures Valid() && view == old(view).(recvs := view.recvs) && |view.recvs| == old(|view.recvs|)
      ensures CQ.MarkFrom(view.recvs, i + 1, if marked then left - 1 else left) == end
    {
      marked := pendingRecvVirtualWcQue[i].remainingMsgCnt != 0;
      assert pendingRecvVirtualWcQue[i].Value() == view.recvs[i];
      CQ.MarkFromStep(view.recvs, i, left);
      if marked {
        pendingRecvVirtualWcQue[i].remainingMsgCnt := 0;
        view := view.(recvs := view.recvs[i := view.recvs[i].(remaining := 0)]);
      }
    }

    /** loopPollVirtualCqUntil */
    method LoopPollVirtualCqUntil(numEntries: nat) returns (wcs: seq<IbvWc>)
      requires Valid()
      modifies this
      ensures Valid()
      ensures (view, wcs) == CQ.PollCq(old(view), numEntries)
    {
      wcs := [];
      var sendComplete, recvComplete := false, false;
      ghost var p := CQ.Polling(view, [], true, true);
      while |wcs| < numEntries && (!sendComplete || !recvComplete)
        invariant Valid()
        invariant p == CQ.Polling(view, p.out, !sendComplete, !recvComplete) && wcs == CQ.Answers(p.out)
        invariant CQ.PollLoop(p, numEntries) == CQ.PollLoop(CQ.Polling(old(view), [], true, true), numEntries)
        decreases |pendingSendVirtualWcQue| + |pendingRecvVirtualWcQue|, !sendComplete, !recvComplete
      {
        WcsOfPass(p);
        sendComplete, wcs := PollSend(sendComplete, wcs);
        recvComplete, wcs := PollRecv(recvComplete, wcs);
        p := CQ.PollPass(p);
      }
    }

    /** What a pass adds to the result. */
    static lemma WcsOfPass(p: CQ.Polling)
      ensures var mid := if p.sendsOpen && CQ.SendReady(p.cq) then CQ.PopSend(p.cq) else p.cq;
              CQ.Answers(CQ.PollPass(p).out) == CQ.Answers(p.out)
                + (if p.sendsOpen && CQ.SendReady(p.cq) then [CQ.Answer(p.cq.sends[0])] else [])
                + (if p.recvsOpen && CQ.RecvReady(mid) then [CQ.Answer(mid.recvs[0])] else [])
    {
    }

    /** The first half of a pass: one send, if that direction is still open and its front has finished. */
    method PollSend(complete: bool, wcs: seq<IbvWc>) returns (complete': bool, wcs': seq<IbvWc>)
      requires Valid()
      modifies this
      ensures Valid() && |pendingRecvVirtualWcQue| == old(|pendingRecvVirtualWcQue|)
      ensures |pendingSendVirtualWcQue| == old(|pendingSendVirtualWcQue|) - if complete' then 0 else 1
      ensures !complete' <==> !complete && CQ.SendReady(old(view))
      ensures if complete' then view == old(view) && wcs' == wcs
              else view == CQ.PopSend(old(view)) && wcs' == wcs + [CQ.Answer(old(view).sends[0])]
    {
      complete', wcs' := complete, wcs;
      if !complete {
        if pendingSendVirtualWcQue == [] || pendingSendVirtualWcQue[0].remainingMsgCnt > 0 {
          complete' := true;
        } else {
          var head := pendingSendVirtualWcQue[0];
          virtualWrIdToVirtualWc := virtualWrIdToVirtualWc - {head.wrId};
          wcs' := wcs + [IbvWc(head.wrId, head.status, head.byteLen, head.imm)];
          pendingSendVirtualWcQue := pendingSendVirtualWcQue[1..];
          view := CQ.PopSend(view);
        }
      }
    }

    method PollRecv(complete: bool, wcs: seq<IbvWc>) returns (complete': bool, wcs': seq<IbvWc>)
      requires Valid()
      modifies this
      ensures Valid() && |pendingSendVirtualWcQue| == old(|pendingSendVirtualWcQue|)
      ensures |pendingRecvVirtualWcQue| == old(|pendingRecvVirtualWcQue|) - if complete' then 0 else 1
      ensures !complete' <==> !complete && CQ.RecvReady(old(view))
      ensures if complete' then view == old(view) && wcs' == wcs
              else view == CQ.PopRecv(old(view)) && wcs' == wcs + [CQ.Answer(old(view).recvs[0])]
    {
      complete', wcs' := complete, wcs;
      if !complete {
        if pendingRecvVirtualWcQue == [] || pendingRecvVirtualWcQue[0].remainingMsgCnt > 0 {
          complete' := true;
        } else {
          var head := pendingRecvVirtualWcQue[0];
          virtualWrIdToVirtualWc := virtualWrIdToVirtualWc - {head.wrId};
          wcs' := wcs + [IbvWc(head.wrId, head.status, head.byteLen, head.imm)];
          pendingRecvVirtualWcQue := pendingRecvVirtualWcQue[1..];
          view := CQ.PopRecv(view);
        }
      }
    }
  }
}
