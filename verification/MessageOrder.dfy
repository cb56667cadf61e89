/** When every message finishes, in terms of the order in which the device completes the data of the messages. */
module MessageOrder {
  import opened Verbs
  import opened CompletionQueue
  import opened Ledgers
  import opened Endpoints
  import opened Progress
  import opened Links
  import opened Delivery
  import SQ = SendQueue
  import SP = SendProtocol

  /** All chunks of message k have completed. */
  ghost predicate DataDone(x: Side, k: nat)
    requires x.e.c.Valid() && k < |x.e.send.msgs|
  {
    CountDone(x.e.send.log, x.h.sendDone, k) >= SQ.Chunks(x.e.send.msgs[k].length, x.e.c.maxMsgSize)
  }

  /** Post i is the one chunk still missing of a message that needs a notify. */
  ghost predicate LastData(x: Side, i: nat) {
    && x.e.c.Valid() && i < |x.e.send.log| && x.e.send.log[i].msg < |x.e.send.msgs|
    && var m := x.e.send.log[i].msg;
    && SQ.NeedsNotify(x.e.c, x.e.send.msgs[m])
    && CountDone(x.e.send.log, x.h.sendDone, m) + 1 == SQ.Chunks(x.e.send.msgs[m].length, x.e.c.maxMsgSize)
  }

  /** All earlier messages that need a notify have had all their chunks completed. */
  ghost predicate EarlierDone(x: Side, m: nat)
    requires x.e.c.Valid() && m <= |x.e.send.msgs|
  {
    forall k: nat | k < m && SQ.NeedsNotify(x.e.c, x.e.send.msgs[k]) :: DataDone(x, k)
  }

  /** Post i, the last chunk of its message, completes at side x while an earlier message's data is not complete. */
  ghost predicate OutOfTurn(l: Link, l': Link, i: nat, p: PhysicalWc) {
    Completes(l, l', i, p) && LastData(l.x, i) && !EarlierDone(l.x, l.x.e.send.log[i].msg)
  }

  ghost predicate InTurn(l: Link, l': Link) {
    forall i: nat, p: PhysicalWc :: !OutOfTurn(l, l', i, p)
  }

  /** Up to state n the last chunks of the messages that need a notify completed in message order. */
  ghost predicate InMessageOrder(run: seq<Link>, n: nat)
    requires n < |run|
  {
    n == 0 || (InMessageOrder(run, n - 1) && InTurn(run[n - 1], run[n]))
  }

  /** A completion asks for the notify exactly when it is the last chunk of its message. */
  lemma AsksIsLastData(x: Side, i: nat, p: PhysicalWc)
    requires Inv(x.e, x.h) && ReportsSend(x.e, x.h, i, p)
    ensures i < |x.e.send.log| && x.e.send.log[i].msg < |SendWcs(x.e.cq)|
    ensures AsksNotify(x.e, i, p) <==> LastData(x, i)
  {
    ReportedSend(x.e, x.h, i, p);
    var l := SP.SendLedger(x.e.c, x.e.send, SendWcs(x.e.cq), |x.e.cq.sendsOut|, x.h.sendDone, x.h.sendComps);
    Remaining(l, x.e.send.log[i].msg);
  }

  /** A message whose notify has been posted has had all its chunks completed. */
  lemma NotifiedIsDone(x: Side, k: nat)
    requires Inv(x.e, x.h) && k < |x.e.send.msgs| && k in SP.Notified(x.e.send.log)
    ensures DataDone(x, k)
  {
    var s, done := x.e.send, x.h.sendDone;
    NotifiedNeeds(x.e.c, s, k);
    if SP.HandedOver(s) <= k { SP.NotNotifiedYet(x.e.c, s, k); }
    assert SP.HandedOverOk(x.e.c, s, k);
    SP.NotifiedIn(s.log, k);
    var i: nat :| i < |s.log| && s.log[i].qp.Notify? && s.log[i].msg == k;
    forall j: nat | j < |s.log| && s.log[j].msg == k ensures j in done + {i} {
      if s.log[j].qp.Notify? { SP.NotifiedOnce(x.e.c, s, i, j); }
    }
    CountDoneBound(s.log, done + {i}, k);
    if i in done { assert done + {i} == done; } else { CountDoneComplete(s.log, done, i, k); }
  }

  /** While no request has been ignored, a message whose chunks have all completed has had its notify. */
  lemma DoneIsNotified(x: Side, k: nat)
    requires SideInv(x) && x.h.ignored == {} && k < |x.e.send.msgs| && SQ.NeedsNotify(x.e.c, x.e.send.msgs[k]) && DataDone(x, k)
    ensures k in SP.Notified(x.e.send.log)
  {
    var s, done := x.e.send, x.h.sendDone;
    CountDoneBound(s.log, done, k);
    WaitingExactly(x.e.c, s, k);
    PendingHasLeft(x.e.c, s, k);
    assert SP.HandedOverOk(x.e.c, s, k);
  }

  /** While no request has been ignored, the first to be ignored is the first out of turn. */
  lemma OvertakingIsOutOfTurn(l: Link, l': Link, i: nat, p: PhysicalWc)
    requires LinkInv(l) && l.x.h.ignored == {} && Completes(l, l', i, p)
    ensures Overtakes(l, l', i, p) <==> OutOfTurn(l, l', i, p)
  {
    var x := l.x;
    AsksIsLastData(x, i, p);
    if LastData(x, i) {
      forall k: nat | k < x.e.send.log[i].msg && SQ.NeedsNotify(x.e.c, x.e.send.msgs[k])
        ensures k in SP.Notified(x.e.send.log) <==> DataDone(x, k)
      {
        if k in SP.Notified(x.e.send.log) { NotifiedIsDone(x, k); }
        if DataDone(x, k) { DoneIsNotified(x, k); }
      }
    }
  }

  lemma OvertakingIff(l: Link, l': Link)
    requires LinkInv(l) && l.x.h.ignored == {}
    ensures Overtaking(l, l') <==> !InTurn(l, l')
  {
    forall i: nat, p: PhysicalWc | Completes(l, l', i, p)
      ensures Overtakes(l, l', i, p) <==> OutOfTurn(l, l', i, p)
    {
      OvertakingIsOutOfTurn(l, l', i, p);
    }
  }

  lemma OvertakingNext(run: seq<Link>, n: nat)
    requires IsRun(run) && 0 < n < |run| && NoneOvertakes(run, n - 1)
    ensures Overtaking(run[n - 1], run[n]) <==> !InTurn(run[n - 1], run[n])
  {
    IgnoredRun(run, n - 1);
    RunInv(run, n - 1);
    OvertakingIff(run[n - 1], run[n]);
  }

  lemma {:induction false} NoneOvertakesIff(run: seq<Link>, n: nat)
    requires IsRun(run) && n < |run|
    ensures NoneOvertakes(run, n) <==> InMessageOrder(run, n)
  {
    if n > 0 {
      NoneOvertakesIff(run, n - 1);
      if NoneOvertakes(run, n - 1) { OvertakingNext(run, n); }
    }
  }

  /**
   * Progress, in terms of what the device does: a state with nothing in flight has finished every message if
   * and only if the last chunks of the messages that need a notify have completed in message order.
   */
  lemma FinishedIffInMessageOrder(run: seq<Link>, n: nat)
    requires IsRun(run) && n < |run| && run[n].x.e.c.limit != 0 && NothingInFlight(run[n].x.e.send)
    ensures (forall k: nat | k < |SendWcs(run[n].x.e.cq)| :: SendWcs(run[n].x.e.cq)[k].remaining == 0) <==> InMessageOrder(run, n)
  {
    FinishedIffNoneOvertakes(run, n);
    NoneOvertakesIff(run, n);
  }
}
