/**
 * Two endpoints joined QP by QP, as a step relation. The environment picks any QP with work in flight and
 * delivers or completes its oldest request; this in-order service of one QP is what the InfiniBand
 * Architecture Specification, volume 1, section 9.7, promises for a reliable connection.
 */
module Links {
  import opened Verbs
  import opened CompletionQueue
  import opened Ledgers
  import opened Endpoints
  import opened Progress
  import SQ = SendQueue
  import SP = SendProtocol
  import RQ = RecvQueue
  import Seq = SeqTracker

  /**
   * `landed` lists the posts of this side's send log that the peer's device has taken in, in that order;
   * `failed` are those that have completed with an error, landed or not; `polled` are those with an immediate
   * whose receive completion the peer has handled. `flushed` lists the receives of this side that have
   * completed with an error; `stream` is the unbounded sequence tracker of its receives.
   */
  datatype Side = Side(e: Endpoint, h: History, landed: seq<nat>, failed: set<nat>, polled: set<nat>,
                       flushed: seq<nat>, stream: Seq.Receiver)

  datatype Link = Link(x: Side, y: Side)

  datatype Step =
    | PostSend(swr: SendWr)
    | PostRecv(rwr: RecvWr)
    | Land(i: nat)                               // the peer's device takes post i in
    | Complete(k: nat, p: PhysicalWc)            // post k completes at the sender
    | Receive(n: nat, r: nat, q: PhysicalWc)     // the peer handles the completion of receive post r by post n
    | Flush(f: nat, w: PhysicalWc)               // receive post f completes with an error, and no immediate
    | Poll(count: nat)

  ghost function Landed(s: Side): set<nat> { set i | i in s.landed }

  ghost predicate HasImm(log: seq<Posted<PhysicalSend>>, i: nat) {
    i < |log| && log[i].wr.opcode.RdmaWriteWithImm?
  }

  /** The posts that have arrived: the device has taken them in, and the peer has handled their immediate if they have one. */
  ghost function Arrived(s: Side): set<nat> {
    set i | i in s.landed && (HasImm(s.e.send.log, i) ==> i in s.polled)
  }

  /** `i` is the oldest post with an immediate on its QP that the peer has not handled, and it has landed. */
  ghost predicate NextToPoll(x: Side, i: nat) {
    var log := x.e.send.log;
    && i in x.landed && HasImm(log, i) && i !in x.polled
    && forall j: nat | j < i && HasImm(log, j) && log[j].qp == log[i].qp :: j in x.polled
  }

  /** The sequence number of post i, never wrapped: how many sequenced posts precede it. */
  ghost function SeqOf(log: seq<Posted<PhysicalSend>>, i: nat): nat
    requires i <= |log|
  {
    |SP.Flags(log[..i])|
  }

  /** Side x posts a message, under an id that is not in use, or a receive for one immediate. */
  ghost predicate Posts(l: Link, l': Link, wr: SendWr) {
    && Ready(l.x.e) && SP.ValidMsg(wr) && wr.wrId !in l.x.e.cq.index
    && (wr.opcode.RdmaWrite? || wr.opcode.RdmaWriteWithImm? || wr.opcode.RdmaRead?)
    && Endpoints.PostSend(l.x.e, wr) == Ok(l'.x.e) && l' == l.(x := l.x.(e := l'.x.e))
  }

  ghost predicate PostsReceive(l: Link, l': Link, wr: RecvWr) {
    && Ready(l.x.e) && wr.numSge == 0 && wr.wrId !in l.x.e.cq.index
    && Endpoints.PostRecv(l.x.e, wr) == Ok(l'.x.e) && l' == l.(x := l.x.(e := l'.x.e))
  }

  /** An earlier post of the same QP has failed, and with it the QP. */
  ghost predicate Severed(x: Side, i: nat)
    requires i < |x.e.send.log|
  {
    exists j: nat :: j in x.failed && j < i && x.e.send.log[j].qp == x.e.send.log[i].qp
  }

  /** A receive of this QP has failed, and with it the QP. */
  ghost predicate Broken(y: Side, qp: QpRef) {
    exists f: nat :: f in y.flushed && f < |y.e.recv.log| && y.e.recv.log[f].qp == qp
  }

  /** A post lands only after all earlier posts of its QP, and only if none of these has failed. */
  ghost predicate Lands(l: Link, l': Link, i: nat) {
    && Oldest(l.x.e.send.log, Landed(l.x), i) && !Severed(l.x, i)
    && l' == l.(x := l.x.(landed := l.x.landed + [i]))
  }

  ghost function FailedAfter(x: Side, i: nat, p: PhysicalWc): set<nat> {
    if p.status == Success then x.failed else x.failed + {i}
  }

  /**
   * A post completes with success only after it landed, whether or not the peer has handled its immediate. It
   * may fail landed or not: the bytes or only their acknowledgement may have been lost.
   */
  ghost predicate Completes(l: Link, l': Link, i: nat, p: PhysicalWc) {
    var x := l.x;
    && Inv(x.e, x.h) && ReportsSend(x.e, x.h, i, p) && p.opcode.WcSendSide? && (p.status == Success ==> i in x.landed)
    && Ready(x.e) && (x.e.send.log[i].qp.Data? ==> x.e.send.log[i].qp.i < x.e.c.numQps)
    && Dispatch(x.e, x.e.send.log[i].qp, p) == Ok(l'.x.e)
    && l' == l.(x := x.(e := l'.x.e, h := AfterSend(x.e, x.h, i, p).(ignored := IgnoredAfter(x.e, x.h, i, p)),
                        failed := FailedAfter(x, i, p)))
  }

  /** Side y polls p, the completion of receive r. */
  ghost predicate CompletesReceive(y: Side, y': Side, r: nat, p: PhysicalWc) {
    && ReportsRecv(y.e, y.h, r, p) && !p.opcode.WcSendSide?
    && Ready(y.e) && (y.e.recv.log[r].qp.Data? ==> y.e.recv.log[r].qp.i < y.e.c.numQps)
    && Dispatch(y.e, y.e.recv.log[r].qp, p) == Ok(y'.e) && y'.h == AfterRecv(y.e, y.h, r, Passed(y.e.c, p))
  }

  /**
   * The peer handles an immediate that has landed, with its oldest receive on the same QP, of which no receive
   * has failed. The window
   * hypothesis, which the code assumes of the network and does not enforce, is the conjunct on the sequence
   * number: none is handled 2^24 - 1 or more past the oldest one still missing.
   */
  ghost predicate Receives(l: Link, l': Link, i: nat, r: nat, p: PhysicalWc) {
    var x, y := l.x, l.y;
    && NextToPoll(x, i) && CompletesReceive(y, l'.y, r, p) && p.status == Success && p.opcode.WcRecvRdmaWithImm?
    && y.e.recv.log[r].qp == x.e.send.log[i].qp && !Broken(y, y.e.recv.log[r].qp) && p.imm == x.e.send.log[i].wr.imm
    && l'.x == x.(polled := x.polled + {i})
    && (if x.e.send.log[i].qp.Notify? then l'.y == y.(e := l'.y.e, h := l'.y.h)
        else
          && SeqOf(x.e.send.log, i) < y.stream.next + Seq.SEQ_NUM_MASK
          && l'.y == y.(e := l'.y.e, h := l'.y.h,
                        stream := Seq.ReceiveUnbounded(y.stream, SeqOf(x.e.send.log, i), SeqLast(x.e.send.log, i)).0))
  }

  /** A receive fails: it completes with an error, whatever its immediate reads, and nothing has arrived for it. */
  ghost predicate Flushes(l: Link, l': Link, r: nat, p: PhysicalWc) {
    && CompletesReceive(l.x, l'.x, r, p) && p.status != Success
    && l' == l.(x := l.x.(e := l'.x.e, h := l'.x.h, flushed := l.x.flushed + [r]))
  }

  /** Side x acts, or the network or the peer acts on its posts. */
  ghost predicate Acts(l: Link, l': Link, step: Step) {
    match step
    case PostSend(wr) => Posts(l, l', wr)
    case PostRecv(wr) => PostsReceive(l, l', wr)
    case Land(i) => Lands(l, l', i)
    case Complete(i, p) => Completes(l, l', i, p)
    case Receive(i, r, p) => Receives(l, l', i, r, p)
    case Flush(r, p) => Flushes(l, l', r, p)
    case Poll(n) => l' == l.(x := l.x.(e := l.x.e.(cq := PollCq(l.x.e.cq, n).0)))
  }

  ghost function SeqLast(log: seq<Posted<PhysicalSend>>, i: nat): bool
    requires i < |log|
  {
    Seq.ImmLast(log[i].wr.imm)
  }

  ghost function Swap(l: Link): Link { Link(l.y, l.x) }

  ghost predicate Next(l: Link, l': Link) {
    exists step :: Acts(l, l', step) || Acts(Swap(l), Swap(l'), step)
  }

  ghost predicate Initial(l: Link) {
    && l.x.e.c.Valid() && l.y.e.c.Valid() && Matched(l)
    && l.x == Resting(l.x.e.c) && l.y == Resting(l.y.e.c)
  }

  /** A side before its first call. */
  ghost function Resting(c: SQ.Config): Side
    requires c.Valid()
  {
    Side(Idle(c), NO_HISTORY, [], {}, {}, [], Seq.Receiver(0, map[]))
  }

  ghost predicate Matched(l: Link) {
    l.x.e.c.scheme == l.y.e.c.scheme && l.x.e.c.numQps == l.y.e.c.numQps
  }

  /** A run: any number of steps of either side, in any interleaving. */
  ghost predicate IsRun(run: seq<Link>) {
    && |run| > 0 && Initial(run[0])
    && forall i | 0 <= i < |run| - 1 :: Next(run[i], run[i + 1])
  }

  // ---------------------------------------------------------------- invariants

  ghost predicate SideInv(s: Side) {
    && Inv(s.e, s.h) && FlowInv(s.e.c, s.e.send) && AllRdma(s.e.send)
    && StrandedExactly(s.e.send, s.h.sendDone, s.h.ignored) && DataOrdered(s.e.send)
    && (s.e.c.numQps == 1 ==> s.h.ignored == {}) && StatusOk(s)
  }

  /** A post of message m has failed. */
  ghost predicate Fails(x: Side, m: nat) {
    exists i: nat :: i in x.failed && i < |x.e.send.log| && x.e.send.log[i].msg == m
  }

  /** The status of a virtual send tells whether any of its posts has failed. */
  ghost predicate StatusOk(x: Side) {
    && x.failed <= x.h.sendDone
    && forall m: nat | m < |SendWcs(x.e.cq)| :: SendWcs(x.e.cq)[m].status == Success <==> !Fails(x, m)
  }

  /** Posts land in order on each QP, each once; only landed posts complete with success, and of these immediates are handled. */
  ghost predicate LandedOk(x: Side) {
    && InOrder(x.e.send.log, Landed(x)) && x.h.sendDone <= Landed(x) + x.failed && x.polled <= Landed(x)
    && (forall i | i in x.polled :: HasImm(x.e.send.log, i))
    && forall a, b | 0 <= a < b < |x.landed| :: x.landed[a] != x.landed[b]
  }

  /** How many receives have completed with success. */
  ghost function Received(y: Side): int { |y.h.recvComps| - |y.flushed| }

  /** The k-th receive has completed, with the immediate of the k-th notify posted or with an error. */
  ghost predicate ReceiveOk(x: Side, y: Side, k: nat)
    requires k < |y.h.recvComps|
  {
    var comp := y.h.recvComps[k];
    && comp.msg == k && (comp.wc.status == Success <==> k < Received(y))
    && (k < Received(y) ==>
          && k < |SP.Notified(x.e.send.log)| && SP.Notified(x.e.send.log)[k] < |x.e.send.msgs|
          && comp.wc.imm == x.e.send.msgs[SP.Notified(x.e.send.log)[k]].imm)
  }

  /** Every receive was posted for one immediate, and all on the notify QP. */
  ghost predicate ReceivesPosted(y: Side) {
    && y.e.recv.pending == [] && |y.e.recv.log| == |y.e.recv.wrs|
    && forall r: nat | r < |y.e.recv.log| :: y.e.recv.log[r].msg == r && y.e.recv.log[r].qp == Notify && y.e.recv.wrs[r].numSge == 0
  }

  ghost predicate ReceivesInOrder(y: Side) {
    && Received(y) >= 0 && (forall r: nat :: r in y.h.recvDone <==> r < |y.h.recvComps|)
    && forall f | f in y.flushed :: f in y.h.recvDone
  }

  /** Of the notifies in the log, exactly the first n have been handled. */
  ghost predicate PolledThrough(log: seq<Posted<PhysicalSend>>, polled: set<nat>, n: int) {
    forall i: nat | i < |log| && log[i].qp.Notify? :: i in polled <==> |SP.Notified(log[..i])| < n
  }

  /** The receives of y are the notifies of x: the k-th receive completes with the k-th notify posted, until one fails. */
  ghost predicate NotifiesMatch(x: Side, y: Side) {
    && ReceivesPosted(y) && ReceivesInOrder(y) && Received(y) <= |SP.Notified(x.e.send.log)|
    && PolledThrough(x.e.send.log, x.polled, Received(y))
    && forall k: nat | k < |y.h.recvComps| :: ReceiveOk(x, y, k)
  }

  /** The sequence numbers that the peer has handled. */
  ghost function PolledSeqs(log: seq<Posted<PhysicalSend>>, polled: set<nat>): set<nat> {
    set i | i in polled && i < |log| && SP.IsSequenced(log[i]) :: SeqOf(log, i)
  }

  /** The tracker of y stands for the numbers it handled from x, and y has been told of the last chunks in their prefix. */
  ghost predicate StreamMatches(x: Side, y: Side) {
    var bits := SP.Flags(x.e.send.log);
    && Seq.Holds(y.stream, PolledSeqs(x.e.send.log, x.polled), bits)
    && Seq.InWindow(y.stream) && Seq.Wraps(y.e.recv.tracker, y.stream)
    && y.stream.next <= |bits| && y.h.notified == Seq.Lasts(bits[..y.stream.next])
  }

  ghost predicate Cross(x: Side, y: Side) {
    && LandedOk(x)
    && (x.e.c.scheme.Spray? ==> NotifiesMatch(x, y))
    && (x.e.c.scheme.Dqplb? && y.flushed == [] ==> StreamMatches(x, y))
  }

  ghost predicate LinkInv(l: Link) {
    Matched(l) && SideInv(l.x) && SideInv(l.y) && Cross(l.x, l.y) && Cross(l.y, l.x)
  }

  // ---------------------------------------------------------------- the send log only grows

  lemma {:induction false} FlagsPrefix(log: seq<Posted<PhysicalSend>>, log': seq<Posted<PhysicalSend>>)
    requires log <= log'
    ensures SP.Flags(log) <= SP.Flags(log')
    decreases |log'|
  {
    if |log| < |log'| {
      assert log <= log'[..|log'| - 1];
      FlagsPrefix(log, log'[..|log'| - 1]);
    } else {
      assert log == log';
    }
  }

  lemma GrownStream(x: Side, x': Side, y: Side, y': Side)
    requires StreamMatches(x, y) && x.e.send.log <= x'.e.send.log && x'.polled == x.polled && LandedOk(x)
    requires y'.stream == y.stream && y'.e.recv.tracker == y.e.recv.tracker && y'.h.notified == y.h.notified
    ensures StreamMatches(x', y')
  {
    var log, log' := x.e.send.log, x'.e.send.log;
    FlagsPrefix(log, log');
    assert forall i | i in x.polled :: i < |log| && log'[i] == log[i] && log'[..i] == log[..i];
    assert PolledSeqs(log', x'.polled) == PolledSeqs(log, x.polled);
    assert SP.Flags(log')[..y.stream.next] == SP.Flags(log)[..y.stream.next];
  }

  lemma GrownNotifies(x: Side, x': Side, y: Side, y': Side)
    requires NotifiesMatch(x, y) && x.e.send.log <= x'.e.send.log && x.e.send.msgs <= x'.e.send.msgs
    requires x'.polled == x.polled && LandedOk(x) && y'.flushed == y.flushed
    requires y'.e.recv == y.e.recv && y'.h.recvDone == y.h.recvDone && y'.h.recvComps == y.h.recvComps
    ensures NotifiesMatch(x', y')
  {
    var log, log' := x.e.send.log, x'.e.send.log;
    assert log'[..|log|] == log;
    SP.NotifiedPrefix(log', |log|);
    forall k: nat | k < |y.h.recvComps| ensures ReceiveOk(x', y', k) { assert ReceiveOk(x, y, k); }
    forall i: nat | i < |log'| && log'[i].qp.Notify?
      ensures i in x'.polled <==> |SP.Notified(log'[..i])| < Received(y)
    {
      if i < |log| {
        assert log'[..i] == log[..i];
      } else {
        assert log'[..i][..|log|] == log;
        SP.NotifiedPrefix(log'[..i], |log|);
      }
    }
  }

  lemma PostSendGrows(e: Endpoint, h: History, wr: SendWr)
    requires Inv(e, h) && SP.ValidMsg(wr) && wr.wrId !in e.cq.index
    ensures Ready(e) && Endpoints.PostSend(e, wr).Ok?
    ensures var e' := Endpoints.PostSend(e, wr).value;
            && e.send.log <= e'.send.log && e'.send.msgs == e.send.msgs + [wr]
            && e'.recv == e.recv && e'.c == e.c
            && e'.cq.recvs == e.cq.recvs && e'.cq.recvsOut == e.cq.recvsOut
  {
    InvReady(e, h);
    EnqueueSendable(e.c, e.send, wr);
    MapPendingLog(e.c, SQ.Enqueue(e.c, e.send, wr), |e.recv.log|, -1);
  }

  lemma CompleteSendGrows(e: Endpoint, h: History, i: nat, p: PhysicalWc)
    requires Inv(e, h) && ReportsSend(e, h, i, p)
    ensures Ready(e) && (e.send.log[i].qp.Data? ==> e.send.log[i].qp.i < e.c.numQps)
    ensures var r := CompleteSend(e, e.send.log[i].qp, p);
            && r.Ok? && e.send.log <= r.value.send.log && r.value.send.msgs == e.send.msgs
            && r.value.recv == e.recv && r.value.c == e.c
            && r.value.cq.recvs == e.cq.recvs && r.value.cq.recvsOut == e.cq.recvsOut
            && e.send.log[i].msg < |SendWcs(e.cq)|
            && SendWcs(r.value.cq) == SendWcs(e.cq)[e.send.log[i].msg := Absorb(SendWcs(e.cq)[e.send.log[i].msg], p)]
  {
    CompleteSendInv(e, h, i, p);
    CountedInv(e, h, i, p);
    var qp, m := e.send.log[i].qp, e.send.log[i].msg;
    FindSend(e.cq, m, p);
    if qp.Data? {
      SP.CompletePost(e.c, e.send, SendWcs(e.cq), |e.cq.sendsOut|, h.sendDone, h.sendComps, i, p);
      SP.PostingSendable(e.c, SQ.PopStatus(e.send, qp));
      MapPendingLog(e.c, SQ.PopStatus(e.send, qp), |e.recv.log|, qp.i);
    }
  }

  // ---------------------------------------------------------------- every step keeps the invariant

  lemma LandedGrows(x: Side, x': Side)
    requires LandedOk(x) && x'.landed == x.landed && x'.polled == x.polled && x.e.send.log <= x'.e.send.log
    requires x'.h.sendDone <= Landed(x) + x'.failed
    ensures LandedOk(x')
  {
    assert forall i: nat, j: nat | i in Landed(x) && j < i :: x'.e.send.log[i] == x.e.send.log[i] && x'.e.send.log[j] == x.e.send.log[j];
  }

  /** The sender's log grew and nothing of the matching receiver changed. */
  lemma CrossGrows(x: Side, x': Side, y: Side, y': Side)
    requires Cross(x, y) && x'.e.c == x.e.c
    requires x'.landed == x.landed && x'.polled == x.polled
    requires x.e.send.log <= x'.e.send.log && x.e.send.msgs <= x'.e.send.msgs && x'.h.sendDone <= Landed(x) + x'.failed
    requires y'.e.recv == y.e.recv && y'.h.recvDone == y.h.recvDone && y'.h.recvComps == y.h.recvComps
    requires y'.flushed == y.flushed && y'.stream == y.stream && y'.h.notified == y.h.notified
    ensures Cross(x', y')
  {
    LandedGrows(x, x');
    if x.e.c.scheme.Spray? {
      GrownNotifies(x, x', y, y');
    } else if y.flushed == [] {
      GrownStream(x, x', y, y');
    }
  }

  /** New messages have not failed, and the others keep their statuses. */
  lemma StatusKept(x: Side, x': Side)
    requires Inv(x.e, x.h) && StatusOk(x) && x.e.send.log <= x'.e.send.log
    requires x'.failed == x.failed && x'.h.sendDone == x.h.sendDone && |SendWcs(x.e.cq)| <= |SendWcs(x'.e.cq)|
    requires forall m: nat | m < |SendWcs(x'.e.cq)| ::
               SendWcs(x'.e.cq)[m].status == if m < |SendWcs(x.e.cq)| then SendWcs(x.e.cq)[m].status else Success
    ensures StatusOk(x')
  {
    forall i | i in x.failed
      ensures i < |x.e.send.log| && x'.e.send.log[i] == x.e.send.log[i] && x.e.send.log[i].msg < |SendWcs(x.e.cq)|
    {
      FailedPost(x, i);
    }
    forall m: nat | m < |SendWcs(x'.e.cq)|
      ensures Fails(x', m) <==> Fails(x, m)
      ensures m >= |SendWcs(x.e.cq)| ==> !Fails(x', m)
    {
    }
  }

  lemma FailedPost(x: Side, i: nat)
    requires Inv(x.e, x.h) && StatusOk(x) && i in x.failed
    ensures i < |x.e.send.log| && x.e.send.log[i].msg < |SendWcs(x.e.cq)|
  {
    var l := SP.SendLedger(x.e.c, x.e.send, SendWcs(x.e.cq), |x.e.cq.sendsOut|, x.h.sendDone, x.h.sendComps);
    assert LedgerInv(l) && i in l.done;
  }

  /** A failed completion, and it alone, makes its message fail. */
  lemma StatusCompletes(x: Side, x': Side, i: nat, p: PhysicalWc)
    requires Inv(x.e, x.h) && StatusOk(x) && x.e.send.log <= x'.e.send.log && i < |x.e.send.log|
    requires x'.failed == FailedAfter(x, i, p) && x'.h.sendDone == x.h.sendDone + {i}
    requires var m := x.e.send.log[i].msg;
             m < |SendWcs(x.e.cq)| && SendWcs(x'.e.cq) == SendWcs(x.e.cq)[m := Absorb(SendWcs(x.e.cq)[m], p)]
    ensures StatusOk(x')
  {
    forall j | j in x.failed ensures j < |x.e.send.log| && x'.e.send.log[j] == x.e.send.log[j] { FailedPost(x, j); }
    forall m: nat | m < |SendWcs(x'.e.cq)|
      ensures Fails(x', m) <==> Fails(x, m) || (m == x.e.send.log[i].msg && p.status != Success)
    {
      if p.status != Success { assert i in x'.failed && x'.e.send.log[i] == x.e.send.log[i]; }
    }
  }

  lemma SidePostSend(x: Side, x': Side, wr: SendWr)
    requires SideInv(x) && SP.ValidMsg(wr) && IsRdma(wr.opcode) && wr.wrId !in x.e.cq.index
    requires Ready(x.e) && Endpoints.PostSend(x.e, wr) == Ok(x'.e) && x' == x.(e := x'.e)
    ensures SideInv(x')
  {
    PostSendInv(x.e, x.h, wr);
    PostSendFlow(x.e, x.h, wr);
    PostSendStranded(x.e, x.h, wr);
    PostSendStatus(x, x', wr);
  }

  lemma PostSendStatus(x: Side, x': Side, wr: SendWr)
    requires Inv(x.e, x.h) && StatusOk(x) && SP.ValidMsg(wr) && IsRdma(wr.opcode) && wr.wrId !in x.e.cq.index
    requires Ready(x.e) && Endpoints.PostSend(x.e, wr) == Ok(x'.e) && x' == x.(e := x'.e)
    ensures StatusOk(x') && (AllRdma(x.e.send) ==> AllRdma(x'.e.send))
  {
    PostSendGrows(x.e, x.h, wr);
    StatusKept(x, x');
  }

  lemma StepPostSend(l: Link, l': Link, wr: SendWr)
    requires LinkInv(l) && Posts(l, l', wr)
    ensures LinkInv(l')
  {
    SidePostSend(l.x, l'.x, wr);
    PostSendGrows(l.x.e, l.x.h, wr);
    CrossGrows(l.x, l'.x, l.y, l'.y);
    CrossGrows(l.y, l'.y, l.x, l'.x);
  }

  lemma PostRecvNotify(e: Endpoint, h: History, wr: RecvWr)
    requires Inv(e, h) && e.c.scheme.Spray? && e.recv.pending == [] && wr.numSge == 0 && wr.wrId !in e.cq.index
    ensures Ready(e) && Endpoints.PostRecv(e, wr).Ok?
    ensures var r := Endpoints.PostRecv(e, wr).value.recv;
            && r.pending == [] && r.wrs == e.recv.wrs + [wr] && |r.log| == |e.recv.log| + 1
            && r.log == e.recv.log + [r.log[|e.recv.log|]]
            && r.log[|e.recv.log|].msg == |e.recv.wrs| && r.log[|e.recv.log|].qp == Notify
  {
    InvReady(e, h);
    EnqueueReceivable(e.c, e.recv, wr);
    var r0 := RQ.Enqueue(e.c, e.recv, wr);
    assert r0.pending == [RQ.VirtualRecvWr(wr, 1, 0, |e.recv.wrs|)];
    var r1 := RQ.PostNotifyRecv(e.c, r0, |e.send.log|, Notify);
    assert r1.pending == [];
    assert RQ.MapPending(e.c, r0, |e.send.log|, -1) == RQ.MapPending(e.c, r1, |e.send.log|, -1) == r1;
  }

  lemma PostRecvKeepsRest(e: Endpoint, h: History, wr: RecvWr)
    requires Inv(e, h) && ValidRecv(e.c, wr) && wr.wrId !in e.cq.index
    ensures Ready(e) && Endpoints.PostRecv(e, wr).Ok?
    ensures var e' := Endpoints.PostRecv(e, wr).value;
            e'.send == e.send && e'.c == e.c && e'.recv.tracker == e.recv.tracker
  {
    InvReady(e, h);
    if e.c.scheme.Spray? {
      EnqueueReceivable(e.c, e.recv, wr);
      RQ.EnqueueInv(e.c, e.recv, wr, RecvWcs(e.cq), |e.cq.recvsOut|, h.recvDone, h.recvComps);
      RQ.MapPendingInv(e.c, RQ.Enqueue(e.c, e.recv, wr), |e.send.log|, -1, RecvWcs(e.cq) + [RQ.InitialWc(e.c, wr)],
                       |e.cq.recvsOut|, h.recvDone, h.recvComps);
    } else {
      RQ.InitRoundsAdd(e.c, RQ.Enqueue(e.c, e.recv, wr), |e.send.log|, e.c.limit, h.recvDone);
    }
  }

  lemma SidePostRecv(l: Link, l': Link, wr: RecvWr)
    requires SideInv(l.x) && Cross(l.x, l.y) && PostsReceive(l, l', wr)
    ensures SideInv(l'.x) && Cross(l'.x, l'.y) && l'.x.e.c == l.x.e.c
  {
    PostRecvInv(l.x.e, l.x.h, wr);
    PostRecvKeepsRest(l.x.e, l.x.h, wr);
    CrossGrows(l.x, l'.x, l.y, l'.y);
  }

  lemma PostRecvCrosses(l: Link, l': Link, wr: RecvWr)
    requires SideInv(l.x) && Matched(l) && Cross(l.y, l.x) && PostsReceive(l, l', wr)
    ensures Cross(l'.y, l'.x)
  {
    if l.x.e.c.scheme.Spray? {
      PostRecvMatches(l.x, l'.x, l.y, wr);
    } else if l.x.flushed == [] {
      PostRecvKeepsRest(l.x.e, l.x.h, wr);
      GrownStream(l.y, l'.y, l.x, l'.x);
    }
  }

  lemma StepPostRecv(l: Link, l': Link, wr: RecvWr)
    requires LinkInv(l) && PostsReceive(l, l', wr)
    ensures LinkInv(l')
  {
    SidePostRecv(l, l', wr);
    PostRecvCrosses(l, l', wr);
  }

  /** A newly posted receive waits behind the earlier ones for its notify. */
  lemma PostRecvMatches(x: Side, x': Side, y: Side, wr: RecvWr)
    requires Inv(x.e, x.h) && x.e.c.scheme.Spray? && NotifiesMatch(y, x) && wr.numSge == 0 && wr.wrId !in x.e.cq.index
    requires Ready(x.e) && Endpoints.PostRecv(x.e, wr) == Ok(x'.e) && x' == x.(e := x'.e)
    ensures NotifiesMatch(y, x')
  {
    PostRecvNotify(x.e, x.h, wr);
    forall k: nat | k < |x.h.recvComps| ensures ReceiveOk(y, x', k) { assert ReceiveOk(y, x, k); }
  }

  lemma LandedAppend(x: Side, i: nat)
    requires LandedOk(x) && Oldest(x.e.send.log, Landed(x), i)
    ensures LandedOk(x.(landed := x.landed + [i]))
  {
    assert Landed(x.(landed := x.landed + [i])) == Landed(x) + {i};
    assert forall a | 0 <= a < |x.landed| :: x.landed[a] in Landed(x);
  }

  lemma SameReceives(x: Side, x': Side, y: Side)
    requires NotifiesMatch(x, y) && x'.e == x.e && x'.polled == x.polled
    ensures NotifiesMatch(x', y)
  {
    forall k: nat | k < |y.h.recvComps| ensures ReceiveOk(x', y, k) { assert ReceiveOk(x, y, k); }
  }

  lemma CrossLand(x: Side, x': Side, y: Side, i: nat)
    requires Cross(x, y) && Oldest(x.e.send.log, Landed(x), i) && x' == x.(landed := x.landed + [i])
    ensures Cross(x', y)
  {
    LandedAppend(x, i);
    if x.e.c.scheme.Spray? {
      SameReceives(x, x', y);
    } else if y.flushed == [] {
      assert StreamMatches(x', y);
    }
  }

  lemma StepLand(l: Link, l': Link, i: nat)
    requires LinkInv(l) && Lands(l, l', i)
    ensures LinkInv(l')
  {
    CrossLand(l.x, l'.x, l.y, i);
    CrossGrows(l.y, l'.y, l.x, l'.x);
  }

  lemma PolledAppend(x: Side, i: nat)
    requires LandedOk(x) && NextToPoll(x, i)
    ensures LandedOk(x.(polled := x.polled + {i}))
  {
  }

  lemma InvIgnored(e: Endpoint, h: History, ignored: set<nat>)
    requires Inv(e, h)
    ensures Inv(e, h.(ignored := ignored))
  {
  }

  lemma StepComplete(l: Link, l': Link, i: nat, p: PhysicalWc)
    requires LinkInv(l) && Completes(l, l', i, p)
    ensures LinkInv(l')
  {
    CompleteSendInv(l.x.e, l.x.h, i, p);
    InvIgnored(l'.x.e, AfterSend(l.x.e, l.x.h, i, p), IgnoredAfter(l.x.e, l.x.h, i, p));
    CompleteSendFlow(l.x.e, l.x.h, i, p);
    CompleteSendStranded(l.x.e, l.x.h, i, p);
    if l.x.e.c.numQps == 1 { OneQpServesAll(l.x.e, l.x.h, i, p); }
    CompleteSendGrows(l.x.e, l.x.h, i, p);
    StatusCompletes(l.x, l'.x, i, p);
    CrossGrows(l.x, l'.x, l.y, l'.y);
    CrossGrows(l.y, l'.y, l.x, l'.x);
  }

  lemma PollKeepsWcs(e: Endpoint, n: nat)
    ensures SendWcs(CompletionQueue.Poll(e.cq, n).0) == SendWcs(e.cq)
  {
    var a, b := PollLoopFifo(Polling(e.cq, [], true, true), n);
  }

  lemma StepPoll(l: Link, l': Link, n: nat)
    requires LinkInv(l) && Acts(l, l', Poll(n))
    ensures LinkInv(l')
  {
    PollKeeps(l.x.e, l.x.h, n);
    PollKeepsWcs(l.x.e, n);
    StatusKept(l.x, l'.x);
    CrossGrows(l.x, l'.x, l.y, l'.y);
    CrossGrows(l.y, l'.y, l.x, l'.x);
  }

  // ---------------------------------------------------------------- a notify is handled

  /** The entry at a given position among the notifies. */
  lemma {:induction false} NotifiedAt(log: seq<Posted<PhysicalSend>>, k: nat) returns (i: nat)
    requires k < |SP.Notified(log)|
    ensures i < |log| && log[i].qp.Notify? && |SP.Notified(log[..i])| == k && SP.Notified(log)[k] == log[i].msg
  {
    var n := |log| - 1;
    if k < |SP.Notified(log[..n])| {
      i := NotifiedAt(log[..n], k);
      assert log[..n][..i] == log[..i];
    } else {
      i := n;
    }
  }

  lemma NotifiedBelow(log: seq<Posted<PhysicalSend>>, i: nat, j: nat)
    requires i < j <= |log| && log[i].qp.Notify?
    ensures |SP.Notified(log[..i])| < |SP.Notified(log[..j])|
  {
    SP.NotifiedAppend(log[..i], log[i]);
    assert log[..i] + [log[i]] == log[..j][..i + 1];
    SP.NotifiedPrefix(log[..j], i + 1);
  }

  /** The oldest notify that has not been handled is the one after those that have. */
  lemma OldestNotifyIsNext(x: Side, y: Side, i: nat)
    requires NotifiesMatch(x, y) && SP.Contents(x.e.c, x.e.send) && NextToPoll(x, i) && x.e.send.log[i].qp.Notify?
    ensures |SP.Notified(x.e.send.log[..i])| == Received(y) < |SP.Notified(x.e.send.log)|
    ensures SP.Notified(x.e.send.log)[Received(y)] == x.e.send.log[i].msg
  {
    var log, n := x.e.send.log, Received(y);
    NotifiedBelow(log, i, |log|);
    assert log[..|log|] == log;
    var j := NotifiedAt(log, n);
    assert j !in x.polled;
    assert SP.ContentOk(x.e.c, x.e.send, j);
    if i < j {
      NotifiedBelow(log, i, j);
    }
  }

  lemma PolledNotify(log: seq<Posted<PhysicalSend>>, polled: set<nat>, i: nat, n: int)
    requires PolledThrough(log, polled, n) && i < |log| && log[i].qp.Notify? && |SP.Notified(log[..i])| == n
    ensures PolledThrough(log, polled + {i}, n + 1)
  {
    forall j: nat | j < |log| && log[j].qp.Notify?
      ensures j in polled + {i} <==> |SP.Notified(log[..j])| < n + 1
    {
      if j < i { NotifiedBelow(log, j, i); } else if i < j { NotifiedBelow(log, i, j); }
    }
  }

  /** What one more completed receive does at a SPRAY receiver. */
  ghost predicate NextReceive(y: Side, y': Side, p: PhysicalWc) {
    var n := |y.h.recvComps|;
    && y'.e.recv.pending == [] && y'.e.recv.log == y.e.recv.log && y'.e.recv.wrs == y.e.recv.wrs
    && y'.h.recvDone == y.h.recvDone + {n} && y'.h.recvComps == y.h.recvComps + [Completion(n, p)]
  }

  lemma CrossNotify(x: Side, x': Side, y: Side, y': Side, i: nat, p: PhysicalWc)
    requires NotifiesMatch(x, y) && SP.Contents(x.e.c, x.e.send)
    requires NextToPoll(x, i) && x.e.send.log[i].qp.Notify? && p.imm == x.e.send.log[i].wr.imm
    requires x' == x.(polled := x.polled + {i}) && y.flushed == [] == y'.flushed && p.status == Success
    requires NextReceive(y, y', p)
    ensures NotifiesMatch(x', y')
  {
    assert SP.ContentOk(x.e.c, x.e.send, i);
    OldestNotifyIsNext(x, y, i);
    PolledNotify(x.e.send.log, x.polled, i, Received(y));
    forall k: nat | k < |y'.h.recvComps| ensures ReceiveOk(x', y', k) { assert k < |y.h.recvComps| ==> ReceiveOk(x, y, k); }
  }

  lemma SideCompleteRecv(y: Side, y': Side, r: nat, p: PhysicalWc)
    requires SideInv(y) && CompletesReceive(y, y', r, p) && y'.failed == y.failed
    ensures SideInv(y') && y'.e.c == y.e.c && y'.e.send == y.e.send
  {
    if y.e.c.scheme.Spray? { CompleteRecvSpray(y.e, y.h, r, p); } else { CompleteRecvDqplb(y.e, y.h, r, Passed(y.e.c, p)); }
    StatusKept(y, y');
  }

  lemma NotifyCrosses(l: Link, l': Link, i: nat, r: nat, p: PhysicalWc)
    requires Cross(l.x, l.y) && SP.Contents(l.x.e.c, l.x.e.send) && Inv(l.y.e, l.y.h) && l.x.e.c.scheme.Spray?
    requires l.y.e.c.scheme.Spray? && Receives(l, l', i, r, p) && l.x.e.send.log[i].qp.Notify?
    ensures Cross(l'.x, l'.y)
  {
    NoneFlushed(l.x, l.y);
    ReceiveIsNext(l.x, l.y, l'.y, r, p);
    PolledAppend(l.x, i);
    CrossNotify(l.x, l'.x, l.y, l'.y, i, p);
  }

  lemma FlushedIsPosted(x: Side, y: Side, f: nat)
    requires NotifiesMatch(x, y) && InOrder(y.e.recv.log, y.h.recvDone) && f in y.flushed
    ensures f < |y.e.recv.log| && y.e.recv.log[f].qp == Notify
  {
    assert f in y.h.recvDone;
  }

  /** While the notify QP of a SPRAY receiver works, none of its receives has failed. */
  lemma NoneFlushed(x: Side, y: Side)
    requires NotifiesMatch(x, y) && Inv(y.e, y.h) && y.e.c.scheme.Spray? && !Broken(y, Notify)
    ensures y.flushed == []
  {
    assert InOrder(y.e.recv.log, y.h.recvDone);
    if y.flushed != [] { assert Broken(y, Notify) by { FlushedIsPosted(x, y, y.flushed[0]); } }
  }

  lemma OldestReceiveIsNext(x: Side, y: Side, r: nat)
    requires NotifiesMatch(x, y) && Oldest(y.e.recv.log, y.h.recvDone, r)
    ensures r == |y.h.recvComps| && y.e.recv.log[r].msg == r && y.e.recv.log[r].qp == Notify
  {
    var log, n := y.e.recv.log, |y.h.recvComps|;
    assert r !in y.h.recvDone;
    assert n <= r;
    assert log[n].qp == log[r].qp;
  }

  /** In SPRAY a completed receive is the next one, and only leaves its QP's deque. */
  lemma ReceiveIsNext(x: Side, y: Side, y': Side, r: nat, p: PhysicalWc)
    requires NotifiesMatch(x, y) && Inv(y.e, y.h) && y.e.c.scheme.Spray? && CompletesReceive(y, y', r, p)
    ensures r == |y.h.recvComps| && NextReceive(y, y', p)
  {
    OldestReceiveIsNext(x, y, r);
    NotifyRecvPops(y.e, y.h, r, p);
  }

  /** A completion on the notify QP only takes its entry off that QP's status deque. */
  lemma NotifyRecvPops(e: Endpoint, h: History, r: nat, p: PhysicalWc)
    requires Inv(e, h) && ReportsRecv(e, h, r, p) && e.c.scheme.Spray? && e.recv.log[r].qp.Notify?
    ensures Ready(e) && CompleteRecv(e, Notify, p).Ok? && RQ.StatusOf(e.recv, Notify) != []
    ensures CompleteRecv(e, Notify, p).value.recv == RQ.PopStatus(e.recv, Notify)
  {
    CompleteRecvSpray(e, h, r, p);
  }

  // ---------------------------------------------------------------- a sequenced chunk is handled

  lemma SeqBelow(log: seq<Posted<PhysicalSend>>, i: nat, j: nat)
    requires i < j <= |log| && SP.IsSequenced(log[i])
    ensures SeqOf(log, i) < SeqOf(log, j)
    ensures SP.Flags(log[..j])[SeqOf(log, i)] == SeqLast(log, i)
  {
    SP.FlagsAppend(log[..i], log[i]);
    assert log[..i] + [log[i]] == log[..i + 1];
    FlagsPrefix(log[..i + 1], log[..j]);
  }

  lemma SeqInjective(log: seq<Posted<PhysicalSend>>, i: nat, j: nat)
    requires i < |log| && j < |log| && SP.IsSequenced(log[i]) && SP.IsSequenced(log[j]) && SeqOf(log, i) == SeqOf(log, j)
    ensures i == j
  {
    if i < j { SeqBelow(log, i, j); } else if j < i { SeqBelow(log, j, i); }
  }

  lemma PolledSeqsAdd(log: seq<Posted<PhysicalSend>>, polled: set<nat>, i: nat)
    requires i < |log| && i !in polled && SP.IsSequenced(log[i])
    ensures PolledSeqs(log, polled + {i}) == PolledSeqs(log, polled) + {SeqOf(log, i)}
    ensures SeqOf(log, i) !in PolledSeqs(log, polled)
  {
    if SeqOf(log, i) in PolledSeqs(log, polled) {
      var j :| j in polled && j < |log| && SP.IsSequenced(log[j]) && SeqOf(log, j) == SeqOf(log, i);
      SeqInjective(log, i, j);
    }
  }

  /** One more number handled moves the wrapped tracker and the unbounded one together. */
  lemma StreamAdvances(x: Side, y: Side, i: nat)
    requires StreamMatches(x, y) && i < |x.e.send.log| && i !in x.polled && SP.IsSequenced(x.e.send.log[i])
    requires SeqOf(x.e.send.log, i) < y.stream.next + Seq.SEQ_NUM_MASK
    requires x.e.send.log[i].wr.imm == Seq.EncodeImm(Seq.Residue(SeqOf(x.e.send.log, i)), SeqLast(x.e.send.log, i))
    ensures var log, k := x.e.send.log, SeqOf(x.e.send.log, i);
            var bits := SP.Flags(log);
            var (w, cw) := Seq.Receive(y.e.recv.tracker, log[i].wr.imm);
            var (u, cu) := Seq.ReceiveUnbounded(y.stream, k, SeqLast(log, i));
            && cw == cu && Seq.InWindow(u) && Seq.Wraps(w, u)
            && Seq.Holds(u, PolledSeqs(log, x.polled + {i}), bits)
            && u.next <= |bits| && y.h.notified + cw == Seq.Lasts(bits[..u.next])
  {
    var log, k := x.e.send.log, SeqOf(x.e.send.log, i);
    PolledSeqsAdd(log, x.polled, i);
    SeqBelow(log, i, |log|);
    assert log[..|log|] == log;
    assert y.stream.next <= k;
    Seq.WrappedRefinesUnbounded(y.e.recv.tracker, y.stream, k, SeqLast(log, i));
    Seq.DeliversLongestPrefix(y.stream, PolledSeqs(log, x.polled), SP.Flags(log), k);
  }

  /** In DQPLB a post with an immediate is a data chunk that carries its sequence number. */
  lemma SequencedImm(c: SQ.Config, s: SQ.SendState, i: nat)
    requires SP.Contents(c, s) && i < |s.log| && s.log[i].wr.opcode.RdmaWriteWithImm? && s.log[i].qp.Data?
    ensures c.scheme.Dqplb? && SP.IsSequenced(s.log[i])
    ensures s.log[i].wr.imm == Seq.EncodeImm(Seq.Residue(SeqOf(s.log, i)), SeqLast(s.log, i))
  {
    assert SP.ContentOk(c, s, i);
    var m := s.log[i].msg;
    Seq.ImmRoundTrip(Seq.Residue(SeqOf(s.log, i)), CountMsg(s.log[..i], m) + 1 == SQ.Chunks(s.msgs[m].length, c.maxMsgSize));
  }

  lemma CrossSequenced(x: Side, x': Side, y: Side, y': Side, i: nat)
    requires Cross(x, y) && x.e.c.scheme.Dqplb? && SP.Contents(x.e.c, x.e.send)
    requires NextToPoll(x, i) && x.e.send.log[i].qp.Data?
    requires x' == x.(polled := x.polled + {i}) && y'.flushed == y.flushed
    requires var k := SeqOf(x.e.send.log, i);
             && k < y.stream.next + Seq.SEQ_NUM_MASK
             && y'.stream == Seq.ReceiveUnbounded(y.stream, k, SeqLast(x.e.send.log, i)).0
             && (y'.e.recv.tracker, y'.h.notified - y.h.notified) == Seq.Receive(y.e.recv.tracker, x.e.send.log[i].wr.imm)
    ensures Cross(x', y')
  {
    SequencedImm(x.e.c, x.e.send, i);
    PolledAppend(x, i);
    if y.flushed == [] {
      StreamAdvances(x, y, i);
      assert StreamMatches(x', y');
    }
  }

  /** A completed receive moves the tracker by its immediate, or by 0 if it carries none. */
  lemma ReceiveTracks(y: Side, y': Side, r: nat, p: PhysicalWc)
    requires Inv(y.e, y.h) && y.e.c.scheme.Dqplb? && CompletesReceive(y, y', r, p)
    ensures y'.h.sendDone == y.h.sendDone
    ensures (y'.e.recv.tracker, y'.h.notified - y.h.notified)
            == Seq.Receive(y.e.recv.tracker, if p.opcode.WcRecvRdmaWithImm? then p.imm else 0)
  {
    TrackerMoves(y.e, y.h, r, Passed(y.e.c, p));
    AfterRecvCounts(y.e, y.h, r, Passed(y.e.c, p));
  }

  lemma TrackerMoves(e: Endpoint, h: History, r: nat, p: PhysicalWc)
    requires Inv(e, h) && ReportsRecv(e, h, r, p) && e.c.scheme.Dqplb?
    ensures Ready(e) && (e.recv.log[r].qp.Data? ==> e.recv.log[r].qp.i < e.c.numQps)
    ensures var e' := Endpoints.CompleteRecv(e, e.recv.log[r].qp, p);
            e'.Ok? && e'.value.recv.tracker == Seq.Receive(e.recv.tracker, p.imm).0
  {
    CompleteRecvDqplb(e, h, r, p);
  }

  lemma AfterRecvCounts(e: Endpoint, h: History, r: nat, p: PhysicalWc)
    requires e.c.scheme.Dqplb? && r < |e.recv.log|
    ensures var h' := AfterRecv(e, h, r, p);
            h'.sendDone == h.sendDone && h'.notified - h.notified == Seq.Receive(e.recv.tracker, p.imm).1
  {
  }

  lemma SequencedCrosses(l: Link, l': Link, i: nat, r: nat, p: PhysicalWc)
    requires Cross(l.x, l.y) && SP.Contents(l.x.e.c, l.x.e.send) && Inv(l.y.e, l.y.h) && l.x.e.c.scheme.Dqplb?
    requires l.y.e.c.scheme.Dqplb? && Receives(l, l', i, r, p) && l.x.e.send.log[i].qp.Data?
    ensures Cross(l'.x, l'.y)
  {
    SequencedImm(l.x.e.c, l.x.e.send, i);
    ReceiveTracks(l.y, l'.y, r, p);
    CrossSequenced(l.x, l'.x, l.y, l'.y, i);
  }

  /** The receiving side and what it sends itself. */
  lemma ReceiverKeeps(l: Link, l': Link, i: nat, r: nat, p: PhysicalWc)
    requires SideInv(l.y) && Cross(l.y, l.x) && Receives(l, l', i, r, p)
    ensures SideInv(l'.y) && Cross(l'.y, l'.x) && l'.y.e.c == l.y.e.c
  {
    SideCompleteRecv(l.y, l'.y, r, p);
    CrossGrows(l.y, l'.y, l.x, l'.x);
  }

  lemma ReceiveCrosses(l: Link, l': Link, i: nat, r: nat, p: PhysicalWc)
    requires SideInv(l.x) && SideInv(l.y) && Matched(l) && Cross(l.x, l.y) && Receives(l, l', i, r, p)
    ensures Cross(l'.x, l'.y)
  {
    assert SP.ContentOk(l.x.e.c, l.x.e.send, i);
    if l.x.e.send.log[i].qp.Notify? {
      NotifyCrosses(l, l', i, r, p);
    } else {
      SequencedImm(l.x.e.c, l.x.e.send, i);
      SequencedCrosses(l, l', i, r, p);
    }
  }

  lemma SenderStays(l: Link, l': Link, i: nat, r: nat, p: PhysicalWc)
    requires SideInv(l.x) && Receives(l, l', i, r, p)
    ensures SideInv(l'.x) && l'.x.e.c == l.x.e.c
  {
  }

  lemma StepReceive(l: Link, l': Link, i: nat, r: nat, p: PhysicalWc)
    requires LinkInv(l) && Receives(l, l', i, r, p)
    ensures LinkInv(l')
  {
    ReceiverKeeps(l, l', i, r, p);
    ReceiveCrosses(l, l', i, r, p);
    SenderStays(l, l', i, r, p);
  }

  // ---------------------------------------------------------------- a receive fails

  lemma CrossFlush(x: Side, y: Side, y': Side, p: PhysicalWc)
    requires NotifiesMatch(x, y) && NextReceive(y, y', p) && p.status != Success && y'.flushed == y.flushed + [|y.h.recvComps|]
    ensures NotifiesMatch(x, y')
  {
    forall k: nat | k < |y'.h.recvComps| ensures ReceiveOk(x, y', k) { assert k < |y.h.recvComps| ==> ReceiveOk(x, y, k); }
  }

  lemma FlushCrosses(l: Link, l': Link, r: nat, p: PhysicalWc)
    requires SideInv(l.x) && Matched(l) && Cross(l.y, l.x) && Flushes(l, l', r, p)
    ensures Cross(l'.y, l'.x)
  {
    if l.x.e.c.scheme.Spray? {
      ReceiveIsNext(l.y, l.x, l'.x, r, p);
      CrossFlush(l.y, l.x, l'.x, p);
    }
  }

  lemma StepFlush(l: Link, l': Link, r: nat, p: PhysicalWc)
    requires LinkInv(l) && Flushes(l, l', r, p)
    ensures LinkInv(l')
  {
    SideCompleteRecv(l.x, l'.x, r, p);
    CrossGrows(l.x, l'.x, l.y, l'.y);
    FlushCrosses(l, l', r, p);
  }

  /** The calls of the user, and what the device does with posts and receives. */
  ghost predicate IsCall(step: Step) { step.PostSend? || step.PostRecv? || step.Poll? }

  lemma CallInv(l: Link, l': Link, step: Step)
    requires LinkInv(l) && Acts(l, l', step) && IsCall(step)
    ensures LinkInv(l')
  {
    match step
    case PostSend(wr) => StepPostSend(l, l', wr);
    case PostRecv(wr) => StepPostRecv(l, l', wr);
    case Poll(n) => StepPoll(l, l', n);
  }

  lemma DeviceInv(l: Link, l': Link, step: Step)
    requires LinkInv(l) && Acts(l, l', step) && !IsCall(step)
    ensures LinkInv(l')
  {
    match step
    case Land(i) => StepLand(l, l', i);
    case Receive(i, r, p) => StepReceive(l, l', i, r, p);
    case Complete(i, p) => StepComplete(l, l', i, p);
    case Flush(r, p) => StepFlush(l, l', r, p);
  }

  lemma StepInv(l: Link, l': Link, step: Step)
    requires LinkInv(l) && Acts(l, l', step)
    ensures LinkInv(l')
  {
    if IsCall(step) { CallInv(l, l', step); } else { DeviceInv(l, l', step); }
  }

  lemma InitialInv(l: Link)
    requires Initial(l)
    ensures LinkInv(l)
  {
    IdleSide(l.x);
    IdleSide(l.y);
    IdleCross(l.x, l.y);
    IdleCross(l.y, l.x);
  }

  lemma IdleSide(s: Side)
    requires s.e.c.Valid() && s == Resting(s.e.c)
    ensures SideInv(s)
  {
    IdleInv(s.e.c);
  }

  lemma IdleCross(x: Side, y: Side)
    requires x.e.c.Valid() && y.e.c.Valid() && x == Resting(x.e.c) && y == Resting(y.e.c)
    ensures Cross(x, y)
  {
    assert PolledSeqs(x.e.send.log, x.polled) == {};
    assert SP.Flags(x.e.send.log)[..0] == [];
  }

  lemma NextInv(l: Link, l': Link)
    requires LinkInv(l) && Next(l, l')
    ensures LinkInv(l')
  {
    var step :| Acts(l, l', step) || Acts(Swap(l), Swap(l'), step);
    if Acts(l, l', step) { StepInv(l, l', step); } else { StepInv(Swap(l), Swap(l'), step); }
  }

  /** Every state of every run satisfies the invariant. */
  lemma {:induction false} RunInv(run: seq<Link>, i: nat)
    requires IsRun(run) && i < |run|
    ensures LinkInv(run[i])
  {
    if i == 0 {
      InitialInv(run[0]);
    } else {
      RunInv(run, i - 1);
      NextInv(run[i - 1], run[i]);
    }
  }
}
