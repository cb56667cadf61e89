/**
 * The virtual completion queue: folding physical completions into virtual ones and handing them out in
 * post order.
 */
module CompletionQueue {
  import opened Verbs

  const TWO_32: nat := 0x1_0000_0000

  datatype VirtualWc = VirtualWc(wrId: nat, status: WcStatus, byteLen: nat, imm: nat, remaining: int, extraNotify: bool)

  /** Where an entry of virtualWrIdToVirtualWc_ points: the n-th completion ever queued in a direction. */
  datatype WcRef = SendRef(n: nat) | RecvRef(n: nat) | NullRef

  datatype CqState = CqState(
    sends: seq<VirtualWc>,        // pendingSendVirtualWcQue_
    sendsOut: seq<VirtualWc>,     // the send completions already returned
    recvs: seq<VirtualWc>,        // pendingRecvVirtualWcQue_
    recvsOut: seq<VirtualWc>,     // the receive completions already returned
    index: map<int, WcRef>)       // virtualWrIdToVirtualWc_

  function FreshWc(wrId: nat, expected: nat, extraNotify: bool): VirtualWc {
    VirtualWc(wrId, Success, 0, 0, expected, extraNotify)
  }

  /** processRequest for a send; only signaled requests and writes with immediate get a completion. */
  function EnqueueSend(cq: CqState, wr: SendWr, expected: nat, extraNotify: bool): CqState {
    if wr.signaled || wr.opcode.RdmaWriteWithImm? then
      cq.(sends := cq.sends + [FreshWc(wr.wrId, expected, extraNotify)],
          index := cq.index[wr.wrId := SendRef(|cq.sendsOut| + |cq.sends|)])
    else cq.(index := cq.index[wr.wrId := NullRef])
  }

  function EnqueueRecv(cq: CqState, wr: RecvWr, expected: nat): CqState {
    cq.(recvs := cq.recvs + [FreshWc(wr.wrId, expected, false)],
        index := cq.index[wr.wrId := RecvRef(|cq.recvsOut| + |cq.recvs|)])
  }

  /**
   * A signaled request and a write with immediate get a completion that counts what is expected, found under the
   * id of the request; any other send gets none.
   */
  lemma SendIsQueued(cq: CqState, wr: SendWr, expected: nat, extraNotify: bool)
    ensures var cq', n := EnqueueSend(cq, wr, expected, extraNotify), |cq.sends|;
            if wr.signaled || wr.opcode.RdmaWriteWithImm? then
              && cq'.sends == cq.sends + [VirtualWc(wr.wrId, Success, 0, 0, expected, extraNotify)]
              && Live(cq', wr.wrId) && Entry(cq', wr.wrId) == cq'.sends[n]
            else cq'.sends == cq.sends && !Live(cq', wr.wrId)
  {
  }

  /** Every receive gets one. */
  lemma RecvIsQueued(cq: CqState, wr: RecvWr, expected: nat)
    ensures var cq' := EnqueueRecv(cq, wr, expected);
            && cq'.recvs == cq.recvs + [VirtualWc(wr.wrId, Success, 0, 0, expected, false)]
            && Live(cq', wr.wrId) && Entry(cq', wr.wrId) == cq'.recvs[|cq.recvs|]
  {
  }

  /** The index entry for a work request id, if it points at a completion that is still queued. */
  predicate Live(cq: CqState, wrId: int) {
    && wrId in cq.index
    && match cq.index[wrId]
       case SendRef(n) => |cq.sendsOut| <= n < |cq.sendsOut| + |cq.sends|
       case RecvRef(n) => |cq.recvsOut| <= n < |cq.recvsOut| + |cq.recvs|
       case NullRef => false
  }

  function Entry(cq: CqState, wrId: int): VirtualWc
    requires Live(cq, wrId)
  {
    match cq.index[wrId]
    case SendRef(n) => cq.sends[n - |cq.sendsOut|]
    case RecvRef(n) => cq.recvs[n - |cq.recvsOut|]
  }

  /** updateVirtualWcFromPhysicalWc together with the count: the first error sticks, lengths add up in 32 bits. */
  function Absorb(v: VirtualWc, p: PhysicalWc): VirtualWc {
    v.(remaining := v.remaining - 1,
       status := if p.status != Success && v.status == Success then p.status else v.status,
       byteLen := (v.byteLen + p.byteLen) % TWO_32,
       imm := p.imm)
  }

  function AbsorbAt(cq: CqState, wrId: int, p: PhysicalWc): CqState
    requires Live(cq, wrId)
  {
    match cq.index[wrId]
    case SendRef(n) => cq.(sends := cq.sends[n - |cq.sendsOut| := Absorb(cq.sends[n - |cq.sendsOut|], p)])
    case RecvRef(n) => cq.(recvs := cq.recvs[n - |cq.recvsOut| := Absorb(cq.recvs[n - |cq.recvsOut|], p)])
  }

  /** The DQPLB branch: the first `count` unfinished receives become finished. */
  function MarkNotified(recvs: seq<VirtualWc>, count: nat): seq<VirtualWc> {
    if recvs == [] || count == 0 then recvs
    else if recvs[0].remaining != 0 then [recvs[0].(remaining := 0)] + MarkNotified(recvs[1..], count - 1)
    else [recvs[0]] + MarkNotified(recvs[1..], count)
  }

  /** The same in place: from position i on, with `left` notifies to use up. */
  ghost function MarkFrom(recvs: seq<VirtualWc>, i: nat, left: nat): seq<VirtualWc>
    decreases |recvs| - i
  {
    if i >= |recvs| || left == 0 then recvs
    else if recvs[i].remaining != 0 then MarkFrom(recvs[i := recvs[i].(remaining := 0)], i + 1, left - 1)
    else MarkFrom(recvs, i + 1, left)
  }

  lemma MarkFromStep(recvs: seq<VirtualWc>, i: nat, left: nat)
    requires i < |recvs| && left > 0
    ensures MarkFrom(recvs, i, left) ==
              if recvs[i].remaining != 0 then MarkFrom(recvs[i := recvs[i].(remaining := 0)], i + 1, left - 1)
              else MarkFrom(recvs, i + 1, left)
  {
  }

  lemma {:induction false} MarkFromIs(recvs: seq<VirtualWc>, i: nat, left: nat)
    requires i <= |recvs|
    ensures MarkFrom(recvs, i, left) == recvs[..i] + MarkNotified(recvs[i..], left)
    decreases |recvs| - i
  {
    if i == |recvs| || left == 0 {
      assert recvs == recvs[..i] + recvs[i..];
    } else {
      var first := if recvs[i].remaining != 0 then recvs[i].(remaining := 0) else recvs[i];
      var next := recvs[i := first];
      assert recvs[i].remaining == 0 ==> next == recvs;
      MarkFromIs(next, i + 1, if recvs[i].remaining != 0 then left - 1 else left);
      assert next[..i + 1] == recvs[..i] + [first];
      assert next[i + 1..] == recvs[i..][1..];
    }
  }

  /** Marking in place and building the marked queue from its front agree. */
  lemma MarkInPlace(recvs: seq<VirtualWc>, count: nat)
    ensures MarkFrom(recvs, 0, count) == MarkNotified(recvs, count)
  {
    MarkFromIs(recvs, 0, count);
    assert recvs[0..] == recvs && recvs[..0] == [];
  }

  // ---------------------------------------------------------------- handing completions out

  function PopSend(cq: CqState): CqState
    requires cq.sends != []
  {
    cq.(sends := cq.sends[1..], sendsOut := cq.sendsOut + [cq.sends[0]], index := cq.index - {cq.sends[0].wrId})
  }

  function PopRecv(cq: CqState): CqState
    requires cq.recvs != []
  {
    cq.(recvs := cq.recvs[1..], recvsOut := cq.recvsOut + [cq.recvs[0]], index := cq.index - {cq.recvs[0].wrId})
  }

  predicate SendReady(cq: CqState) { cq.sends != [] && cq.sends[0].remaining <= 0 }

  predicate RecvReady(cq: CqState) { cq.recvs != [] && cq.recvs[0].remaining <= 0 }

  datatype Polling = Polling(cq: CqState, out: seq<VirtualWc>, sendsOpen: bool, recvsOpen: bool)

  /** One pass of the poll loop: at most one send, then at most one receive. */
  function PollPass(p: Polling): Polling {
    var takeSend := p.sendsOpen && SendReady(p.cq);
    var cq1 := if takeSend then PopSend(p.cq) else p.cq;
    var out1 := if takeSend then p.out + [p.cq.sends[0]] else p.out;
    var takeRecv := p.recvsOpen && RecvReady(cq1);
    Polling(if takeRecv then PopRecv(cq1) else cq1, if takeRecv then out1 + [cq1.recvs[0]] else out1, takeSend, takeRecv)
  }

  predicate PollMore(p: Polling, n: nat) { |p.out| < n && (p.sendsOpen || p.recvsOpen) }

  /** loopPollVirtualCqUntil. A direction that was once found blocked is not looked at again. */
  function PollLoop(p: Polling, n: nat): Polling
    decreases |p.cq.sends| + |p.cq.recvs|, if p.sendsOpen then 1 else 0, if p.recvsOpen then 1 else 0
  {
    if PollMore(p, n) then PollLoop(PollPass(p), n) else p
  }

  function Poll(cq: CqState, n: nat): (CqState, seq<VirtualWc>) {
    var end := PollLoop(Polling(cq, [], true, true), n);
    (end.cq, end.out)
  }

  /** What the user gets of a virtual completion. */
  function Answer(v: VirtualWc): IbvWc { IbvWc(v.wrId, v.status, v.byteLen, v.imm) }

  ghost function Answers(vs: seq<VirtualWc>): seq<IbvWc> { seq(|vs|, i requires 0 <= i < |vs| => Answer(vs[i])) }

  /** The poll as its user sees it. */
  ghost function PollCq(cq: CqState, n: nat): (CqState, seq<IbvWc>) {
    var (cq', out) := Poll(cq, n);
    (cq', Answers(out))
  }

  /** Two queues taken in turns, then the rest of the longer one. */
  ghost function Merge(a: seq<VirtualWc>, b: seq<VirtualWc>): seq<VirtualWc> {
    if a == [] then b else if b == [] then a else [a[0], b[0]] + Merge(a[1..], b[1..])
  }

  lemma {:induction false} MergeLength(a: seq<VirtualWc>, b: seq<VirtualWc>)
    ensures |Merge(a, b)| == |a| + |b|
  {
    if a != [] && b != [] { MergeLength(a[1..], b[1..]); }
  }

  lemma {:induction false} MergeAt(a: seq<VirtualWc>, b: seq<VirtualWc>, i: nat)
    requires i < |a| + |b|
    ensures |Merge(a, b)| == |a| + |b|
    ensures Merge(a, b)[i] ==
      if i < 2 * Min(|a|, |b|) then (if i % 2 == 0 then a[i / 2] else b[i / 2])
      else if |a| > |b| then a[i - |b|] else b[i - |a|]
  {
    MergeLength(a, b);
    if a != [] && b != [] && i >= 2 {
      MergeAt(a[1..], b[1..], i - 2);
      assert Merge(a, b)[i] == Merge(a[1..], b[1..])[i - 2];
    }
  }

  ghost function Ids(wcs: seq<VirtualWc>): set<int> { set i | 0 <= i < |wcs| :: wcs[i].wrId }

  /** `after` is `before` with the first a sends and the first b receives handed out, all of them finished. */
  ghost predicate HandedOut(before: CqState, after: CqState, a: nat, b: nat) {
    && a <= |before.sends| && b <= |before.recvs|
    && after.sends == before.sends[a..] && after.sendsOut == before.sendsOut + before.sends[..a]
    && after.recvs == before.recvs[b..] && after.recvsOut == before.recvsOut + before.recvs[..b]
    && after.index == before.index - (Ids(before.sends[..a]) + Ids(before.recvs[..b]))
    && (forall i | 0 <= i < a :: before.sends[i].remaining <= 0)
    && (forall i | 0 <= i < b :: before.recvs[i].remaining <= 0)
  }

  lemma IdsCons(x: VirtualWc, xs: seq<VirtualWc>)
    ensures Ids([x] + xs) == {x.wrId as int} + Ids(xs)
  {
    assert forall i | 0 <= i < |xs| :: ([x] + xs)[i + 1] == xs[i];
    assert ([x] + xs)[0] == x;
  }

  lemma HandedOutOneSend(before: CqState, after: CqState, a: nat, b: nat)
    requires SendReady(before) && HandedOut(PopSend(before), after, a, b)
    ensures HandedOut(before, after, a + 1, b)
  {
    assert before.sends[..a + 1] == [before.sends[0]] + before.sends[1..][..a];
    IdsCons(before.sends[0], before.sends[1..][..a]);
    assert before.sendsOut + before.sends[..a + 1] == PopSend(before).sendsOut + PopSend(before).sends[..a];
  }

  lemma HandedOutOneRecv(before: CqState, after: CqState, a: nat, b: nat)
    requires RecvReady(before) && HandedOut(PopRecv(before), after, a, b)
    ensures HandedOut(before, after, a, b + 1)
  {
    assert before.recvs[..b + 1] == [before.recvs[0]] + before.recvs[1..][..b];
    IdsCons(before.recvs[0], before.recvs[1..][..b]);
    assert before.recvsOut + before.recvs[..b + 1] == PopRecv(before).recvsOut + PopRecv(before).recvs[..b];
  }

  ghost predicate Blocked(p: Polling) {
    (!p.sendsOpen ==> !SendReady(p.cq)) && (!p.recvsOpen ==> !RecvReady(p.cq))
  }

  /** The poll went from `p` to `end`, handing out a sends and b receives in turns. */
  ghost predicate PollResult(p: Polling, end: Polling, n: nat, a: nat, b: nat) {
    && HandedOut(p.cq, end.cq, a, b)
    && end.out == p.out + Merge(p.cq.sends[..a], p.cq.recvs[..b])
    && |end.out| <= n + 1
    && (|end.out| < n ==> !SendReady(end.cq) && !RecvReady(end.cq))
  }

  lemma PassHandedOut(p: Polling, after: CqState, a2: nat, b2: nat) returns (a: nat, b: nat)
    requires Blocked(p) && HandedOut(PollPass(p).cq, after, a2, b2)
    ensures HandedOut(p.cq, after, a, b)
    ensures if PollPass(p).sendsOpen then a == a2 + 1 else a == a2 == 0
    ensures if PollPass(p).recvsOpen then b == b2 + 1 else b == b2 == 0
  {
    var takeSend := PollPass(p).sendsOpen;
    var cq1 := if takeSend then PopSend(p.cq) else p.cq;
    a, b := a2, b2;
    assert a2 > 0 ==> PollPass(p).cq.sends[0].remaining <= 0;
    assert b2 > 0 ==> PollPass(p).cq.recvs[0].remaining <= 0;
    if PollPass(p).recvsOpen {
      HandedOutOneRecv(cq1, after, a2, b2);
      b := b2 + 1;
    }
    assert HandedOut(cq1, after, a2, b);
    if takeSend {
      HandedOutOneSend(p.cq, after, a2, b);
      a := a2 + 1;
    }
  }

  lemma MergeFronts(x: seq<VirtualWc>, a: seq<VirtualWc>, y: seq<VirtualWc>, b: seq<VirtualWc>)
    requires |x| <= 1 && |y| <= 1 && (x == [] ==> a == []) && (y == [] ==> b == [])
    ensures Merge(x + a, y + b) == x + y + Merge(a, b)
  {
    if x != [] && y != [] {
      assert (x + a)[1..] == a && (y + b)[1..] == b;
    }
  }

  lemma PassOut(p: Polling)
    ensures var p2 := PollPass(p);
            p2.out == p.out + (if p2.sendsOpen then [p.cq.sends[0]] else []) + (if p2.recvsOpen then [p.cq.recvs[0]] else [])
  {
  }

  lemma FrontAndRest(queue: seq<VirtualWc>, queue': seq<VirtualWc>, front: seq<VirtualWc>, n': nat, n: nat)
    requires queue == front + queue' && n <= |queue| && n' <= |queue'|
    requires if front != [] then |front| == 1 && n == n' + 1 else n == n' == 0
    ensures queue[..n] == (if n == 0 then [] else front) + queue'[..n']
  {
  }

  lemma Reassociate(a: seq<VirtualWc>, b: seq<VirtualWc>, c: seq<VirtualWc>, d: seq<VirtualWc>)
    ensures a + b + c + d == a + (b + c + d)
  {
  }

  /** What one pass takes off the fronts is what Merge puts first. */
  lemma PassMerge(p: Polling, a2: nat, b2: nat, a: nat, b: nat)
    requires a <= |p.cq.sends| && b <= |p.cq.recvs|
    requires var p2 := PollPass(p);
             && a2 <= |p2.cq.sends| && b2 <= |p2.cq.recvs|
             && (if p2.sendsOpen then a == a2 + 1 else a == a2 == 0)
             && (if p2.recvsOpen then b == b2 + 1 else b == b2 == 0)
    ensures var p2 := PollPass(p);
            p2.out + Merge(p2.cq.sends[..a2], p2.cq.recvs[..b2]) == p.out + Merge(p.cq.sends[..a], p.cq.recvs[..b])
  {
    var p2 := PollPass(p);
    var x := if p2.sendsOpen then [p.cq.sends[0]] else [];
    var y := if p2.recvsOpen then [p.cq.recvs[0]] else [];
    var rest, rest' := p2.cq.sends[..a2], p2.cq.recvs[..b2];
    FrontAndRest(p.cq.sends, p2.cq.sends, x, a2, a);
    FrontAndRest(p.cq.recvs, p2.cq.recvs, y, b2, b);
    MergeFronts(x, rest, y, rest');
    PassOut(p);
    Reassociate(p.out, x, y, Merge(rest, rest'));
  }

  /**
   * One poll hands out, from each direction, a prefix of the queue in queue order and only finished
   * completions, the two directions in turns; it stops short of `n` only when both fronts are unfinished,
   * and may exceed `n` by one.
   */
  lemma {:induction false} PollLoopFifo(p: Polling, n: nat) returns (a: nat, b: nat)
    requires Blocked(p) && |p.out| <= n + 1
    ensures PollResult(p, PollLoop(p, n), n, a, b)
    decreases |p.cq.sends| + |p.cq.recvs|, if p.sendsOpen then 1 else 0, if p.recvsOpen then 1 else 0
  {
    if PollMore(p, n) {
      a, b := PollLoopFifo(PollPass(p), n);
      var a2, b2 := a, b;
      a, b := PassHandedOut(p, PollLoop(p, n).cq, a2, b2);
      PassMerge(p, a2, b2, a, b);
    } else {
      a, b := 0, 0;
      assert p.cq.index - (Ids(p.cq.sends[..0]) + Ids(p.cq.recvs[..0])) == p.cq.index;
    }
  }

  /** How many completions at the front of a queue have finished. */
  ghost function Finished(queue: seq<VirtualWc>): nat {
    if queue == [] || queue[0].remaining > 0 then 0 else 1 + Finished(queue[1..])
  }

  /**
   * One entry too many is returned exactly when an odd number is missing, both directions are still open and
   * both have enough finished completions to fill it in turns.
   */
  lemma {:induction false} PollLoopExceeds(p: Polling, n: nat)
    requires |p.out| <= n
    ensures var missing := n - |p.out|;
            |PollLoop(p, n).out| == n + 1 <==>
              p.sendsOpen && p.recvsOpen && missing % 2 == 1
              && 2 * Finished(p.cq.sends) > missing && 2 * Finished(p.cq.recvs) > missing
    decreases |p.cq.sends| + |p.cq.recvs|, if p.sendsOpen then 1 else 0, if p.recvsOpen then 1 else 0
  {
    var p2 := PollPass(p);
    if PollMore(p, n) {
      PassCounts(p);
      if |p2.out| <= n {
        PollLoopExceeds(p2, n);
        assert PollLoop(p, n) == PollLoop(p2, n);
      } else {
        assert PollLoop(p, n) == PollLoop(p2, n) == p2;
      }
    }
  }

  lemma PassCounts(p: Polling)
    ensures var p2 := PollPass(p);
            && |p2.out| == |p.out| + (if p2.sendsOpen then 1 else 0) + (if p2.recvsOpen then 1 else 0)
            && (p2.sendsOpen <==> p.sendsOpen && Finished(p.cq.sends) > 0)
            && (p2.recvsOpen <==> p.recvsOpen && Finished(p.cq.recvs) > 0)
            && (p2.sendsOpen ==> Finished(p2.cq.sends) == Finished(p.cq.sends) - 1)
            && (p2.recvsOpen ==> Finished(p2.cq.recvs) == Finished(p.cq.recvs) - 1)
  {
  }

  /** pollCq returns numEntries + 1 completions exactly when numEntries is odd and both directions can fill it. */
  lemma PollExceedsExactly(cq: CqState, numEntries: nat)
    ensures |Poll(cq, numEntries).1| == numEntries + 1 <==>
      numEntries % 2 == 1 && 2 * Finished(cq.sends) > numEntries && 2 * Finished(cq.recvs) > numEntries
  {
    PollLoopExceeds(Polling(cq, [], true, true), numEntries);
  }

  /** For one: asked for a single completion, it returns two when a send and a receive are ready. */
  lemma PollReturnsTwoForOne(send: VirtualWc, recv: VirtualWc)
    requires send.remaining == 0 && recv.remaining == 0
    ensures Poll(CqState([send], [], [recv], [], map[send.wrId := SendRef(0), recv.wrId := RecvRef(0)]), 1).1 == [send, recv]
  {
    var p := Polling(CqState([send], [], [recv], [], map[send.wrId := SendRef(0), recv.wrId := RecvRef(0)]), [], true, true);
    assert PollPass(p).out == [send, recv];
    assert PollLoop(p, 1) == PollLoop(PollPass(p), 1) == PollPass(p);
  }

  // ---------------------------------------------------------------- what a virtual completion says

  ghost function FoldAll(v: VirtualWc, ps: seq<PhysicalWc>): VirtualWc {
    if ps == [] then v else Absorb(FoldAll(v, ps[..|ps| - 1]), ps[|ps| - 1])
  }

  ghost function TotalBytes(ps: seq<PhysicalWc>): nat {
    if ps == [] then 0 else TotalBytes(ps[..|ps| - 1]) + ps[|ps| - 1].byteLen
  }

  /**
   * A completion that absorbed `ps`: status is success exactly when all of them succeeded and otherwise
   * the first error among them; byte_len is their sum in 32 bits; the count is what is still missing.
   */
  lemma {:induction false} FoldMeaning(v: VirtualWc, ps: seq<PhysicalWc>)
    requires v.status == Success && v.byteLen == 0
    ensures var w := FoldAll(v, ps);
            && w.wrId == v.wrId && w.extraNotify == v.extraNotify
            && w.remaining == v.remaining - |ps|
            && w.byteLen == TotalBytes(ps) % TWO_32
            && (w.status == Success <==> forall i | 0 <= i < |ps| :: ps[i].status == Success)
            && (w.status != Success ==>
                  exists i :: 0 <= i < |ps| && ps[i].status == w.status && forall j | 0 <= j < i :: ps[j].status == Success)
            && (ps != [] ==> w.imm == ps[|ps| - 1].imm)
  {
    if ps != [] {
      var n := |ps| - 1;
      FoldMeaning(v, ps[..n]);
      var w0, w := FoldAll(v, ps[..n]), FoldAll(v, ps);
      ModSum(TotalBytes(ps[..n]), ps[n].byteLen);
      if w0.status == Success {
        if ps[n].status != Success {
          assert ps[n].status == w.status && forall j | 0 <= j < n :: ps[..n][j].status == Success;
        }
      } else {
        var i :| 0 <= i < n && ps[..n][i].status == w0.status && forall j | 0 <= j < i :: ps[..n][j].status == Success;
        assert ps[i].status == w.status;
        assert forall j | 0 <= j < i :: ps[j] == ps[..n][j];
      }
    }
  }

  lemma ModSum(a: nat, b: nat)
    ensures (a % TWO_32 + b) % TWO_32 == (a + b) % TWO_32
  {
  }
}
