/** What the sending half keeps: where every message stands, and what every post is. */
module SendProtocol {
  import opened Arithmetic
  import opened Verbs
  import opened CompletionQueue
  import opened Ledgers
  import opened SendQueue
  import Seq = SeqTracker

  /** The messages the virtual QP is used for: signaled, one scatter-gather entry, a length that fits an int. */
  predicate ValidMsg(wr: SendWr) {
    Accepts(wr) && wr.numSge == 1 && wr.signaled && 1 <= wr.length <= 0x7FFF_FFFF
  }

  /** How many messages have been handed over to physical QPs completely. */
  ghost function HandedOver(s: SendState): int { |s.msgs| - |s.pending| }

  /** The first `d` messages that need a notify, in post order. */
  ghost function NotifyOrder(c: Config, msgs: seq<SendWr>, d: nat): seq<nat>
    requires d <= |msgs|
  {
    if d == 0 then [] else NotifyOrder(c, msgs, d - 1) + if NeedsNotify(c, msgs[d - 1]) then [d - 1] else []
  }

  /** The messages whose notify has been posted, in order of posting. */
  ghost function Notified(log: seq<Posted<PhysicalSend>>): seq<nat> {
    if log == [] then []
    else
      var n := |log| - 1;
      Notified(log[..n]) + if log[n].qp.Notify? then [log[n].msg] else []
  }

  ghost function MsgsOf(vs: seq<VirtualSendWr>): seq<nat> { seq(|vs|, i requires 0 <= i < |vs| => vs[i].msg) }

  lemma NotifiedAppend(log: seq<Posted<PhysicalSend>>, e: Posted<PhysicalSend>)
    ensures Notified(log + [e]) == Notified(log) + if e.qp.Notify? then [e.msg] else []
  {
    assert (log + [e])[..|log|] == log;
  }

  lemma {:induction false} NotifiedIn(log: seq<Posted<PhysicalSend>>, m: nat)
    ensures m in Notified(log) <==> exists i: nat :: i < |log| && log[i].qp.Notify? && log[i].msg == m
  {
    if log != [] {
      var n := |log| - 1;
      NotifiedIn(log[..n], m);
      assert forall i: nat | i < n :: log[..n][i] == log[i];
      if m in Notified(log[..n]) {
        var i: nat :| i < n && log[..n][i].qp.Notify? && log[..n][i].msg == m;
        assert log[i].msg == m;
      }
    }
  }

  lemma {:induction false} NotifyOrderIn(c: Config, msgs: seq<SendWr>, d: nat)
    requires d <= |msgs|
    ensures forall m: nat :: m in NotifyOrder(c, msgs, d) <==> m < d && NeedsNotify(c, msgs[m])
    ensures forall i, j | 0 <= i < j < |NotifyOrder(c, msgs, d)| :: NotifyOrder(c, msgs, d)[i] < NotifyOrder(c, msgs, d)[j]
  {
    if d > 0 {
      NotifyOrderIn(c, msgs, d - 1);
      var order := NotifyOrder(c, msgs, d - 1);
      assert forall i | 0 <= i < |order| :: order[i] in order;
    }
  }

  lemma {:induction false} NotifyOrderFrame(c: Config, msgs: seq<SendWr>, wr: SendWr, d: nat)
    requires d <= |msgs|
    ensures NotifyOrder(c, msgs + [wr], d) == NotifyOrder(c, msgs, d)
  {
    if d > 0 {
      NotifyOrderFrame(c, msgs, wr, d - 1);
    }
  }

  // ---------------------------------------------------------------- where every message stands

  /** The i-th pending entry is message d + i, with some of its chunks posted if it is the front one. */
  ghost predicate PendingOk(c: Config, s: SendState, i: nat)
    requires c.Valid() && i < |s.pending| <= |s.msgs|
  {
    var v := s.pending[i];
    var m := HandedOver(s) + i;
    var n := CountMsg(s.log, m);
    && v.msg == m && v.wr == s.msgs[m] && v.extraNotify == NeedsNotify(c, v.wr)
    && n < Chunks(v.wr.length, c.maxMsgSize)
    && v.remaining == Expected(c, v.wr) - n
    && v.offset == n * c.maxMsgSize
    && (i > 0 ==> n == 0)
  }

  ghost predicate HandedOverOk(c: Config, s: SendState, m: nat)
    requires c.Valid() && m < |s.msgs|
  {
    CountMsg(s.log, m) == Chunks(s.msgs[m].length, c.maxMsgSize) + if m in Notified(s.log) then 1 else 0
  }

  ghost predicate NotifyingOk(s: SendState, v: VirtualSendWr) {
    v.msg < HandedOver(s) && v.wr == s.msgs[v.msg] && v.remaining == 1
  }

  ghost predicate Posting(c: Config, s: SendState) {
    && c.Valid() && |s.pending| <= |s.msgs|
    && (forall m | 0 <= m < |s.msgs| :: ValidMsg(s.msgs[m]))
    && (forall i: nat | i < |s.pending| :: PendingOk(c, s, i))
    && (forall m: nat | m < HandedOver(s) :: HandedOverOk(c, s, m))
    && (forall v | v in s.notifying :: NotifyingOk(s, v))
    && Notified(s.log) + MsgsOf(s.notifying) == NotifyOrder(c, s.msgs, HandedOver(s))
  }

  /** Chunk n starts inside the message; it is the last one exactly when the message ends inside it. */
  lemma ChunkArithmetic(length: nat, maxMsgSize: nat, n: nat)
    requires maxMsgSize >= 1
    ensures n < Chunks(length, maxMsgSize) <==> n * maxMsgSize < length
    ensures n < Chunks(length, maxMsgSize) ==>
      (n + 1 == Chunks(length, maxMsgSize) <==> length - n * maxMsgSize <= maxMsgSize)
    ensures (n + 1) * maxMsgSize == n * maxMsgSize + maxMsgSize
  {
    var q := Chunks(length, maxMsgSize);
    assert q * maxMsgSize <= length + maxMsgSize - 1 < q * maxMsgSize + maxMsgSize;
    if n < q {
      MulMonotone(n + 1, q, maxMsgSize);
    } else {
      MulMonotone(q, n, maxMsgSize);
    }
    if n + 1 < q {
      MulMonotone(n + 2, q, maxMsgSize);
    }
  }

  lemma PostingSendable(c: Config, s: SendState)
    requires Posting(c, s)
    ensures Sendable(c, s)
  {
    forall v | v in s.pending
      ensures v.remaining >= 1 && v.offset <= v.wr.length
    {
      var i: nat :| i < |s.pending| && s.pending[i] == v;
      assert PendingOk(c, s, i);
      ChunkArithmetic(v.wr.length, c.maxMsgSize, CountMsg(s.log, HandedOver(s) + i));
    }
  }

  /** Posting a chunk: the front message moves on by one chunk, or leaves the queue after its last one. */
  lemma PostChunkMoves(c: Config, s: SendState, base: nat, q: nat)
    requires Posting(c, s) && s.pending != [] && q < |s.queues| && Sendable(c, s)
    ensures var s', d, v := PostChunk(c, s, base, q), HandedOver(s), s.pending[0];
            var n := CountMsg(s.log, d);
            var v' := v.(offset := v.offset + Min(v.wr.length - v.offset, c.maxMsgSize), remaining := v.remaining - 1);
            && s'.log == s.log + [s'.log[|s.log|]] && s'.log[|s.log|].msg == d && s'.log[|s.log|].qp == Data(q)
            && (n + 1 < Chunks(v.wr.length, c.maxMsgSize) ==>
                 && HandedOver(s') == d && s'.pending == [v'] + s.pending[1..] && s'.notifying == s.notifying
                 && v'.offset == (n + 1) * c.maxMsgSize && v'.remaining == Expected(c, v.wr) - (n + 1))
            && (n + 1 >= Chunks(v.wr.length, c.maxMsgSize) ==>
                 && n + 1 == Chunks(v.wr.length, c.maxMsgSize) && HandedOver(s') == d + 1 && s'.pending == s.pending[1..]
                 && s'.notifying == s.notifying + (if v.extraNotify then [v'] else [])
                 && (v.extraNotify ==> v'.remaining == 1))
  {
    assert PendingOk(c, s, 0);
    ChunkArithmetic(s.pending[0].wr.length, c.maxMsgSize, CountMsg(s.log, HandedOver(s)));
  }

  lemma PostChunkPending(c: Config, s: SendState, base: nat, q: nat, i: nat)
    requires Posting(c, s) && s.pending != [] && q < |s.queues| && Sendable(c, s)
    requires i < |PostChunk(c, s, base, q).pending|
    ensures PendingOk(c, PostChunk(c, s, base, q), i)
  {
    var s', d := PostChunk(c, s, base, q), HandedOver(s);
    PostChunkMoves(c, s, base, q);
    assert PendingOk(c, s, 0);
    assert PendingOk(c, s, HandedOver(s') - d + i);
    CountMsgAppend(s.log, s'.log[|s.log|], HandedOver(s') + i);
  }

  lemma PostChunkHandedOver(c: Config, s: SendState, base: nat, q: nat, m: nat)
    requires Posting(c, s) && s.pending != [] && q < |s.queues| && Sendable(c, s)
    requires m < HandedOver(PostChunk(c, s, base, q))
    ensures m < |s.msgs| && HandedOverOk(c, PostChunk(c, s, base, q), m)
  {
    var s', d := PostChunk(c, s, base, q), HandedOver(s);
    PostChunkMoves(c, s, base, q);
    assert PendingOk(c, s, 0);
    CountMsgAppend(s.log, s'.log[|s.log|], m);
    NotifiedAppend(s.log, s'.log[|s.log|]);
    if m < d {
      assert HandedOverOk(c, s, m);
    } else {
      NotNotifiedYet(c, s, d);
    }
  }

  /** Only messages that were handed over completely can have been notified. */
  lemma NotNotifiedYet(c: Config, s: SendState, m: nat)
    requires Posting(c, s) && HandedOver(s) <= m
    ensures m !in Notified(s.log)
  {
    NotifyOrderIn(c, s.msgs, HandedOver(s));
    var order := NotifyOrder(c, s.msgs, HandedOver(s));
    assert forall i | 0 <= i < |Notified(s.log)| :: Notified(s.log)[i] == order[i] && order[i] in order;
  }

  lemma PostChunkPosting(c: Config, s: SendState, base: nat, q: nat)
    requires Posting(c, s) && s.pending != [] && q < |s.queues| && Sendable(c, s)
    ensures Posting(c, PostChunk(c, s, base, q))
  {
    var s', d := PostChunk(c, s, base, q), HandedOver(s);
    PostChunkMoves(c, s, base, q);
    assert PendingOk(c, s, 0);
    forall i: nat | i < |s'.pending| ensures PendingOk(c, s', i) { PostChunkPending(c, s, base, q, i); }
    forall m: nat | m < HandedOver(s') ensures HandedOverOk(c, s', m) { PostChunkHandedOver(c, s, base, q, m); }
    NotifiedAppend(s.log, s'.log[|s.log|]);
    assert MsgsOf(s'.notifying) == MsgsOf(s.notifying) + (if HandedOver(s') > d && NeedsNotify(c, s.msgs[d]) then [d] else []);
    forall v | v in s'.notifying
      ensures NotifyingOk(s', v)
    {
      assert v in s.notifying ==> NotifyingOk(s, v);
    }
  }

  lemma FirstNotNotified(c: Config, s: SendState)
    requires Posting(c, s) && s.notifying != []
    ensures s.notifying[0].msg !in Notified(s.log)
  {
    NotifyOrderIn(c, s.msgs, HandedOver(s));
    var order, m := NotifyOrder(c, s.msgs, HandedOver(s)), s.notifying[0].msg;
    assert MsgsOf(s.notifying)[0] == m;
    assert order[|Notified(s.log)|] == m;
    assert forall i | 0 <= i < |Notified(s.log)| :: Notified(s.log)[i] == order[i];
  }

  lemma PostNotifyPosting(c: Config, s: SendState, base: nat)
    requires Posting(c, s) && s.notifying != []
    ensures Posting(c, PostNotify(s, base))
    ensures s.notifying[0].msg !in Notified(s.log)
  {
    var s' := PostNotify(s, base);
    var e := s'.log[|s.log|];
    assert s'.log == s.log + [e];
    NotifiedAppend(s.log, e);
    FirstNotNotified(c, s);
    assert MsgsOf(s.notifying) == [s.notifying[0].msg] + MsgsOf(s'.notifying);
    assert Notified(s'.log) + MsgsOf(s'.notifying) == Notified(s.log) + MsgsOf(s.notifying);
    assert NotifyingOk(s, s.notifying[0]);
    forall i: nat | i < |s'.pending|
      ensures PendingOk(c, s', i)
    {
      assert PendingOk(c, s, i);
      CountMsgAppend(s.log, e, HandedOver(s) + i);
    }
    forall k: nat | k < HandedOver(s')
      ensures HandedOverOk(c, s', k)
    {
      assert HandedOverOk(c, s, k);
      CountMsgAppend(s.log, e, k);
    }
    assert forall v | v in s'.notifying :: NotifyingOk(s, v);
  }

  lemma EnqueuePosting(c: Config, s: SendState, wr: SendWr)
    requires Posting(c, s) && ValidMsg(wr)
    requires forall i: nat | i < |s.log| :: s.log[i].msg < |s.msgs|
    ensures Posting(c, Enqueue(c, s, wr))
  {
    var s' := Enqueue(c, s, wr);
    CountMsgAbsent(s.log, |s.msgs|);
    ChunkArithmetic(wr.length, c.maxMsgSize, 0);
    forall i: nat | i < |s'.pending|
      ensures PendingOk(c, s', i)
    {
      assert i < |s.pending| ==> PendingOk(c, s, i);
    }
    forall k: nat | k < HandedOver(s')
      ensures HandedOverOk(c, s', k)
    {
      assert HandedOverOk(c, s, k);
    }
    NotifyOrderFrame(c, s.msgs, wr, HandedOver(s));
    assert forall v | v in s'.notifying :: NotifyingOk(s, v);
  }

  // ---------------------------------------------------------------- what every post is

  /** The n-th chunk of a message; `k` counts the sequence-carrying posts before it. */
  ghost function ChunkOf(c: Config, wr: SendWr, n: nat, k: nat): PhysicalSend
    requires c.Valid() && n < Chunks(wr.length, c.maxMsgSize)
  {
    ChunkArithmetic(wr.length, c.maxMsgSize, n);
    var offset := n * c.maxMsgSize;
    PhysicalSend(
      PhysicalOpcode(c, wr.opcode),
      wr.addr + offset,
      Min(wr.length - offset, c.maxMsgSize),
      if IsRdma(wr.opcode) then wr.remoteAddr + offset else 0,
      if CarriesSequence(c, wr) then Seq.EncodeImm(Seq.Residue(k), n + 1 == Chunks(wr.length, c.maxMsgSize)) else 0)
  }

  predicate IsSequenced(e: Posted<PhysicalSend>) { e.qp.Data? && e.wr.opcode.RdmaWriteWithImm? }

  /** The "last chunk" bits on the wire, in posting order: entry k is the bit sent with sequence number k. */
  ghost function Flags(log: seq<Posted<PhysicalSend>>): seq<bool> {
    if log == [] then []
    else
      var n := |log| - 1;
      Flags(log[..n]) + if IsSequenced(log[n]) then [Seq.ImmLast(log[n].wr.imm)] else []
  }

  lemma FlagsAppend(log: seq<Posted<PhysicalSend>>, e: Posted<PhysicalSend>)
    ensures Flags(log + [e]) == Flags(log) + if IsSequenced(e) then [Seq.ImmLast(e.wr.imm)] else []
  {
    assert (log + [e])[..|log|] == log;
  }

  ghost predicate ContentOk(c: Config, s: SendState, i: nat)
    requires c.Valid() && i < |s.log|
  {
    var e := s.log[i];
    && e.msg < |s.msgs| && e.status.virtualWrId == s.msgs[e.msg].wrId
    && match e.qp
       case Data(j) =>
         && j < c.numQps
         && CountMsg(s.log[..i], e.msg) < Chunks(s.msgs[e.msg].length, c.maxMsgSize)
         && e.wr == ChunkOf(c, s.msgs[e.msg], CountMsg(s.log[..i], e.msg), |Flags(s.log[..i])|)
       case Notify =>
         && NeedsNotify(c, s.msgs[e.msg])
         && CountMsg(s.log[..i], e.msg) == Chunks(s.msgs[e.msg].length, c.maxMsgSize)
         && e.wr == PhysicalSend(RdmaWriteWithImm, 0, 0, s.msgs[e.msg].remoteAddr, s.msgs[e.msg].imm)
  }

  ghost predicate Contents(c: Config, s: SendState) {
    && c.Valid()
    && (forall i: nat | i < |s.log| :: ContentOk(c, s, i))
    && s.sendNext == Seq.Residue(|Flags(s.log)|)
  }

  lemma ContentFrame(c: Config, s: SendState, s': SendState, i: nat)
    requires c.Valid() && i < |s.log| && ContentOk(c, s, i) && s.log <= s'.log && s.msgs <= s'.msgs
    ensures ContentOk(c, s', i)
  {
    assert s'.log[..i] == s.log[..i];
    assert s'.log[i] == s.log[i];
    assert s'.msgs[s.log[i].msg] == s.msgs[s.log[i].msg];
  }

  lemma NewChunkContent(c: Config, s: SendState, base: nat, q: nat)
    requires Posting(c, s) && Contents(c, s) && s.pending != [] && q < |s.queues| == c.numQps && Sendable(c, s)
    ensures |PostChunk(c, s, base, q).log| == |s.log| + 1 && ContentOk(c, PostChunk(c, s, base, q), |s.log|)
  {
    var s' := PostChunk(c, s, base, q);
    PostChunkMoves(c, s, base, q);
    assert PendingOk(c, s, 0);
    assert s'.log[..|s.log|] == s.log;
  }

  lemma PostChunkContents(c: Config, s: SendState, base: nat, q: nat)
    requires Posting(c, s) && Contents(c, s) && s.pending != [] && q < |s.queues| == c.numQps && Sendable(c, s)
    ensures Contents(c, PostChunk(c, s, base, q))
  {
    var s' := PostChunk(c, s, base, q);
    NewChunkContent(c, s, base, q);
    PostChunkMoves(c, s, base, q);
    forall i: nat | i < |s.log| ensures ContentOk(c, s', i) { ContentFrame(c, s, s', i); }
    FlagsAppend(s.log, s'.log[|s.log|]);
    Seq.ResidueSuccessor(|Flags(s.log)|);
  }

  lemma PostNotifyContents(c: Config, s: SendState, base: nat)
    requires Posting(c, s) && Contents(c, s) && s.notifying != []
    ensures Contents(c, PostNotify(s, base))
  {
    var s' := PostNotify(s, base);
    var e, v := s'.log[|s.log|], s.notifying[0];
    assert s'.log == s.log + [e];
    assert NotifyingOk(s, v);
    NotifyOrderIn(c, s.msgs, HandedOver(s));
    assert MsgsOf(s.notifying)[0] == v.msg;
    assert NotifyOrder(c, s.msgs, HandedOver(s))[|Notified(s.log)|] == v.msg;
    PostNotifyPosting(c, s, base);
    assert HandedOverOk(c, s, v.msg);
    forall i: nat | i < |s'.log|
      ensures ContentOk(c, s', i)
    {
      if i < |s.log| {
        ContentFrame(c, s, s', i);
      } else {
        assert s'.log[..i] == s.log;
      }
    }
    FlagsAppend(s.log, e);
  }

  // ---------------------------------------------------------------- the whole of it

  ghost function InitialWc(c: Config, wr: SendWr): VirtualWc
    requires c.Valid()
  {
    FreshWc(wr.wrId, Expected(c, wr), NeedsNotify(c, wr))
  }

  ghost function SendLedger(c: Config, s: SendState, wcs: seq<VirtualWc>, out: nat,
                            done: set<nat>, comps: seq<Completion>): Ledger<PhysicalSend>
    requires c.Valid()
  {
    Ledger(seq(|s.msgs|, i requires 0 <= i < |s.msgs| => InitialWc(c, s.msgs[i])), wcs, out, s.log, done, comps)
  }

  /** The status deques hold exactly what the device still owes, QP by QP. */
  ghost predicate Queues(c: Config, s: SendState, done: set<nat>) {
    && |s.queues| == c.numQps && s.nextQp < c.numQps
    && (forall i: nat | i < c.numQps :: s.queues[i] == InFlight(s.log, done, Data(i)))
    && s.notifyQueue == InFlight(s.log, done, Notify)
  }

  /** A notify has been posted only for messages all of whose data chunks have completed. */
  ghost predicate NotifiedAfterData(s: SendState, done: set<nat>) {
    forall i: nat, j: nat | i < |s.log| && j < |s.log| && s.log[i].qp.Notify? && s.log[j].msg == s.log[i].msg
      && s.log[j].qp.Data? :: j in done
  }

  ghost predicate SendInv(c: Config, s: SendState, wcs: seq<VirtualWc>, out: nat, done: set<nat>, comps: seq<Completion>) {
    && Posting(c, s) && Contents(c, s) && Queues(c, s, done) && NotifiedAfterData(s, done)
    && LedgerInv(SendLedger(c, s, wcs, out, done, comps))
  }

  lemma PostQueues(c: Config, s: SendState, s': SendState, e: Posted<PhysicalSend>, done: set<nat>)
    requires Queues(c, s, done) && |s.log| !in done && s'.log == s.log + [e] && s'.nextQp == s.nextQp
    requires match e.qp
             case Data(q) => q < c.numQps && s'.queues == s.queues[q := s.queues[q] + [e.status]] && s'.notifyQueue == s.notifyQueue
             case Notify => s'.queues == s.queues && s'.notifyQueue == s.notifyQueue + [e.status]
    ensures Queues(c, s', done)
  {
    forall i: nat | i < c.numQps
      ensures s'.queues[i] == InFlight(s'.log, done, Data(i))
    {
      InFlightAppend(s.log, done, e, Data(i));
    }
    InFlightAppend(s.log, done, e, Notify);
  }

  lemma PostChunkInv(c: Config, s: SendState, base: nat, q: nat, wcs: seq<VirtualWc>, out: nat, done: set<nat>, comps: seq<Completion>)
    requires SendInv(c, s, wcs, out, done, comps) && s.pending != [] && q < c.numQps && Sendable(c, s)
    ensures SendInv(c, PostChunk(c, s, base, q), wcs, out, done, comps)
  {
    var s', d := PostChunk(c, s, base, q), HandedOver(s);
    PostChunkMoves(c, s, base, q);
    PostChunkPosting(c, s, base, q);
    PostChunkContents(c, s, base, q);
    var e := s'.log[|s.log|];
    assert |s.log| !in done;
    assert e.status == WrStatus(base + |s.log|, s.pending[0].wr.wrId);
    PostQueues(c, s, s', e, done);
    assert PendingOk(c, s, 0);
    LedgerPost(SendLedger(c, s, wcs, out, done, comps), e);
    NotNotifiedYet(c, s, d);
    NotifiedIn(s.log, d);
  }

  lemma {:induction false} MapPendingInv(c: Config, s: SendState, base: nat, hint: int, wcs: seq<VirtualWc>, out: nat, done: set<nat>, comps: seq<Completion>)
    requires SendInv(c, s, wcs, out, done, comps) && -1 <= hint < c.numQps && Sendable(c, s)
    ensures SendInv(c, MapPending(c, s, base, hint), wcs, out, done, comps)
    ensures MapPending(c, s, base, hint).msgs == s.msgs
    decreases |s.pending|, FrontLeft(s), Slots(c, s.queues, hint)
  {
    if s.pending != [] {
      var (q, next, hint') := ChooseQp(c, s, hint);
      var s1 := s.(nextQp := next);
      SendInvCursor(c, s, next, wcs, out, done, comps);
      if q != -1 {
        PostingStep(c, s, base, hint);
        PostChunkInv(c, s1, base, q, wcs, out, done, comps);
        MapPendingInv(c, PostChunk(c, s1, base, q), base, hint', wcs, out, done, comps);
      }
    }
  }

  lemma SendInvCursor(c: Config, s: SendState, next: nat, wcs: seq<VirtualWc>, out: nat, done: set<nat>, comps: seq<Completion>)
    requires SendInv(c, s, wcs, out, done, comps) && next < c.numQps
    ensures SendInv(c, s.(nextQp := next), wcs, out, done, comps)
  {
    var s1 := s.(nextQp := next);
    forall i: nat | i < |s1.pending| ensures PendingOk(c, s1, i) { assert PendingOk(c, s, i); }
    forall m: nat | m < HandedOver(s1) ensures HandedOverOk(c, s1, m) { assert HandedOverOk(c, s, m); }
    forall i: nat | i < |s1.log| ensures ContentOk(c, s1, i) { assert ContentOk(c, s, i); }
    forall v | v in s1.notifying ensures NotifyingOk(s1, v) { assert NotifyingOk(s, v); }
    assert SendLedger(c, s1, wcs, out, done, comps) == SendLedger(c, s, wcs, out, done, comps);
  }

  lemma CompleteQueues(c: Config, s: SendState, done: set<nat>, i: nat)
    requires Queues(c, s, done) && Oldest(s.log, done, i) && (s.log[i].qp.Data? ==> s.log[i].qp.i < c.numQps)
    ensures StatusOf(s, s.log[i].qp) != [] && StatusOf(s, s.log[i].qp)[0] == s.log[i].status
    ensures Queues(c, PopStatus(s, s.log[i].qp), done + {i})
  {
    var qp := s.log[i].qp;
    InFlightComplete(s.log, done, i, qp);
    forall j: nat | j < c.numQps
      ensures PopStatus(s, qp).queues[j] == InFlight(s.log, done + {i}, Data(j))
    {
      InFlightComplete(s.log, done, i, Data(j));
    }
    InFlightComplete(s.log, done, i, Notify);
  }

  /** Where the messages stand and what the posts are do not depend on the status deques. */
  lemma PopStatusFrame(c: Config, s: SendState, qp: QpRef)
    requires Posting(c, s) && Contents(c, s) && (qp.Data? ==> qp.i < |s.queues|) && StatusOf(s, qp) != []
    ensures Posting(c, PopStatus(s, qp)) && Contents(c, PopStatus(s, qp))
  {
    var s1 := PopStatus(s, qp);
    forall j: nat | j < |s1.pending| ensures PendingOk(c, s1, j) { assert PendingOk(c, s, j); }
    forall k: nat | k < HandedOver(s1) ensures HandedOverOk(c, s1, k) { assert HandedOverOk(c, s, k); }
    forall j: nat | j < |s1.log| ensures ContentOk(c, s1, j) { assert ContentOk(c, s, j); }
    forall v | v in s1.notifying ensures NotifyingOk(s1, v) { assert NotifyingOk(s, v); }
  }

  /** The oldest post of a QP completes: its status entry is at the front, and everything still adds up. */
  lemma CompletePost(c: Config, s: SendState, wcs: seq<VirtualWc>, out: nat, done: set<nat>, comps: seq<Completion>,
                     i: nat, p: PhysicalWc)
    requires SendInv(c, s, wcs, out, done, comps) && Oldest(s.log, done, i)
    ensures var m := s.log[i].msg;
            && out <= m < |wcs| && |wcs| == |s.msgs| && s.log[i].status.virtualWrId == wcs[m].wrId
            && (s.log[i].qp.Data? ==> s.log[i].qp.i < |s.queues|)
            && StatusOf(s, s.log[i].qp) != [] && StatusOf(s, s.log[i].qp)[0] == s.log[i].status
            && SendInv(c, PopStatus(s, s.log[i].qp), wcs[m := Absorb(wcs[m], p)], out, done + {i}, comps + [Completion(m, p)])
  {
    var m, qp := s.log[i].msg, s.log[i].qp;
    var l := SendLedger(c, s, wcs, out, done, comps);
    InFlightIsLive(l, i);
    Remaining(l, m);
    assert ContentOk(c, s, i);
    CompleteQueues(c, s, done, i);
    PopStatusFrame(c, s, qp);
    LedgerComplete(l, i, p);
  }

  lemma {:induction false} NotifiedPrefix(log: seq<Posted<PhysicalSend>>, n: nat)
    requires n <= |log|
    ensures Notified(log[..n]) <= Notified(log)
  {
    if n < |log| {
      NotifiedPrefix(log[..|log| - 1], n);
      assert log[..|log| - 1][..n] == log[..n];
    } else {
      assert log[..n] == log;
    }
  }

  lemma NotifiedPositions(log: seq<Posted<PhysicalSend>>, i: nat, j: nat) returns (a: nat, b: nat)
    requires i < j < |log| && log[i].qp.Notify? && log[j].qp.Notify?
    ensures a < b < |Notified(log)| && Notified(log)[a] == log[i].msg && Notified(log)[b] == log[j].msg
  {
    a, b := |Notified(log[..i])|, |Notified(log[..j])|;
    NotifiedAppend(log[..i], log[i]);
    assert log[..i] + [log[i]] == log[..j][..i + 1];
    NotifiedPrefix(log[..j], i + 1);
    NotifiedAppend(log[..j], log[j]);
    assert log[..j] + [log[j]] == log[..j + 1];
    NotifiedPrefix(log, j + 1);
  }

  /** A message is notified at most once. */
  lemma NotifiedOnce(c: Config, s: SendState, i: nat, j: nat)
    requires Posting(c, s) && i < |s.log| && j < |s.log|
    requires s.log[i].qp.Notify? && s.log[j].qp.Notify? && s.log[i].msg == s.log[j].msg
    ensures i == j
  {
    NotifyOrderIn(c, s.msgs, HandedOver(s));
    assert forall k | 0 <= k < |Notified(s.log)| :: Notified(s.log)[k] == NotifyOrder(c, s.msgs, HandedOver(s))[k];
    if i < j {
      var a, b := NotifiedPositions(s.log, i, j);
    } else if j < i {
      var a, b := NotifiedPositions(s.log, j, i);
    }
  }

  /** When a message's notify completes nothing of it is left; in particular no further notify is asked for. */
  lemma NotifyCompletesMessage(c: Config, s: SendState, wcs: seq<VirtualWc>, out: nat, done: set<nat>, comps: seq<Completion>,
                               i: nat)
    requires SendInv(c, s, wcs, out, done, comps) && i < |s.log| && s.log[i].qp.Notify? && i in done
    ensures s.log[i].msg < |wcs| && wcs[s.log[i].msg].remaining == 0
  {
    var m := s.log[i].msg;
    var l := SendLedger(c, s, wcs, out, done, comps);
    Remaining(l, m);
    NotifiedIn(s.log, m);
    assert m < HandedOver(s) by { if m >= HandedOver(s) { NotNotifiedYet(c, s, m); } }
    assert HandedOverOk(c, s, m);
    assert ContentOk(c, s, i);
    forall j: nat | j < |s.log| && s.log[j].msg == m
      ensures j in done
    {
      if s.log[j].qp.Notify? { NotifiedOnce(c, s, i, j); }
    }
    CountDoneBound(s.log, done, m);
  }

  /** One post missing and no notify yet: every data chunk has completed and the message waits for its notify. */
  lemma ReadyToNotify(c: Config, s: SendState, wcs: seq<VirtualWc>, out: nat, done: set<nat>, comps: seq<Completion>, m: nat)
    requires SendInv(c, s, wcs, out, done, comps) && m < |wcs| && m !in Notified(s.log)
    requires wcs[m].remaining == 1 && wcs[m].extraNotify
    ensures m in MsgsOf(s.notifying)
    ensures forall j: nat | j < |s.log| && s.log[j].msg == m :: j in done
  {
    var l := SendLedger(c, s, wcs, out, done, comps);
    Remaining(l, m);
    CountDoneBound(s.log, done, m);
    assert m >= HandedOver(s) ==> PendingOk(c, s, m - HandedOver(s));
    assert HandedOverOk(c, s, m);
    NotifyOrderIn(c, s.msgs, HandedOver(s));
    assert m in Notified(s.log) + MsgsOf(s.notifying);
  }

  lemma PostNotifyInv(c: Config, s: SendState, base: nat, wcs: seq<VirtualWc>, out: nat, done: set<nat>, comps: seq<Completion>)
    requires SendInv(c, s, wcs, out, done, comps) && s.notifying != []
    requires forall j: nat | j < |s.log| && s.log[j].msg == s.notifying[0].msg :: j in done
    ensures SendInv(c, PostNotify(s, base), wcs, out, done, comps)
  {
    var s', m := PostNotify(s, base), s.notifying[0].msg;
    var e := s'.log[|s.log|];
    assert s'.log == s.log + [e];
    PostNotifyPosting(c, s, base);
    PostNotifyContents(c, s, base);
    assert |s.log| !in done;
    PostQueues(c, s, s', e, done);
    assert NotifyingOk(s, s.notifying[0]);
    assert HandedOverOk(c, s, m);
    assert ContentOk(c, s', |s.log|);
    LedgerPost(SendLedger(c, s, wcs, out, done, comps), e);
  }

  lemma EnqueueInv(c: Config, s: SendState, wr: SendWr, wcs: seq<VirtualWc>, out: nat, done: set<nat>, comps: seq<Completion>)
    requires SendInv(c, s, wcs, out, done, comps) && ValidMsg(wr)
    ensures SendInv(c, Enqueue(c, s, wr), wcs + [InitialWc(c, wr)], out, done, comps)
  {
    var s' := Enqueue(c, s, wr);
    forall i: nat | i < |s.log| ensures s.log[i].msg < |s.msgs| && ContentOk(c, s', i) {
      assert ContentOk(c, s, i);
      ContentFrame(c, s, s', i);
    }
    EnqueuePosting(c, s, wr);
    var l := SendLedger(c, s, wcs, out, done, comps);
    LedgerNew(l, InitialWc(c, wr));
    assert SendLedger(c, s', wcs + [InitialWc(c, wr)], out, done, comps).initial == l.initial + [InitialWc(c, wr)];
  }

  lemma PollInv(c: Config, s: SendState, wcs: seq<VirtualWc>, out: nat, out': nat, done: set<nat>, comps: seq<Completion>)
    requires SendInv(c, s, wcs, out, done, comps) && out <= out' <= |wcs|
    requires forall k: nat | out <= k < out' :: wcs[k].remaining <= 0
    ensures SendInv(c, s, wcs, out', done, comps)
  {
    LedgerOut(SendLedger(c, s, wcs, out, done, comps), out');
  }
}
