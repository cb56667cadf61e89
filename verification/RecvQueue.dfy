/** The receiving half of a virtual QP, and what it keeps. */
module RecvQueue {
  import opened Verbs
  import opened CompletionQueue
  import opened Ledgers
  import SQ = SendQueue
  import SP = SendProtocol
  import Seq = SeqTracker

  datatype VirtualRecvWr = VirtualRecvWr(wr: RecvWr, remaining: int, offset: nat, msg: nat)

  datatype RecvState = RecvState(
    pending: seq<VirtualRecvWr>,        // pendingRecvVirtualWrQue_
    queues: seq<seq<WrStatus>>,         // physicalRecvWrStatus_ of every data QP
    notifyQueue: seq<WrStatus>,         // physicalRecvWrStatus_ of the notify QP
    tracker: Seq.Receiver,              // the receiver's half of the DQPLB tracker
    ready: bool,                        // dqplbReceiverInitialized_
    wrs: seq<RecvWr>,                   // every receive accepted so far
    log: seq<Posted<PhysicalRecv>>)     // every receive post made so far

  type Config = SQ.Config

  function Expected(c: Config, wr: RecvWr): nat
    requires c.Valid()
  {
    if wr.numSge == 0 then 1 else SQ.Chunks(wr.length, c.maxMsgSize)
  }

  function StatusOf(r: RecvState, qp: QpRef): seq<WrStatus>
    requires qp.Data? ==> qp.i < |r.queues|
  {
    match qp case Data(i) => r.queues[i] case Notify => r.notifyQueue
  }

  function PopStatus(r: RecvState, qp: QpRef): RecvState
    requires (qp.Data? ==> qp.i < |r.queues|) && StatusOf(r, qp) != []
  {
    match qp
    case Data(i) => r.(queues := r.queues[i := r.queues[i][1..]])
    case Notify => r.(notifyQueue := r.notifyQueue[1..])
  }

  /** One receive posted on a physical QP. */
  function AddPost(r: RecvState, base: nat, qp: QpRef, virtualWrId: int, msg: nat, wr: PhysicalRecv): RecvState
    requires qp.Data? ==> qp.i < |r.queues|
  {
    var status := WrStatus(base + |r.log|, virtualWrId);
    var r1 := r.(log := r.log + [Posted(qp, status, msg, wr)]);
    match qp
    case Data(i) => r1.(queues := r1.queues[i := r1.queues[i] + [status]])
    case Notify => r1.(notifyQueue := r1.notifyQueue + [status])
  }

  /** postRecvNotifyImm: SPRAY serves the front receive, DQPLB posts an anonymous one. */
  function PostNotifyRecv(c: Config, r: RecvState, base: nat, qp: QpRef): RecvState
    requires c.scheme.Spray? ==> r.pending != []
    requires qp.Data? ==> qp.i < |r.queues|
  {
    if c.scheme.Spray? then
      AddPost(r, base, qp, r.pending[0].wr.wrId, r.pending[0].msg, PhysicalRecv(0, 0, 0)).(pending := r.pending[1..])
    else AddPost(r, base, qp, -1, 0, PhysicalRecv(0, 0, 0))
  }

  /** The front receive moves on by one chunk, or leaves the queue. */
  function Advance(r: RecvState, length: nat): RecvState
    requires r.pending != []
  {
    var v := r.pending[0].(offset := r.pending[0].offset + length, remaining := r.pending[0].remaining - 1);
    r.(pending := if v.remaining == 0 then r.pending[1..] else [v] + r.pending[1..])
  }

  /** The next chunk of the front receive, always on data QP 0. */
  function PostChunk(c: Config, r: RecvState, base: nat): RecvState
    requires r.pending != [] && |r.queues| > 0 && r.pending[0].offset <= r.pending[0].wr.length
  {
    var v := r.pending[0];
    var length := Min(v.wr.length - v.offset, c.maxMsgSize);
    Advance(AddPost(r, base, Data(0), v.wr.wrId, v.msg, PhysicalRecv(1, v.wr.addr + v.offset, length)), length)
  }

  /** What makes the posting loop end, as for sends. */
  ghost predicate Receivable(c: Config, r: RecvState) {
    forall v | v in r.pending && v.wr.numSge != 0 :: v.offset <= v.wr.length && (v.remaining >= 1 || c.limit >= 0)
  }

  predicate LoopEnds(c: Config, wr: RecvWr) { wr.numSge == 0 || wr.length >= 1 || c.limit >= 0 }

  ghost function FrontLeft(r: RecvState): nat {
    if r.pending == [] || r.pending[0].remaining < 0 then 0 else r.pending[0].remaining
  }

  ghost function Slots(c: Config, r: RecvState, hint: int): nat
    requires |r.queues| > 0
  {
    (if |r.queues[0]| < c.limit then c.limit - |r.queues[0]| else 0) + if hint == 0 then 1 else 0
  }

  ghost predicate LessToPost(c: Config, r': RecvState, hint': int, r: RecvState, hint: int)
    requires |r.queues| > 0 && |r'.queues| > 0
  {
    || |r'.pending| < |r.pending|
    || (|r'.pending| == |r.pending| && FrontLeft(r') < FrontLeft(r))
    || (|r'.pending| == |r.pending| && FrontLeft(r') == FrontLeft(r) && Slots(c, r', hint') < Slots(c, r, hint))
  }

  /** mapPendingRecvQueToPhysicalQp, outside DQPLB. */
  function MapPending(c: Config, r: RecvState, base: nat, hint: int): (s: RecvState)
    requires Receivable(c, r) && c.Valid() && c.scheme.Spray? && |r.queues| == c.numQps
    ensures |s.queues| == c.numQps && Receivable(c, s)
    decreases |r.pending|, FrontLeft(r), Slots(c, r, hint)
  {
    if r.pending == [] then r
    else if r.pending[0].wr.numSge == 0 then
      ReceivableFrame(c, r, PostNotifyRecv(c, r, base, Notify));
      MapPending(c, PostNotifyRecv(c, r, base, Notify), base, hint)
    else if hint == 0 || SQ.HasRoom(|r.queues[0]|, c.limit) then
      assert r.pending[0] in r.pending;
      ReceivableFrame(c, r, PostChunk(c, r, base));
      MapPending(c, PostChunk(c, r, base), base, -1)
    else r
  }

  lemma ReceivableFrame(c: Config, r: RecvState, s: RecvState)
    requires Receivable(c, r) && r.pending != []
    requires s.pending == r.pending[1..]
          || (|s.pending| == |r.pending| && s.pending[1..] == r.pending[1..]
              && s.pending[0].offset <= s.pending[0].wr.length && (s.pending[0].remaining >= 1 || c.limit >= 0))
    ensures Receivable(c, s)
  {
    assert forall v | v in r.pending[1..] :: v in r.pending;
    assert |s.pending| == |r.pending| ==> forall v | v in s.pending :: v == s.pending[0] || v in s.pending[1..];
  }

  lemma AdvanceReceivable(c: Config, r: RecvState, length: nat)
    requires Receivable(c, r) && r.pending != [] && r.pending[0].wr.numSge != 0
    requires r.pending[0].offset + length <= r.pending[0].wr.length
    ensures Receivable(c, Advance(r, length))
  {
    assert r.pending[0] in r.pending;
    ReceivableFrame(c, r, Advance(r, length));
  }

  /** A receive for an immediate is posted at once, and leaves less to do. */
  lemma NoticeStep(c: Config, r: RecvState, base: nat, hint: int)
    requires Receivable(c, r) && c.Valid() && c.scheme.Spray? && |r.queues| == c.numQps
    requires r.pending != [] && r.pending[0].wr.numSge == 0
    ensures var r' := PostNotifyRecv(c, r, base, Notify);
            && Receivable(c, r') && MapPending(c, r, base, hint) == MapPending(c, r', base, hint)
            && LessToPost(c, r', hint, r, hint)
  {
    ReceivableFrame(c, r, PostNotifyRecv(c, r, base, Notify));
  }

  /** So does a chunk, if QP 0 has room or has just had a slot freed. */
  lemma ChunkStep(c: Config, r: RecvState, base: nat, hint: int)
    requires Receivable(c, r) && c.Valid() && c.scheme.Spray? && |r.queues| == c.numQps
    requires r.pending != [] && r.pending[0].wr.numSge != 0 && (hint == 0 || SQ.HasRoom(|r.queues[0]|, c.limit))
    ensures r.pending[0].offset <= r.pending[0].wr.length
    ensures var r' := PostChunk(c, r, base);
            && Receivable(c, r') && MapPending(c, r, base, hint) == MapPending(c, r', base, -1)
            && LessToPost(c, r', -1, r, hint)
  {
    assert r.pending[0] in r.pending;
    ReceivableFrame(c, r, PostChunk(c, r, base));
  }

  function Enqueue(c: Config, r: RecvState, wr: RecvWr): RecvState
    requires c.Valid()
  {
    r.(pending := r.pending + [VirtualRecvWr(wr, Expected(c, wr), 0, |r.wrs|)], wrs := r.wrs + [wr])
  }

  /** initializeDqplbReceiver: `limit` rounds of one anonymous receive on every data QP. */
  function InitRound(r: RecvState, base: nat, j: nat): (s: RecvState)
    requires j <= |r.queues|
    ensures |s.queues| == |r.queues|
    decreases |r.queues| - j
  {
    if j == |r.queues| then r else InitRound(AddPost(r, base, Data(j), -1, 0, PhysicalRecv(0, 0, 0)), base, j + 1)
  }

  function InitRounds(r: RecvState, base: nat, rounds: int): (s: RecvState)
    ensures |s.queues| == |r.queues|
    decreases rounds
  {
    if rounds <= 0 then r else InitRounds(InitRound(r, base, 0), base, rounds - 1)
  }

  function Initialize(c: Config, r: RecvState, base: nat): RecvState {
    InitRounds(r, base, c.limit).(ready := true)
  }

  /**
   * Receives with a buffer never overfill QP 0, and wait only while it is full; a hint of 0 says that it has
   * just had a slot freed.
   */
  lemma {:induction false} MapPendingFlow(c: Config, r: RecvState, base: nat, hint: int)
    requires Receivable(c, r) && c.Valid() && c.scheme.Spray? && |r.queues| == c.numQps
    requires c.limit >= 0 ==> |r.queues[0]| <= c.limit && (hint == 0 ==> |r.queues[0]| < c.limit)
    ensures var s := MapPending(c, r, base, hint);
            && (c.limit >= 0 ==> |s.queues[0]| <= c.limit)
            && (s.pending != [] ==> s.pending[0].wr.numSge != 0 && c.limit >= 0 && |s.queues[0]| == c.limit)
    decreases |r.pending|, FrontLeft(r), Slots(c, r, hint)
  {
    if r.pending != [] {
      if r.pending[0].wr.numSge == 0 {
        NoticeStep(c, r, base, hint);
        MapPendingFlow(c, PostNotifyRecv(c, r, base, Notify), base, hint);
      } else if hint == 0 || SQ.HasRoom(|r.queues[0]|, c.limit) {
        ChunkStep(c, r, base, hint);
        MapPendingFlow(c, PostChunk(c, r, base), base, -1);
      }
    }
  }

  // ---------------------------------------------------------------- invariants, SPRAY

  predicate ValidRecv(wr: RecvWr) { wr.numSge <= 1 && (wr.numSge == 1 ==> 1 <= wr.length <= 0x7FFF_FFFF) }

  ghost function HandedOver(r: RecvState): int { |r.wrs| - |r.pending| }

  ghost predicate PendingOk(c: Config, r: RecvState, i: nat)
    requires c.Valid() && i < |r.pending| <= |r.wrs|
  {
    var v := r.pending[i];
    var m := HandedOver(r) + i;
    var n := CountMsg(r.log, m);
    && v.msg == m && v.wr == r.wrs[m]
    && n < Expected(c, v.wr) && v.remaining == Expected(c, v.wr) - n && v.offset == n * c.maxMsgSize
    && (i > 0 ==> n == 0)
  }

  /** The n-th post of a receive: an empty one for an immediate, else a chunk of the buffer. */
  ghost function PostOf(c: Config, wr: RecvWr, n: nat): PhysicalRecv
    requires c.Valid() && n < Expected(c, wr)
  {
    if wr.numSge == 0 then PhysicalRecv(0, 0, 0)
    else
      SP.ChunkArithmetic(wr.length, c.maxMsgSize, n);
      PhysicalRecv(1, wr.addr + n * c.maxMsgSize, Min(wr.length - n * c.maxMsgSize, c.maxMsgSize))
  }

  ghost predicate PostOk(c: Config, r: RecvState, i: nat)
    requires c.Valid() && i < |r.log|
  {
    var e := r.log[i];
    && e.msg < |r.wrs| && e.status.virtualWrId == r.wrs[e.msg].wrId
    && e.qp == (if r.wrs[e.msg].numSge == 0 then Notify else Data(0))
    && var n := CountMsg(r.log[..i], e.msg);
       n < Expected(c, r.wrs[e.msg]) && e.wr == PostOf(c, r.wrs[e.msg], n)
  }

  /** The posts of a receive with a buffer tile it: each adjoins the next, from its first byte to its last. */
  lemma PostsTile(c: Config, r: RecvState, i: nat, j: nat)
    requires Posting(c, r) && i < |r.log| && j < |r.log| && r.log[i].msg < |r.wrs| && r.wrs[r.log[i].msg].numSge == 1
    ensures var wr, p, n := r.wrs[r.log[i].msg], r.log[i].wr, CountMsg(r.log[..i], r.log[i].msg);
            && 1 <= p.length <= c.maxMsgSize && p.numSge == 1
            && (n == 0 ==> p.addr == wr.addr)
            && (n + 1 == SQ.Chunks(wr.length, c.maxMsgSize) ==> p.addr + p.length == wr.addr + wr.length)
            && (r.log[j].msg == r.log[i].msg && CountMsg(r.log[..j], r.log[j].msg) == n + 1 ==> r.log[j].wr.addr == p.addr + p.length)
  {
    assert PostOk(c, r, i) && PostOk(c, r, j);
    var wr, n := r.wrs[r.log[i].msg], CountMsg(r.log[..i], r.log[i].msg);
    SP.ChunkArithmetic(wr.length, c.maxMsgSize, n);
    SP.ChunkArithmetic(wr.length, c.maxMsgSize, n + 1);
  }

  /** What a post is does not change with later posts and requests. */
  lemma PostFrame(c: Config, r: RecvState, r': RecvState, i: nat)
    requires c.Valid() && i < |r.log| && PostOk(c, r, i) && r.log <= r'.log && r.wrs <= r'.wrs
    ensures PostOk(c, r', i)
  {
    assert r'.log[..i] == r.log[..i] && r'.log[i] == r.log[i];
    assert r'.wrs[r.log[i].msg] == r.wrs[r.log[i].msg];
  }

  ghost predicate Posting(c: Config, r: RecvState) {
    && c.Valid() && |r.pending| <= |r.wrs|
    && (forall m | 0 <= m < |r.wrs| :: ValidRecv(r.wrs[m]))
    && (forall i: nat | i < |r.pending| :: PendingOk(c, r, i))
    && (forall m: nat | m < HandedOver(r) :: CountMsg(r.log, m) == Expected(c, r.wrs[m]))
    && (forall i: nat | i < |r.log| :: PostOk(c, r, i))
  }

  ghost predicate Queues(c: Config, r: RecvState, done: set<nat>) {
    && |r.queues| == c.numQps
    && (forall i: nat | i < c.numQps :: r.queues[i] == InFlight(r.log, done, Data(i)))
    && r.notifyQueue == InFlight(r.log, done, Notify)
  }

  ghost function InitialWc(c: Config, wr: RecvWr): VirtualWc
    requires c.Valid()
  {
    FreshWc(wr.wrId, Expected(c, wr), false)
  }

  ghost function RecvLedger(c: Config, r: RecvState, wcs: seq<VirtualWc>, out: nat,
                            done: set<nat>, comps: seq<Completion>): Ledger<PhysicalRecv>
    requires c.Valid()
  {
    Ledger(seq(|r.wrs|, i requires 0 <= i < |r.wrs| => InitialWc(c, r.wrs[i])), wcs, out, r.log, done, comps)
  }

  ghost predicate SprayInv(c: Config, r: RecvState, wcs: seq<VirtualWc>, out: nat, done: set<nat>, comps: seq<Completion>) {
    && c.scheme.Spray? && Posting(c, r) && Queues(c, r, done)
    && LedgerInv(RecvLedger(c, r, wcs, out, done, comps))
  }

  lemma PostingReceivable(c: Config, r: RecvState)
    requires Posting(c, r)
    ensures Receivable(c, r)
  {
    forall v | v in r.pending && v.wr.numSge != 0
      ensures v.remaining >= 1 && v.offset <= v.wr.length
    {
      var i: nat :| i < |r.pending| && r.pending[i] == v;
      assert PendingOk(c, r, i);
      SP.ChunkArithmetic(v.wr.length, c.maxMsgSize, CountMsg(r.log, HandedOver(r) + i));
    }
  }

  lemma AddPostQueues(c: Config, r: RecvState, base: nat, qp: QpRef, virtualWrId: int, msg: nat, wr: PhysicalRecv, done: set<nat>)
    requires Queues(c, r, done) && |r.log| !in done && (qp.Data? ==> qp.i < c.numQps)
    ensures Queues(c, AddPost(r, base, qp, virtualWrId, msg, wr), done)
  {
    var r' := AddPost(r, base, qp, virtualWrId, msg, wr);
    var e := r'.log[|r.log|];
    assert r'.log == r.log + [e];
    forall i: nat | i < c.numQps
      ensures r'.queues[i] == InFlight(r'.log, done, Data(i))
    {
      InFlightAppend(r.log, done, e, Data(i));
    }
    InFlightAppend(r.log, done, e, Notify);
  }

  /** One posting step of the SPRAY receive loop. */
  ghost predicate Posts(c: Config, r: RecvState, base: nat, r': RecvState) {
    && r.pending != []
    && if r.pending[0].wr.numSge == 0 then c.scheme.Spray? && r' == PostNotifyRecv(c, r, base, Notify)
       else |r.queues| > 0 && r.pending[0].offset <= r.pending[0].wr.length && r' == PostChunk(c, r, base)
  }

  /** A posting step moves the front receive on by one post, or takes it off the queue after its last one. */
  lemma PostsMoves(c: Config, r: RecvState, base: nat, r': RecvState)
    requires Posting(c, r) && Posts(c, r, base, r')
    ensures var h, v := HandedOver(r), r.pending[0];
            var n := CountMsg(r.log, h);
            && r'.wrs == r.wrs && r'.log == r.log + [r'.log[|r.log|]] && r'.log[|r.log|].msg == h
            && r'.log[|r.log|].status.virtualWrId == v.wr.wrId
            && r'.log[|r.log|].qp == (if v.wr.numSge == 0 then Notify else Data(0))
            && v.wr == r.wrs[h] && n < Expected(c, v.wr) && r'.log[|r.log|].wr == PostOf(c, v.wr, n)
            && (n + 1 == Expected(c, v.wr) ==> r'.pending == r.pending[1..])
            && (n + 1 < Expected(c, v.wr) ==>
                  && |r'.pending| == |r.pending| && r'.pending[1..] == r.pending[1..]
                  && r'.pending[0] == v.(offset := (n + 1) * c.maxMsgSize, remaining := Expected(c, v.wr) - (n + 1)))
  {
    assert PendingOk(c, r, 0);
    SP.ChunkArithmetic(r.pending[0].wr.length, c.maxMsgSize, CountMsg(r.log, HandedOver(r)));
  }

  lemma PostsPending(c: Config, r: RecvState, base: nat, r': RecvState, i: nat)
    requires Posting(c, r) && Posts(c, r, base, r') && i < |r'.pending| <= |r'.wrs|
    ensures PendingOk(c, r', i)
  {
    PostsMoves(c, r, base, r');
    var j := HandedOver(r') - HandedOver(r) + i;
    assert PendingOk(c, r, j);
    CountMsgAppend(r.log, r'.log[|r.log|], HandedOver(r) + j);
    if i > 0 && |r'.pending| == |r.pending| {
      assert r'.pending[i] == r'.pending[1..][i - 1] == r.pending[1..][i - 1] == r.pending[j];
    } else if |r'.pending| < |r.pending| {
      assert r'.pending[i] == r.pending[j];
    }
  }

  lemma PostsPosting(c: Config, r: RecvState, base: nat, r': RecvState)
    requires Posting(c, r) && Posts(c, r, base, r')
    ensures Posting(c, r')
  {
    PostsMoves(c, r, base, r');
    var e := r'.log[|r.log|];
    forall i: nat | i < |r'.pending| ensures PendingOk(c, r', i) { PostsPending(c, r, base, r', i); }
    forall m: nat | m < HandedOver(r')
      ensures CountMsg(r'.log, m) == Expected(c, r'.wrs[m])
    {
      CountMsgAppend(r.log, e, m);
    }
    forall i: nat | i < |r'.log|
      ensures PostOk(c, r', i)
    {
      if i < |r.log| { PostFrame(c, r, r', i); } else { assert r'.log[..i] == r.log; }
    }
  }

  lemma PostsQueues(c: Config, r: RecvState, base: nat, r': RecvState, done: set<nat>)
    requires Queues(c, r, done) && |r.log| !in done && Posts(c, r, base, r')
    ensures Queues(c, r', done)
  {
    var v := r.pending[0];
    if v.wr.numSge == 0 {
      AddPostQueues(c, r, base, Notify, v.wr.wrId, v.msg, PhysicalRecv(0, 0, 0), done);
    } else {
      AddPostQueues(c, r, base, Data(0), v.wr.wrId, v.msg,
                    PhysicalRecv(1, v.wr.addr + v.offset, Min(v.wr.length - v.offset, c.maxMsgSize)), done);
    }
  }

  lemma PostsInv(c: Config, r: RecvState, base: nat, r': RecvState, wcs: seq<VirtualWc>, out: nat, done: set<nat>, comps: seq<Completion>)
    requires SprayInv(c, r, wcs, out, done, comps) && Posts(c, r, base, r')
    ensures SprayInv(c, r', wcs, out, done, comps)
  {
    PostsPosting(c, r, base, r');
    PostsMoves(c, r, base, r');
    assert |r.log| !in done;
    PostsQueues(c, r, base, r', done);
    LedgerPost(RecvLedger(c, r, wcs, out, done, comps), r'.log[|r.log|]);
  }

  lemma {:induction false} MapPendingInv(c: Config, r: RecvState, base: nat, hint: int, wcs: seq<VirtualWc>, out: nat, done: set<nat>, comps: seq<Completion>)
    requires SprayInv(c, r, wcs, out, done, comps) && Receivable(c, r)
    ensures SprayInv(c, MapPending(c, r, base, hint), wcs, out, done, comps)
    ensures MapPending(c, r, base, hint).wrs == r.wrs && MapPending(c, r, base, hint).tracker == r.tracker
    ensures MapPending(c, r, base, hint).ready == r.ready
    decreases |r.pending|, FrontLeft(r), Slots(c, r, hint)
  {
    if r.pending != [] {
      if r.pending[0].wr.numSge == 0 {
        var r' := PostNotifyRecv(c, r, base, Notify);
        NoticeStep(c, r, base, hint);
        PostsInv(c, r, base, r', wcs, out, done, comps);
        MapPendingInv(c, r', base, hint, wcs, out, done, comps);
      } else if hint == 0 || SQ.HasRoom(|r.queues[0]|, c.limit) {
        ChunkStep(c, r, base, hint);
        var r' := PostChunk(c, r, base);
        PostsInv(c, r, base, r', wcs, out, done, comps);
        MapPendingInv(c, r', base, -1, wcs, out, done, comps);
      }
    }
  }

  lemma CompleteQueues(c: Config, r: RecvState, done: set<nat>, i: nat)
    requires Queues(c, r, done) && Oldest(r.log, done, i) && (r.log[i].qp.Data? ==> r.log[i].qp.i < c.numQps)
    ensures StatusOf(r, r.log[i].qp) != [] && StatusOf(r, r.log[i].qp)[0] == r.log[i].status
    ensures Queues(c, PopStatus(r, r.log[i].qp), done + {i})
  {
    var qp := r.log[i].qp;
    InFlightComplete(r.log, done, i, qp);
    forall j: nat | j < c.numQps
      ensures PopStatus(r, qp).queues[j] == InFlight(r.log, done + {i}, Data(j))
    {
      InFlightComplete(r.log, done, i, Data(j));
    }
    InFlightComplete(r.log, done, i, Notify);
  }

  lemma PopPosting(c: Config, r: RecvState, qp: QpRef)
    requires Posting(c, r) && (qp.Data? ==> qp.i < |r.queues|) && StatusOf(r, qp) != []
    ensures Posting(c, PopStatus(r, qp))
  {
    var r1 := PopStatus(r, qp);
    forall j: nat | j < |r1.pending| ensures PendingOk(c, r1, j) { assert PendingOk(c, r, j); }
    forall j: nat | j < |r1.log| ensures PostOk(c, r1, j) { PostFrame(c, r, r1, j); }
  }

  lemma CompletePost(c: Config, r: RecvState, wcs: seq<VirtualWc>, out: nat, done: set<nat>, comps: seq<Completion>,
                     i: nat, p: PhysicalWc)
    requires SprayInv(c, r, wcs, out, done, comps) && Oldest(r.log, done, i)
    ensures var m := r.log[i].msg;
            && out <= m < |wcs| && |wcs| == |r.wrs| && r.log[i].status.virtualWrId == wcs[m].wrId
            && (r.log[i].qp.Data? ==> r.log[i].qp.i < |r.queues|)
            && StatusOf(r, r.log[i].qp) != [] && StatusOf(r, r.log[i].qp)[0] == r.log[i].status
            && SprayInv(c, PopStatus(r, r.log[i].qp), wcs[m := Absorb(wcs[m], p)], out, done + {i}, comps + [Completion(m, p)])
  {
    var m, qp := r.log[i].msg, r.log[i].qp;
    var l := RecvLedger(c, r, wcs, out, done, comps);
    InFlightIsLive(l, i);
    Remaining(l, m);
    assert PostOk(c, r, i);
    CompleteQueues(c, r, done, i);
    PopPosting(c, r, qp);
    LedgerComplete(l, i, p);
  }

  lemma EnqueuePosting(c: Config, r: RecvState, wr: RecvWr)
    requires Posting(c, r) && ValidRecv(wr)
    ensures Posting(c, Enqueue(c, r, wr))
  {
    var r' := Enqueue(c, r, wr);
    forall i: nat | i < |r.log| ensures r.log[i].msg < |r.wrs| && PostOk(c, r', i) {
      assert PostOk(c, r, i);
      PostFrame(c, r, r', i);
    }
    CountMsgAbsent(r.log, |r.wrs|);
    SP.ChunkArithmetic(wr.length, c.maxMsgSize, 0);
    forall i: nat | i < |r'.pending|
      ensures PendingOk(c, r', i)
    {
      assert i < |r.pending| ==> PendingOk(c, r, i);
    }
    forall m: nat | m < HandedOver(r') ensures CountMsg(r'.log, m) == Expected(c, r'.wrs[m]) {
      assert r'.wrs[m] == r.wrs[m];
    }
  }

  lemma EnqueueInv(c: Config, r: RecvState, wr: RecvWr, wcs: seq<VirtualWc>, out: nat, done: set<nat>, comps: seq<Completion>)
    requires SprayInv(c, r, wcs, out, done, comps) && ValidRecv(wr)
    ensures SprayInv(c, Enqueue(c, r, wr), wcs + [InitialWc(c, wr)], out, done, comps)
  {
    var r' := Enqueue(c, r, wr);
    EnqueuePosting(c, r, wr);
    var l := RecvLedger(c, r, wcs, out, done, comps);
    LedgerNew(l, InitialWc(c, wr));
    assert RecvLedger(c, r', wcs + [InitialWc(c, wr)], out, done, comps).initial == l.initial + [InitialWc(c, wr)];
  }

  lemma PollInv(c: Config, r: RecvState, wcs: seq<VirtualWc>, out: nat, out': nat, done: set<nat>, comps: seq<Completion>)
    requires SprayInv(c, r, wcs, out, done, comps) && out <= out' <= |wcs|
    requires forall k: nat | out <= k < out' :: wcs[k].remaining <= 0
    ensures SprayInv(c, r, wcs, out', done, comps)
  {
    LedgerOut(RecvLedger(c, r, wcs, out, done, comps), out');
  }

  // ---------------------------------------------------------------- invariants, DQPLB

  function Depth(c: Config): nat { if c.limit < 0 then 0 else c.limit }

  /** Once the receiver is initialised every data QP keeps exactly its limit of posted receives. */
  ghost predicate DqplbInv(c: Config, r: RecvState, done: set<nat>) {
    && c.scheme.Dqplb? && c.Valid() && Queues(c, r, done) && InOrder(r.log, done)
    && (forall i: nat | i < |r.log| :: r.log[i].qp.Data? && r.log[i].qp.i < c.numQps && r.log[i].status.virtualWrId == -1)
    && (!r.ready ==> r.log == [])
    && (r.ready ==> forall i: nat | i < c.numQps :: |r.queues[i]| == Depth(c))
  }

  lemma {:induction false} InitRoundAdds(c: Config, r: RecvState, base: nat, j: nat, done: set<nat>)
    requires Queues(c, r, done) && InOrder(r.log, done) && j <= c.numQps
    requires forall i: nat | i < |r.log| :: r.log[i].qp.Data? && r.log[i].qp.i < c.numQps && r.log[i].status.virtualWrId == -1
    ensures var s := InitRound(r, base, j);
            && Queues(c, s, done) && InOrder(s.log, done)
            && (forall i: nat | i < |s.log| :: s.log[i].qp.Data? && s.log[i].qp.i < c.numQps && s.log[i].status.virtualWrId == -1)
            && (forall i: nat | i < c.numQps :: |s.queues[i]| == |r.queues[i]| + if i < j then 0 else 1)
            && s.(queues := r.queues, log := r.log) == r
    decreases c.numQps - j
  {
    if j < c.numQps {
      assert |r.log| !in done;
      AddPostQueues(c, r, base, Data(j), -1, 0, PhysicalRecv(0, 0, 0), done);
      InitRoundAdds(c, AddPost(r, base, Data(j), -1, 0, PhysicalRecv(0, 0, 0)), base, j + 1, done);
    }
  }

  lemma {:induction false} InitRoundsAdd(c: Config, r: RecvState, base: nat, rounds: int, done: set<nat>)
    requires Queues(c, r, done) && InOrder(r.log, done)
    requires forall i: nat | i < |r.log| :: r.log[i].qp.Data? && r.log[i].qp.i < c.numQps && r.log[i].status.virtualWrId == -1
    ensures var s := InitRounds(r, base, rounds);
            && Queues(c, s, done) && InOrder(s.log, done)
            && (forall i: nat | i < |s.log| :: s.log[i].qp.Data? && s.log[i].qp.i < c.numQps && s.log[i].status.virtualWrId == -1)
            && (forall i: nat | i < c.numQps :: |s.queues[i]| == |r.queues[i]| + if rounds <= 0 then 0 else rounds)
            && s.(queues := r.queues, log := r.log) == r
    decreases rounds
  {
    if rounds > 0 {
      InitRoundAdds(c, r, base, 0, done);
      InitRoundsAdd(c, InitRound(r, base, 0), base, rounds - 1, done);
    }
  }

  lemma InitializeInv(c: Config, r: RecvState, base: nat, done: set<nat>)
    requires DqplbInv(c, r, done) && !r.ready
    ensures DqplbInv(c, Initialize(c, r, base), done)
  {
    InitRoundsAdd(c, r, base, c.limit, done);
    assert forall i: nat | i < c.numQps :: r.queues[i] == InFlight(r.log, done, Data(i));
  }

  /** A receive completes and is replaced at once, so the depth of the QP does not change. */
  lemma DqplbCompletePost(c: Config, r: RecvState, base: nat, done: set<nat>, i: nat)
    requires DqplbInv(c, r, done) && Oldest(r.log, done, i)
    ensures var qp := r.log[i].qp;
            && qp.Data? && qp.i < |r.queues|
            && StatusOf(r, qp) != [] && StatusOf(r, qp)[0] == r.log[i].status
            && DqplbInv(c, PostNotifyRecv(c, PopStatus(r, qp), base, qp), done + {i})
  {
    var qp := r.log[i].qp;
    CompleteQueues(c, r, done, i);
    assert InOrder(r.log, done + {i});
    AddPostQueues(c, PopStatus(r, qp), base, qp, -1, 0, PhysicalRecv(0, 0, 0), done + {i});
  }
}
