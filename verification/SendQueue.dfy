/**
 * The sending half of a virtual QP: splitting a message into chunks, choosing a physical QP for each
 * chunk, and the SPRAY notify queue.
 */
module SendQueue {
  import opened Verbs
  import Seq = SeqTracker

  /** limit -1 (or any negative value) means no limit on the outstanding requests of one QP. */
  datatype Config = Config(scheme: Scheme, limit: int, maxMsgSize: nat, numQps: nat) {
    ghost predicate Valid() { maxMsgSize >= 1 && numQps >= 1 }
  }

  datatype VirtualSendWr = VirtualSendWr(wr: SendWr, remaining: int, offset: nat, extraNotify: bool, msg: nat)

  datatype SendState = SendState(
    pending: seq<VirtualSendWr>,        // pendingSendVirtualWrQue_
    notifying: seq<VirtualSendWr>,      // pendingSendNotifyVirtualWrQue_
    queues: seq<seq<WrStatus>>,         // physicalSendWrStatus_ of every data QP
    notifyQueue: seq<WrStatus>,         // physicalSendWrStatus_ of the notify QP
    nextQp: nat,                        // nextSendPhysicalQpIdx_
    sendNext: nat,                      // the sender's half of the DQPLB tracker
    msgs: seq<SendWr>,                  // every message accepted so far
    log: seq<Posted<PhysicalSend>>)     // every post made so far; with the receive posts it fixes nextPhysicalWrId_

  function HasRoom(outstanding: nat, limit: int): bool { limit < 0 || outstanding < limit }

  function Chunks(length: nat, maxMsgSize: nat): nat
    requires maxMsgSize >= 1
  {
    (length + maxMsgSize - 1) / maxMsgSize
  }

  predicate NeedsNotify(c: Config, wr: SendWr) { wr.opcode.RdmaWriteWithImm? && c.scheme.Spray? }

  function Expected(c: Config, wr: SendWr): nat
    requires c.Valid()
  {
    Chunks(wr.length, c.maxMsgSize) + if NeedsNotify(c, wr) then 1 else 0
  }

  /** `(at + 1) % n` for a cursor that is below n. */
  function NextIndex(at: nat, n: nat): nat
    requires at < n
  {
    if at + 1 == n then 0 else at + 1
  }

  /** findAvailableSendQp: the round-robin scan, as (index or -1, new cursor). */
  function ScanFrom(c: Config, queues: seq<seq<WrStatus>>, at: nat, tries: nat): (r: (int, nat))
    requires |queues| == c.numQps && at < c.numQps
    ensures r.0 == -1 || (0 <= r.0 < c.numQps && HasRoom(|queues[r.0]|, c.limit))
    ensures r.1 < c.numQps
    decreases tries
  {
    if tries == 0 then (-1, at)
    else if HasRoom(|queues[at]|, c.limit) then (at, NextIndex(at, c.numQps))
    else ScanFrom(c, queues, NextIndex(at, c.numQps), tries - 1)
  }

  function PhysicalOpcode(c: Config, op: Opcode): Opcode {
    if op.RdmaWriteWithImm? && c.scheme.Spray? then RdmaWrite else op
  }

  predicate CarriesSequence(c: Config, wr: SendWr) { wr.opcode.RdmaWriteWithImm? && c.scheme.Dqplb? }

  /** updatePhysicalSendWrFromVirtualSendWr */
  function ChunkRequest(c: Config, v: VirtualSendWr, sendNext: nat): PhysicalSend
    requires v.offset <= v.wr.length
  {
    PhysicalSend(
      PhysicalOpcode(c, v.wr.opcode),
      v.wr.addr + v.offset,
      Min(v.wr.length - v.offset, c.maxMsgSize),
      if IsRdma(v.wr.opcode) then v.wr.remoteAddr + v.offset else 0,
      if CarriesSequence(c, v.wr) then Seq.EncodeImm(sendNext, v.remaining == 1) else 0)
  }

  /**
   * What makes the posting loop end: entries of the pending queue have a chunk left to send, or the QPs have a
   * limit. An entry that counts nothing any more is never taken off the queue, and is posted while there is room.
   */
  ghost predicate Sendable(c: Config, s: SendState) {
    forall v | v in s.pending :: v.offset <= v.wr.length && (v.remaining >= 1 || c.limit >= 0)
  }

  /** After queueing this message the posting loop still ends. Only an empty message that counts nothing needs the limit. */
  predicate LoopEnds(c: Config, wr: SendWr) { wr.length >= 1 || NeedsNotify(c, wr) || c.limit >= 0 }

  /** How many requests the QPs can still take. */
  ghost function Room(queues: seq<seq<WrStatus>>, limit: int): nat {
    if queues == [] then 0
    else
      var n := |queues| - 1;
      Room(queues[..n], limit) + if |queues[n]| < limit then limit - |queues[n]| else 0
  }

  lemma {:induction false} RoomTaken(queues: seq<seq<WrStatus>>, limit: int, q: nat, w: WrStatus)
    requires q < |queues|
    ensures Room(queues[q := queues[q] + [w]], limit) == Room(queues, limit) - if |queues[q]| < limit then 1 else 0
  {
    var n := |queues| - 1;
    var after := queues[q := queues[q] + [w]];
    if q < n {
      assert after[..n] == queues[..n][q := queues[..n][q] + [w]];
      RoomTaken(queues[..n], limit, q, w);
    } else {
      assert after[..n] == queues[..n];
    }
  }

  /** What the front message still counts, and the room for posts, a freed slot included: the measure of the posting loop. */
  ghost function FrontLeft(s: SendState): nat {
    if s.pending == [] || s.pending[0].remaining < 0 then 0 else s.pending[0].remaining
  }

  ghost function Slots(c: Config, queues: seq<seq<WrStatus>>, hint: int): nat {
    Room(queues, c.limit) + if hint == -1 then 0 else 1
  }

  /**
   * One pass of the posting loop: the next chunk of the front message goes to data QP q. Physical work
   * request ids count all posts of the virtual QP; `base` is how many of them were receives.
   */
  function PostChunk(c: Config, s: SendState, base: nat, q: nat): SendState
    requires s.pending != [] && q < |s.queues| && s.pending[0].offset <= s.pending[0].wr.length
  {
    var v := s.pending[0];
    var req := ChunkRequest(c, v, s.sendNext);
    var status := WrStatus(base + |s.log|, v.wr.wrId);
    var v' := v.(offset := v.offset + req.length, remaining := v.remaining - 1);
    s.(queues := s.queues[q := s.queues[q] + [status]],
       sendNext := if CarriesSequence(c, v.wr) then (s.sendNext + 1) % Seq.SEQ_NUM_MASK else s.sendNext,
       log := s.log + [Posted(Data(q), status, v.msg, req)],
       pending := if v'.remaining == 0 || (v'.remaining == 1 && v'.extraNotify) then s.pending[1..] else [v'] + s.pending[1..],
       notifying := if v'.remaining == 1 && v'.extraNotify then s.notifying + [v'] else s.notifying)
  }

  /** The QP the front message may use, the cursor after looking, and what is left of the freed-slot hint. */
  function ChooseQp(c: Config, s: SendState, hint: int): (r: (int, nat, int))
    requires s.pending != [] && |s.queues| == c.numQps && s.nextQp < c.numQps && -1 <= hint < c.numQps
    ensures -1 <= r.0 < c.numQps && r.1 < c.numQps && -1 <= r.2 < c.numQps
  {
    if IsRdma(s.pending[0].wr.opcode) then
      if hint == -1 then
        var (q, next) := ScanFrom(c, s.queues, s.nextQp, c.numQps);
        (q, next, -1)
      else (hint, s.nextQp, -1)
    else if HasRoom(|s.queues[0]|, c.limit) then (0, s.nextQp, hint)
    else (-1, s.nextQp, hint)
  }

  /** mapPendingSendQueToPhysicalQp: post chunks until the queue is empty or no QP has room. */
  function MapPending(c: Config, s: SendState, base: nat, hint: int): (r: SendState)
    requires Sendable(c, s) && c.Valid() && |s.queues| == c.numQps && s.nextQp < c.numQps && -1 <= hint < c.numQps
    ensures |r.queues| == c.numQps && r.nextQp < c.numQps && Sendable(c, r)
    decreases |s.pending|, FrontLeft(s), Slots(c, s.queues, hint)
  {
    if s.pending == [] then s
    else
      var (q, next, hint') := ChooseQp(c, s, hint);
      if q == -1 then s.(nextQp := next)
      else
        PostChunkSendable(c, s.(nextQp := next), base, q);
        MapPending(c, PostChunk(c, s.(nextQp := next), base, q), base, hint')
  }

  lemma PostChunkSendable(c: Config, s: SendState, base: nat, q: nat)
    requires Sendable(c, s) && s.pending != [] && q < |s.queues|
    ensures Sendable(c, PostChunk(c, s, base, q))
    ensures Room(PostChunk(c, s, base, q).queues, c.limit) == Room(s.queues, c.limit) - if |s.queues[q]| < c.limit then 1 else 0
  {
    RoomTaken(s.queues, c.limit, q, WrStatus(base + |s.log|, s.pending[0].wr.wrId));
    ChunkSendable(c, s, base, q);
  }

  lemma ChunkSendable(c: Config, s: SendState, base: nat, q: nat)
    requires Sendable(c, s) && s.pending != [] && q < |s.queues|
    ensures Sendable(c, PostChunk(c, s, base, q))
  {
    assert s.pending[0] in s.pending;
    var s' := PostChunk(c, s, base, q);
    forall v | v in s'.pending ensures v.offset <= v.wr.length && (v.remaining >= 1 || c.limit >= 0) {
      assert v in s.pending[1..] ==> v in s.pending;
    }
  }

  /** Fewer messages, or fewer chunks of the front one, or less room. */
  ghost predicate LessToPost(c: Config, s': SendState, hint': int, s: SendState, hint: int) {
    || |s'.pending| < |s.pending|
    || (|s'.pending| == |s.pending| && FrontLeft(s') < FrontLeft(s))
    || (|s'.pending| == |s.pending| && FrontLeft(s') == FrontLeft(s) && Slots(c, s'.queues, hint') < Slots(c, s.queues, hint))
  }

  /** One pass of the posting loop leaves less to do. */
  lemma PostingStep(c: Config, s: SendState, base: nat, hint: int)
    requires Sendable(c, s) && c.Valid() && |s.queues| == c.numQps && s.nextQp < c.numQps && -1 <= hint < c.numQps
    requires s.pending != [] && ChooseQp(c, s, hint).0 != -1
    ensures var (q, next, hint') := ChooseQp(c, s, hint);
            var s' := PostChunk(c, s.(nextQp := next), base, q);
            && Sendable(c, s') && MapPending(c, s, base, hint) == MapPending(c, s', base, hint')
            && LessToPost(c, s', hint', s, hint)
  {
    var (q, next, hint') := ChooseQp(c, s, hint);
    assert s.pending[0] in s.pending;
    PostChunkSendable(c, s.(nextQp := next), base, q);
  }

  /** postSendNotifyImm: one zero-length write with the message's immediate, on the notify QP. */
  function PostNotify(s: SendState, base: nat): SendState
    requires s.notifying != []
  {
    var v := s.notifying[0];
    var status := WrStatus(base + |s.log|, v.wr.wrId);
    s.(notifyQueue := s.notifyQueue + [status],
       log := s.log + [Posted(Notify, status, v.msg, PhysicalSend(RdmaWriteWithImm, 0, 0, v.wr.remoteAddr, v.wr.imm))],
       notifying := s.notifying[1..])
  }

  /** postSend, after the checks: queue the message and post what fits. */
  function Enqueue(c: Config, s: SendState, wr: SendWr): SendState
    requires c.Valid()
  {
    s.(pending := s.pending + [VirtualSendWr(wr, Expected(c, wr), 0, NeedsNotify(c, wr), |s.msgs|)],
       msgs := s.msgs + [wr])
  }

  predicate Accepts(wr: SendWr) { wr.numSge <= 1 && Supported(wr.opcode) }

  function PopStatus(s: SendState, qp: QpRef): SendState
    requires match qp case Data(i) => i < |s.queues| && s.queues[i] != [] case Notify => s.notifyQueue != []
  {
    match qp
    case Data(i) => s.(queues := s.queues[i := s.queues[i][1..]])
    case Notify => s.(notifyQueue := s.notifyQueue[1..])
  }

  function StatusOf(s: SendState, qp: QpRef): seq<WrStatus>
    requires qp.Data? ==> qp.i < |s.queues|
  {
    match qp case Data(i) => s.queues[i] case Notify => s.notifyQueue
  }

  /**
   * The slot that a completion has freed goes to the next chunk of a write or read, if one is pending; and
   * sends are posted on QP 0 only.
   */
  lemma FreedSlotIsUsed(c: Config, s: SendState, base: nat, q: nat)
    requires Sendable(c, s) && c.Valid() && |s.queues| == c.numQps && s.nextQp < c.numQps && q < c.numQps && s.pending != []
    ensures var op, log := s.pending[0].wr.opcode, MapPending(c, s, base, q).log;
            && (op.RdmaWrite? || op.RdmaWriteWithImm? || op.RdmaRead? ==>
                  |log| > |s.log| && log[|s.log|].qp == Data(q) && log[|s.log|].msg == s.pending[0].msg)
            && (!(op.RdmaWrite? || op.RdmaWriteWithImm? || op.RdmaRead?) ==>
                  if c.limit < 0 || |s.queues[0]| < c.limit then |log| > |s.log| && log[|s.log|].qp == Data(0) else log == s.log)
  {
    var (p, next, hint) := ChooseQp(c, s, q);
    if p != -1 {
      PostingStep(c, s, base, q);
      LogGrows(c, PostChunk(c, s.(nextQp := next), base, p), base, hint);
    }
  }

  /** Sends that go first leave the freed slot to the first write or read that is posted. */
  lemma {:induction false} FreedSlotWaits(c: Config, s: SendState, base: nat, q: nat, i: nat)
    requires Sendable(c, s) && c.Valid() && |s.queues| == c.numQps && s.nextQp < c.numQps && q < c.numQps
    requires |s.log| <= i < |MapPending(c, s, base, q).log| && IsRdma(MapPending(c, s, base, q).log[i].wr.opcode)
    requires forall j | |s.log| <= j < i :: !IsRdma(MapPending(c, s, base, q).log[j].wr.opcode)
    ensures MapPending(c, s, base, q).log[i].qp == Data(q)
    decreases |s.pending|, FrontLeft(s), Slots(c, s.queues, q)
  {
    if s.pending != [] && ChooseQp(c, s, q).0 != -1 {
      var (p, next, hint) := ChooseQp(c, s, q);
      var s' := PostChunk(c, s.(nextQp := next), base, p);
      PostingStep(c, s, base, q);
      LogGrows(c, s', base, hint);
      assert MapPending(c, s, base, q).log[|s.log|] == s'.log[|s.log|];
      if i > |s.log| { FreedSlotWaits(c, s', base, q, i); }
    }
  }

  /**
   * Post number `from + k` is where the turn says: first the freed slot if there is one, then the QP under the
   * cursor, and from then on each QP follows the one before it.
   */
  ghost predicate InTurn(log: seq<Posted<PhysicalSend>>, from: nat, k: nat, hint: int, cursor: nat, n: nat)
    requires from + k < |log|
  {
    var i := from + k;
    && log[i].qp.Data? && (k > 0 ==> log[i - 1].qp.Data?)
    && log[i].qp.i == if k == 0 && hint != -1 then hint
                      else if k == 0 || (k == 1 && hint != -1) then cursor
                      else if log[i - 1].qp.i + 1 == n then 0 else log[i - 1].qp.i + 1
  }

  ghost predicate AllInTurn(log: seq<Posted<PhysicalSend>>, from: nat, hint: int, cursor: nat, n: nat) {
    forall k: nat | from + k < |log| :: InTurn(log, from, k, hint, cursor, n)
  }

  /** Posting from here gives this log; under a quantifier, so that the verifier opens it only where it is used. */
  ghost predicate GivesLog(c: Config, s: SendState, base: nat, hint: int, log: seq<Posted<PhysicalSend>>) {
    forall t: SendState {:trigger Sendable(c, t)} | t == s ::
      && Sendable(c, t) && c.Valid() && |t.queues| == c.numQps && t.nextQp < c.numQps && -1 <= hint < c.numQps
      && (forall v | v in t.pending :: IsRdma(v.wr.opcode)) && log == MapPending(c, t, base, hint).log
  }

  /**
   * Without a limit the chunks of writes and reads are sprayed over the data QPs in turn, whatever message they
   * belong to; a freed slot is used first and does not move the cursor.
   */
  lemma SpraysInTurn(c: Config, s: SendState, base: nat, hint: int)
    requires Sendable(c, s) && c.Valid() && |s.queues| == c.numQps && s.nextQp < c.numQps && -1 <= hint < c.numQps
    requires c.limit < 0 && (forall v | v in s.pending :: IsRdma(v.wr.opcode))
    ensures AllInTurn(MapPending(c, s, base, hint).log, |s.log|, hint, s.nextQp, c.numQps)
  {
    TurnsFrom(c, s, base, hint, MapPending(c, s, base, hint).log);
  }

  lemma {:induction false} TurnsFrom(c: Config, s: SendState, base: nat, hint: int, log: seq<Posted<PhysicalSend>>)
    requires c.limit < 0 && GivesLog(c, s, base, hint, log)
    ensures AllInTurn(log, |s.log|, hint, s.nextQp, c.numQps)
    decreases |s.pending|, FrontLeft(s), Slots(c, s.queues, hint)
  {
    if s.pending != [] {
      var s' := FirstTurn(c, s, base, hint, log);
      TurnsFrom(c, s', base, -1, log);
      LaterTurns(log, |s.log|, hint, s.nextQp, c.numQps);
    } else {
      assert Sendable(c, s);
    }
  }

  lemma LaterTurns(log: seq<Posted<PhysicalSend>>, from: nat, hint: int, cursor: nat, n: nat)
    requires hint >= -1 && from < |log| && log[from].qp == Data(if hint == -1 then cursor else hint)
    requires AllInTurn(log, from + 1, -1, if hint != -1 then cursor else if cursor + 1 == n then 0 else cursor + 1, n)
    ensures AllInTurn(log, from, hint, cursor, n)
  {
    forall k: nat | from + k < |log| ensures InTurn(log, from, k, hint, cursor, n) {
      assert k > 0 ==> InTurn(log, from + 1, k - 1, -1, if hint != -1 then cursor else if cursor + 1 == n then 0 else cursor + 1, n);
    }
  }

  lemma FirstTurn(c: Config, s: SendState, base: nat, hint: int, log: seq<Posted<PhysicalSend>>) returns (s': SendState)
    requires c.limit < 0 && s.pending != [] && GivesLog(c, s, base, hint, log)
    ensures GivesLog(c, s', base, -1, log) && LessToPost(c, s', -1, s, hint) && -1 <= hint < c.numQps
    ensures s'.nextQp == if hint != -1 then s.nextQp else if s.nextQp + 1 == c.numQps then 0 else s.nextQp + 1
    ensures |s.log| + 1 == |s'.log| <= |log| && log[|s.log|].qp == Data(if hint == -1 then s.nextQp else hint)
  {
    assert Sendable(c, s);
    var (q, next, rest) := ChooseQp(c, s, hint);
    assert s.pending[0] in s.pending && forall v | v in s.pending[1..] :: v in s.pending;
    PostingStep(c, s, base, hint);
    s' := PostChunk(c, s.(nextQp := next), base, q);
    LogGrows(c, s', base, -1);
    assert log[|s.log|] == s'.log[|s.log|];
  }

  lemma {:induction false} LogGrows(c: Config, s: SendState, base: nat, hint: int)
    requires Sendable(c, s) && c.Valid() && |s.queues| == c.numQps && s.nextQp < c.numQps && -1 <= hint < c.numQps
    ensures s.log <= MapPending(c, s, base, hint).log
    decreases |s.pending|, FrontLeft(s), Slots(c, s.queues, hint)
  {
    if s.pending != [] {
      var (q, next, hint') := ChooseQp(c, s, hint);
      if q != -1 {
        PostingStep(c, s, base, hint);
        LogGrows(c, PostChunk(c, s.(nextQp := next), base, q), base, hint');
      }
    }
  }

  // ---------------------------------------------------------------- empty messages

  /** The empty message as the posting loop meets it at the front of the queue. */
  ghost predicate EmptyInFront(c: Config, s: SendState) {
    && c.Valid() && s.pending != []
    && var v := s.pending[0];
       v.wr.length == 0 && v.offset == 0 && v.extraNotify == NeedsNotify(c, v.wr) && v.remaining == Expected(c, v.wr)
  }

  /**
   * An empty SPRAY write with immediate leaves the queue after one empty chunk. It never waits for its notify,
   * and its completion goes from one to zero: the peer is not told, and the sender sees success.
   */
  lemma EmptyLosesNotify(c: Config, s: SendState, base: nat, q: nat)
    requires EmptyInFront(c, s) && NeedsNotify(c, s.pending[0].wr) && q < |s.queues|
    ensures var s' := PostChunk(c, s, base, q);
            && s'.pending == s.pending[1..] && s'.notifying == s.notifying && |s'.log| == |s.log| + 1
            && s'.log[|s.log|].qp == Data(q) && s'.log[|s.log|].wr.length == 0 && s'.log[|s.log|].wr.opcode == RdmaWrite
    ensures Expected(c, s.pending[0].wr) == 1
  {
    assert Chunks(0, c.maxMsgSize) == 0;
  }

  /**
   * Any other empty message counts nothing from the start, and stays in front however often it is posted: the
   * posting loop ends only where the QPs have a limit.
   */
  lemma EmptyNeverLeaves(c: Config, s: SendState, base: nat, q: nat)
    requires c.Valid() && s.pending != [] && s.pending[0].remaining <= 0 && s.pending[0].offset <= s.pending[0].wr.length
    requires q < |s.queues|
    ensures var s' := PostChunk(c, s, base, q);
            |s'.pending| == |s.pending| && s'.pending[0].remaining < 0 && s'.pending[0].wr == s.pending[0].wr
    ensures !NeedsNotify(c, s.pending[0].wr) && s.pending[0].wr.length == 0 ==> Expected(c, s.pending[0].wr) == 0
    ensures c.limit < 0 && |s.queues| == c.numQps && s.nextQp < c.numQps ==> ChooseQp(c, s, -1).0 != -1
  {
    assert Chunks(0, c.maxMsgSize) == 0;
  }

  // ---------------------------------------------------------------- flow control

  ghost predicate WithinLimit(c: Config, queues: seq<seq<WrStatus>>) {
    c.limit >= 0 ==> forall i | 0 <= i < |queues| :: |queues[i]| <= c.limit
  }

  ghost predicate AllFull(c: Config, queues: seq<seq<WrStatus>>) {
    c.limit >= 0 && forall i | 0 <= i < |queues| :: |queues[i]| >= c.limit
  }

  /** How many steps the round-robin cursor takes from `at` to `i`. */
  ghost function Distance(at: nat, i: nat, n: nat): int { if at <= i then i - at else i + n - at }

  /** The scan takes the first QP with room, counted from the cursor, and leaves the cursor one past it. */
  ghost predicate FirstWithRoom(c: Config, queues: seq<seq<WrStatus>>, at: nat, q: int, next: nat)
    requires |queues| == c.numQps
  {
    && 0 <= q < c.numQps && (c.limit < 0 || |queues[q]| < c.limit)
    && next == (if q + 1 == c.numQps then 0 else q + 1)
    && forall i: nat | i < c.numQps && Distance(at, i, c.numQps) < Distance(at, q, c.numQps) :: c.limit >= 0 && |queues[i]| >= c.limit
  }

  lemma {:induction false} ScanTries(c: Config, queues: seq<seq<WrStatus>>, at: nat, tries: nat)
    requires |queues| == c.numQps && at < c.numQps && tries <= c.numQps
    ensures var (q, next) := ScanFrom(c, queues, at, tries);
            if q == -1 then
              && (forall i: nat | i < c.numQps && Distance(at, i, c.numQps) < tries :: c.limit >= 0 && |queues[i]| >= c.limit)
              && next == (if at + tries < c.numQps then at + tries else at + tries - c.numQps)
            else FirstWithRoom(c, queues, at, q, next) && Distance(at, q, c.numQps) < tries
    decreases tries
  {
    if tries > 0 && !HasRoom(|queues[at]|, c.limit) {
      ScanTries(c, queues, NextIndex(at, c.numQps), tries - 1);
      assert forall i: nat | i < c.numQps && i != at :: Distance(at, i, c.numQps) == Distance(NextIndex(at, c.numQps), i, c.numQps) + 1;
    }
  }

  /**
   * The scan finds no QP exactly when every QP is at its limit, and leaves the cursor; else it takes the first
   * one with room from the cursor on, and leaves the cursor one past it.
   */
  lemma ScanFindsRoom(c: Config, queues: seq<seq<WrStatus>>, at: nat)
    requires |queues| == c.numQps && at < c.numQps
    ensures ScanFrom(c, queues, at, c.numQps).0 == -1 <==> AllFull(c, queues)
    ensures var (q, next) := ScanFrom(c, queues, at, c.numQps);
            if q == -1 then next == at else FirstWithRoom(c, queues, at, q, next)
  {
    ScanTries(c, queues, at, c.numQps);
    assert forall i: nat | i < c.numQps :: Distance(at, i, c.numQps) < c.numQps;
  }

  /**
   * For writes and reads the posting loop never overfills a QP, and stops with messages left only when
   * every QP is full. A hint names the QP on which a completion has just freed a slot.
   */
  lemma {:induction false} MapPendingFlow(c: Config, s: SendState, base: nat, hint: int)
    requires Sendable(c, s) && c.Valid() && |s.queues| == c.numQps && s.nextQp < c.numQps && -1 <= hint < c.numQps
    requires WithinLimit(c, s.queues) && (hint != -1 ==> HasRoom(|s.queues[hint]|, c.limit))
    requires forall v | v in s.pending :: IsRdma(v.wr.opcode)
    ensures var r := MapPending(c, s, base, hint);
            WithinLimit(c, r.queues) && (r.pending != [] ==> AllFull(c, r.queues))
            && forall v | v in r.pending :: IsRdma(v.wr.opcode)
    decreases |s.pending|, FrontLeft(s), Slots(c, s.queues, hint)
  {
    if s.pending != [] {
      var (q, next, hint') := ChooseQp(c, s, hint);
      ScanFindsRoom(c, s.queues, s.nextQp);
      if q != -1 {
        var s1 := s.(nextQp := next);
        PostChunkSendable(c, s1, base, q);
        assert forall v | v in s.pending[1..] :: v in s.pending;
        MapPendingFlow(c, PostChunk(c, s1, base, q), base, hint');
      }
    }
  }

  // ---------------------------------------------------------------- flow control with sends

  /** How many chunks are left of the sends in front of the first write or read. */
  ghost function SendsAhead(pending: seq<VirtualSendWr>): int {
    if pending == [] || IsRdma(pending[0].wr.opcode) then 0 else pending[0].remaining + SendsAhead(pending[1..])
  }

  ghost predicate WriteWaits(pending: seq<VirtualSendWr>) { exists v :: v in pending && IsRdma(v.wr.opcode) }

  /** Every entry has something left to post, and only writes wait for a notify. */
  ghost predicate Unfinished(pending: seq<VirtualSendWr>) {
    forall v | v in pending :: v.remaining >= 1 && (v.extraNotify ==> IsRdma(v.wr.opcode))
  }

  lemma {:induction false} QueuesGrow(c: Config, s: SendState, base: nat, hint: int, q: nat)
    requires Sendable(c, s) && c.Valid() && |s.queues| == c.numQps && s.nextQp < c.numQps && -1 <= hint < c.numQps && q < c.numQps
    ensures |MapPending(c, s, base, hint).queues[q]| >= |s.queues[q]|
    decreases |s.pending|, FrontLeft(s), Slots(c, s.queues, hint)
  {
    if s.pending != [] {
      var (p, next, hint') := ChooseQp(c, s, hint);
      if p != -1 {
        PostingStep(c, s, base, hint);
        QueuesGrow(c, PostChunk(c, s.(nextQp := next), base, p), base, hint', q);
      }
    }
  }

  /**
   * With sends among the messages the limit is exceeded, and then on QP 0, if and only if QP 0 is the one with
   * the freed slot, and the sends in front fill it up exactly before a write or read takes that slot unchecked.
   */
  lemma OverfillsIff(c: Config, s: SendState, base: nat, hint: int)
    requires Sendable(c, s) && c.Valid() && |s.queues| == c.numQps && s.nextQp < c.numQps && -1 <= hint < c.numQps
    requires c.limit >= 0 && WithinLimit(c, s.queues) && Unfinished(s.pending) && (hint != -1 ==> |s.queues[hint]| < c.limit)
    ensures !WithinLimit(c, MapPending(c, s, base, hint).queues) <==>
            hint == 0 && WriteWaits(s.pending) && |s.queues[0]| + SendsAhead(s.pending) == c.limit
  {
    OverfillsFrom(c, s, base, hint);
  }

  /** With a limit of one and one QP, a send and a write that wait for the slot just freed are both posted. */
  lemma SendAndWriteOverfill(c: Config, s: SendState, base: nat, send: SendWr, write: SendWr)
    requires c == Config(Spray, 1, 8, 1) && send.opcode.Send? && write.opcode.RdmaWrite? && send.length == 8 && write.length == 8
    requires s == SendState([VirtualSendWr(send, 1, 0, false, 0), VirtualSendWr(write, 1, 0, false, 1)], [], [[]], [], 0, 0, [send, write], [])
    ensures Sendable(c, s) && |MapPending(c, s, base, 0).queues[0]| == 2 > c.limit
  {
    assert s.pending[1..] == [s.pending[1]];
    PostingStep(c, s, base, 0);
    var s1 := PostChunk(c, s, base, 0);
    assert s1.pending == [s.pending[1]];
    PostingStep(c, s1, base, 0);
  }

  lemma {:induction false} OverfillsFrom(c: Config, s: SendState, base: nat, hint: int)
    requires Sendable(c, s) && c.Valid() && |s.queues| == c.numQps && s.nextQp < c.numQps && -1 <= hint < c.numQps
    requires c.limit >= 0 && WithinLimit(c, s.queues) && Unfinished(s.pending) && (hint > 0 ==> |s.queues[hint]| < c.limit)
    ensures !WithinLimit(c, MapPending(c, s, base, hint).queues) <==>
            hint == 0 && WriteWaits(s.pending) && |s.queues[0]| + SendsAhead(s.pending) == c.limit
    decreases |s.pending|, FrontLeft(s), Slots(c, s.queues, hint)
  {
    if s.pending != [] {
      var (q, next, hint') := ChooseQp(c, s, hint);
      SendsCounted(s.pending);
      if q != -1 {
        var s' := PostChunk(c, s.(nextQp := next), base, q);
        PostingStep(c, s, base, hint);
        PostKeeps(c, s.(nextQp := next), base, q);
        if |s.queues[q]| == c.limit { QueuesGrow(c, s', base, hint', q); } else { OverfillsFrom(c, s', base, hint'); }
      }
    }
  }

  lemma {:induction false} SendsCounted(pending: seq<VirtualSendWr>)
    requires Unfinished(pending)
    ensures SendsAhead(pending) >= if pending == [] || IsRdma(pending[0].wr.opcode) then 0 else 1
  {
    if pending != [] && !IsRdma(pending[0].wr.opcode) {
      assert pending[0] in pending && forall v | v in pending[1..] :: v in pending;
      SendsCounted(pending[1..]);
    }
  }

  /** What one pass of the loop does to what is ahead. */
  lemma PostKeeps(c: Config, s: SendState, base: nat, q: nat)
    requires s.pending != [] && q < |s.queues| && s.pending[0].offset <= s.pending[0].wr.length && Unfinished(s.pending)
    ensures var s' := PostChunk(c, s, base, q);
            && Unfinished(s'.pending)
            && (!IsRdma(s.pending[0].wr.opcode) ==>
                  (WriteWaits(s'.pending) <==> WriteWaits(s.pending)) && SendsAhead(s'.pending) == SendsAhead(s.pending) - 1)
  {
    assert s.pending == [s.pending[0]] + s.pending[1..];
    assert s.pending[0] in s.pending && forall v | v in s.pending[1..] :: v in s.pending;
  }
}
