/** Splitting a message into chunks keeps its meaning: its chunks, in any order, move what the whole message moves. */
module Splitting {
  import opened Arithmetic
  import opened Verbs
  import SQ = SendQueue
  import SP = SendProtocol

  /** The memory that a request changes, at the addresses that are mapped there. */
  type Memory = map<nat, nat>

  /** A write moves bytes outward, to the peer's memory; a read moves them inward, to the sender's. */
  datatype Way = Outward | Inward

  predicate Goes(op: Opcode, way: Way) {
    match way
    case Outward => op.RdmaWrite? || op.RdmaWriteWithImm?
    case Inward => op.RdmaRead?
  }

  function Source(way: Way, p: PhysicalSend): nat { if way.Outward? then p.addr else p.remoteAddr }

  function Target(way: Way, p: PhysicalSend): nat { if way.Outward? then p.remoteAddr else p.addr }

  /** `p` moves a byte to address `a`, this way. */
  ghost predicate Touches(way: Way, p: PhysicalSend, a: nat) {
    Goes(p.opcode, way) && Target(way, p) <= a < Target(way, p) + p.length
  }

  /** What a request does to the memory at this end of the way; `source` is the memory at the other end. */
  ghost function Move(way: Way, source: nat -> nat, memory: Memory, p: PhysicalSend): Memory {
    map a | a in memory.Keys :: if Touches(way, p, a) then source(Source(way, p) + (a - Target(way, p))) else memory[a]
  }

  ghost function MoveAll(way: Way, source: nat -> nat, memory: Memory, ps: seq<PhysicalSend>): Memory {
    if ps == [] then memory else Move(way, source, MoveAll(way, source, memory, ps[..|ps| - 1]), ps[|ps| - 1])
  }

  /** The message sent in one piece. */
  ghost function Whole(wr: SendWr): PhysicalSend {
    PhysicalSend(wr.opcode, wr.addr, wr.length, wr.remoteAddr, wr.imm)
  }

  /** `a` is an address to which the message moves a byte. */
  ghost predicate Covers(way: Way, wr: SendWr, a: nat) { Touches(way, Whole(wr), a) }

  /** `p` is the request for the n-th chunk of the message. */
  ghost predicate IsChunk(c: SQ.Config, wr: SendWr, p: PhysicalSend, n: nat)
    requires c.Valid()
  {
    && n < SQ.Chunks(wr.length, c.maxMsgSize)
    && exists k: nat :: p == SP.ChunkOf(c, wr, n, k)
  }

  ghost predicate SomeChunk(c: SQ.Config, wr: SendWr, p: PhysicalSend)
    requires c.Valid()
  {
    exists n: nat :: IsChunk(c, wr, p, n)
  }

  /** `ps` are chunks of the message only, and every chunk of it, in any order and any number of times. */
  ghost predicate ChunksOf(c: SQ.Config, wr: SendWr, ps: seq<PhysicalSend>)
    requires c.Valid()
  {
    (forall j: nat | j < |ps| :: SomeChunk(c, wr, ps[j])) && (forall n: nat :: Occurs(c, wr, ps, n))
  }

  /** If the message has an n-th chunk, it is among the requests. */
  ghost predicate Occurs(c: SQ.Config, wr: SendWr, ps: seq<PhysicalSend>, n: nat)
    requires c.Valid()
  {
    n < SQ.Chunks(wr.length, c.maxMsgSize) ==> exists j: nat :: j < |ps| && IsChunk(c, wr, ps[j], n)
  }

  /** Consecutive chunks adjoin, none is empty or longer than maxMsgSize, and together they span the message. */
  lemma ChunksTile(c: SQ.Config, wr: SendWr, n: nat, k: nat, k': nat)
    requires c.Valid() && n < SQ.Chunks(wr.length, c.maxMsgSize)
    ensures var p := SP.ChunkOf(c, wr, n, k);
            && 1 <= p.length <= c.maxMsgSize
            && (n == 0 ==> p.addr == wr.addr && (IsRdma(wr.opcode) ==> p.remoteAddr == wr.remoteAddr))
            && (n + 1 == SQ.Chunks(wr.length, c.maxMsgSize) ==>
                  && p.addr + p.length == wr.addr + wr.length
                  && (IsRdma(wr.opcode) ==> p.remoteAddr + p.length == wr.remoteAddr + wr.length))
            && (n + 1 < SQ.Chunks(wr.length, c.maxMsgSize) ==>
                  var next := SP.ChunkOf(c, wr, n + 1, k');
                  && p.addr + p.length == next.addr
                  && (IsRdma(wr.opcode) ==> p.remoteAddr + p.length == next.remoteAddr))
  {
    SP.ChunkArithmetic(wr.length, c.maxMsgSize, n);
    SP.ChunkArithmetic(wr.length, c.maxMsgSize, n + 1);
  }

  /** Every byte of the message lies in exactly one chunk: the one its offset divides to. */
  lemma ByteInChunk(c: SQ.Config, wr: SendWr, way: Way, a: nat, n: nat, k: nat)
    requires c.Valid() && Goes(wr.opcode, way) && n < SQ.Chunks(wr.length, c.maxMsgSize)
    ensures Touches(way, SP.ChunkOf(c, wr, n, k), a) <==>
      Covers(way, wr, a) && n == (a - Target(way, Whole(wr))) / c.maxMsgSize
  {
    SP.ChunkArithmetic(wr.length, c.maxMsgSize, n);
    if Target(way, Whole(wr)) <= a {
      QuotientIs(a - Target(way, Whole(wr)), c.maxMsgSize, n);
    }
  }

  lemma QuotientIs(x: nat, m: nat, n: nat)
    requires m >= 1
    ensures n == x / m <==> n * m <= x < n * m + m
  {
    var q := x / m;
    assert q * m <= x < q * m + m;
    if n < q { MulMonotone(n + 1, q, m); assert (n + 1) * m == n * m + m; }
    if q < n { MulMonotone(q + 1, n, m); assert (q + 1) * m == q * m + m; }
  }

  /** The memory holds at `a` the byte that the message moves there. */
  ghost predicate ByteOk(way: Way, source: nat -> nat, memory: Memory, wr: SendWr, a: nat)
    requires Covers(way, wr, a)
  {
    a in memory && memory[a] == source(Source(way, Whole(wr)) + (a - Target(way, Whole(wr))))
  }

  /** A chunk moves the right byte to every address it touches. */
  lemma ChunkMoves(c: SQ.Config, wr: SendWr, way: Way, source: nat -> nat, before: Memory, p: PhysicalSend, a: nat)
    requires c.Valid() && Covers(way, wr, a) && a in before
    requires SomeChunk(c, wr, p) && Touches(way, p, a)
    ensures ByteOk(way, source, Move(way, source, before, p), wr, a)
  {
    var n: nat :| IsChunk(c, wr, p, n);
    var k: nat :| p == SP.ChunkOf(c, wr, n, k);
    assert p.addr - wr.addr == p.remoteAddr - wr.remoteAddr;
  }

  /**
   * Once the chunk that holds a byte has moved, the byte is right and stays so, whatever other chunks of the
   * message, and whatever requests elsewhere, come before, between or after.
   */
  lemma {:induction false} MovedByte(c: SQ.Config, wr: SendWr, way: Way, source: nat -> nat, memory: Memory,
                                     ps: seq<PhysicalSend>, a: nat, i: nat)
    requires c.Valid() && Covers(way, wr, a) && a in memory
    requires forall j: nat | j < |ps| && Touches(way, ps[j], a) :: SomeChunk(c, wr, ps[j])
    requires i < |ps| && Touches(way, ps[i], a)
    ensures ByteOk(way, source, MoveAll(way, source, memory, ps), wr, a)
  {
    var m := |ps| - 1;
    MoveAllKeys(way, source, memory, ps[..m]);
    assert forall j: nat | j < m :: ps[..m][j] == ps[j];
    if Touches(way, ps[m], a) {
      ChunkMoves(c, wr, way, source, MoveAll(way, source, memory, ps[..m]), ps[m], a);
    } else {
      MovedByte(c, wr, way, source, memory, ps[..m], a, i);
    }
  }

  lemma {:induction false} MoveAllKeys(way: Way, source: nat -> nat, memory: Memory, ps: seq<PhysicalSend>)
    ensures MoveAll(way, source, memory, ps).Keys == memory.Keys
  {
    if ps != [] { MoveAllKeys(way, source, memory, ps[..|ps| - 1]); }
  }

  lemma {:induction false} Untouched(way: Way, source: nat -> nat, memory: Memory, ps: seq<PhysicalSend>, a: nat)
    requires a in memory && forall j: nat | j < |ps| :: !Touches(way, ps[j], a)
    ensures a in MoveAll(way, source, memory, ps) && MoveAll(way, source, memory, ps)[a] == memory[a]
  {
    MoveAllKeys(way, source, memory, ps);
    if ps != [] {
      var m := |ps| - 1;
      MoveAllKeys(way, source, memory, ps[..m]);
      assert forall j: nat | j < m :: ps[..m][j] == ps[j];
      Untouched(way, source, memory, ps[..m], a);
    }
  }

  /**
   * Any sequence of chunk requests in which every chunk occurs leaves the same memory as the whole message in
   * one request: the remote memory for a write, the local one for a read.
   */
  lemma AnyOrderIsWhole(c: SQ.Config, wr: SendWr, way: Way, source: nat -> nat, memory: Memory, ps: seq<PhysicalSend>)
    requires c.Valid() && Goes(wr.opcode, way)
    requires ChunksOf(c, wr, ps)
    ensures MoveAll(way, source, memory, ps) == Move(way, source, memory, Whole(wr))
  {
    MoveAllKeys(way, source, memory, ps);
    var end, copy := MoveAll(way, source, memory, ps), Move(way, source, memory, Whole(wr));
    assert end.Keys == copy.Keys;
    forall a | a in memory.Keys ensures end[a] == copy[a] { ByteOfWhole(c, wr, way, source, memory, ps, a); }
  }

  lemma ByteOfWhole(c: SQ.Config, wr: SendWr, way: Way, source: nat -> nat, memory: Memory, ps: seq<PhysicalSend>, a: nat)
    requires c.Valid() && Goes(wr.opcode, way) && a in memory
    requires ChunksOf(c, wr, ps)
    ensures a in MoveAll(way, source, memory, ps) && a in Move(way, source, memory, Whole(wr))
    ensures MoveAll(way, source, memory, ps)[a] == Move(way, source, memory, Whole(wr))[a]
  {
    MoveAllKeys(way, source, memory, ps);
    if Covers(way, wr, a) {
      ByteInside(c, wr, way, source, memory, ps, a);
    } else {
      ChunksStayInside(c, wr, way, ps, a);
      Untouched(way, source, memory, ps, a);
    }
  }

  lemma ByteInside(c: SQ.Config, wr: SendWr, way: Way, source: nat -> nat, memory: Memory, ps: seq<PhysicalSend>, a: nat)
    requires c.Valid() && Covers(way, wr, a) && a in memory
    requires ChunksOf(c, wr, ps)
    ensures ByteOk(way, source, MoveAll(way, source, memory, ps), wr, a)
  {
    var i := CoveringChunk(c, wr, way, ps, a);
    MovedByte(c, wr, way, source, memory, ps, a, i);
  }

  lemma ChunksStayInside(c: SQ.Config, wr: SendWr, way: Way, ps: seq<PhysicalSend>, a: nat)
    requires c.Valid() && Goes(wr.opcode, way) && !Covers(way, wr, a)
    requires forall j: nat | j < |ps| :: SomeChunk(c, wr, ps[j])
    ensures forall j: nat | j < |ps| :: !Touches(way, ps[j], a)
  {
    forall j: nat | j < |ps|
      ensures !Touches(way, ps[j], a)
    {
      var n: nat :| IsChunk(c, wr, ps[j], n);
      var k: nat :| ps[j] == SP.ChunkOf(c, wr, n, k);
      ByteInChunk(c, wr, way, a, n, k);
    }
  }

  /** The number of the chunk that an address belongs to. */
  ghost function ChunkAt(c: SQ.Config, wr: SendWr, way: Way, a: nat): nat
    requires c.Valid() && Covers(way, wr, a)
  {
    (a - Target(way, Whole(wr))) / c.maxMsgSize
  }

  lemma ChunkAtExists(c: SQ.Config, wr: SendWr, way: Way, a: nat)
    requires c.Valid() && Covers(way, wr, a)
    ensures ChunkAt(c, wr, way, a) < SQ.Chunks(wr.length, c.maxMsgSize)
  {
    var n := ChunkAt(c, wr, way, a);
    QuotientIs(a - Target(way, Whole(wr)), c.maxMsgSize, n);
    SP.ChunkArithmetic(wr.length, c.maxMsgSize, n);
  }

  lemma CoveringChunk(c: SQ.Config, wr: SendWr, way: Way, ps: seq<PhysicalSend>, a: nat) returns (i: nat)
    requires c.Valid() && Covers(way, wr, a)
    requires forall n: nat :: Occurs(c, wr, ps, n)
    ensures i < |ps| && Touches(way, ps[i], a)
  {
    var n := ChunkAt(c, wr, way, a);
    assert Occurs(c, wr, ps, n);
    ChunkAtExists(c, wr, way, a);
    var j: nat :| j < |ps| && IsChunk(c, wr, ps[j], n);
    var k: nat :| ps[j] == SP.ChunkOf(c, wr, n, k);
    ByteInChunk(c, wr, way, a, n, k);
    i := j;
  }

  // ---------------------------------------------------------------- what the posting loop really posted

  /** The data posts of message m, in posting order. */
  ghost function DataPosts(log: seq<Posted<PhysicalSend>>, m: nat): seq<PhysicalSend> {
    if log == [] then []
    else
      var n := |log| - 1;
      DataPosts(log[..n], m) + if log[n].msg == m && log[n].qp.Data? then [log[n].wr] else []
  }

  lemma {:induction false} DataPostsCount(log: seq<Posted<PhysicalSend>>, m: nat)
    requires m !in SP.Notified(log)
    ensures |DataPosts(log, m)| == CountMsg(log, m)
  {
    if log != [] { DataPostsCount(log[..|log| - 1], m); }
  }

  /** A data chunk is never posted after its message's notify. */
  lemma NoDataAfterNotify(c: SQ.Config, s: SQ.SendState, i: nat)
    requires SP.Contents(c, s) && i < |s.log| && s.log[i].qp.Data?
    ensures s.log[i].msg !in SP.Notified(s.log[..i])
  {
    var m := s.log[i].msg;
    SP.NotifiedIn(s.log[..i], m);
    assert SP.ContentOk(c, s, i);
    forall j: nat | j < i && s.log[j].msg == m
      ensures s.log[j].qp.Data?
    {
      assert SP.ContentOk(c, s, j);
      CountMsgAppend(s.log[..j], s.log[j], m);
      assert s.log[..j] + [s.log[j]] == s.log[..i][..j + 1];
      CountMsgPrefix(s.log[..i], j + 1, m);
    }
  }

  lemma {:induction false} DataPostsAre(c: SQ.Config, s: SQ.SendState, m: nat, upTo: nat)
    requires SP.Contents(c, s) && m < |s.msgs| && upTo <= |s.log|
    ensures forall n: nat | n < |DataPosts(s.log[..upTo], m)| :: IsChunk(c, s.msgs[m], DataPosts(s.log[..upTo], m)[n], n)
    decreases upTo
  {
    if upTo > 0 {
      var i := upTo - 1;
      assert s.log[..upTo][..i] == s.log[..i];
      DataPostsAre(c, s, m, i);
      if s.log[i].msg == m && s.log[i].qp.Data? {
        NoDataAfterNotify(c, s, i);
        DataPostsCount(s.log[..i], m);
        assert SP.ContentOk(c, s, i);
      }
    }
  }

  lemma {:induction false} DataPostsFull(log: seq<Posted<PhysicalSend>>, m: nat, k: int)
    requires CountMsg(log, m) == k + if m in SP.Notified(log) then 1 else 0
    requires forall i: nat, j: nat | i < |log| && j < |log| && log[i].msg == m && log[j].msg == m
               && log[i].qp.Notify? && log[j].qp.Notify? :: i == j
    ensures |DataPosts(log, m)| == k
  {
    if m !in SP.Notified(log) {
      DataPostsCount(log, m);
    } else {
      var n := |log| - 1;
      SP.NotifiedIn(log, m);
      SP.NotifiedIn(log[..n], m);
      assert forall i: nat | i < n :: log[..n][i] == log[i];
      if log[n].msg == m && log[n].qp.Notify? {
        DataPostsCount(log[..n], m);
      } else {
        DataPostsFull(log[..n], m, if log[n].msg == m then k - 1 else k);
      }
    }
  }

  /**
   * The chunks the posting loop made of a message, once it has left the pending queue, are exactly its
   * ceil(length / maxMsgSize) chunks, each posted once, in offset order.
   */
  lemma PostedChunksExactly(c: SQ.Config, s: SQ.SendState, m: nat)
    requires SP.Contents(c, s) && SP.Posting(c, s) && m < SP.HandedOver(s)
    ensures var ps := DataPosts(s.log, m);
            && |ps| == SQ.Chunks(s.msgs[m].length, c.maxMsgSize)
            && (forall n: nat | n < |ps| :: IsChunk(c, s.msgs[m], ps[n], n))
  {
    assert s.log[..|s.log|] == s.log;
    DataPostsAre(c, s, m, |s.log|);
    assert SP.HandedOverOk(c, s, m);
    forall i: nat, j: nat | i < |s.log| && j < |s.log| && s.log[i].msg == m && s.log[j].msg == m
               && s.log[i].qp.Notify? && s.log[j].qp.Notify?
      ensures i == j
    {
      SP.NotifiedOnce(c, s, i, j);
    }
    DataPostsFull(s.log, m, SQ.Chunks(s.msgs[m].length, c.maxMsgSize));
  }
}
