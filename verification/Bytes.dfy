/** What a run does to memory: the bytes of a message, once its posts have landed or completed. */
module Bytes {
  import opened Verbs
  import opened CompletionQueue
  import opened Ledgers
  import opened Endpoints
  import opened Progress
  import opened Links
  import opened Splitting
  import Delivery
  import SQ = SendQueue
  import SP = SendProtocol

  /** The requests of these posts, in this order. */
  ghost function Requests(log: seq<Posted<PhysicalSend>>, order: seq<nat>): seq<PhysicalSend>
    requires forall b | 0 <= b < |order| :: order[b] < |log|
  {
    seq(|order|, b requires 0 <= b < |order| => log[order[b]].wr)
  }

  /** All chunks of message m have been posted and are among these posts. */
  ghost predicate AllAmong(s: SQ.SendState, m: nat, order: seq<nat>) {
    && m < SP.HandedOver(s)
    && forall i: nat | i < |s.log| && s.log[i].msg == m && s.log[i].qp.Data? :: i in order
  }

  /** Of these posts, none of another message moves a byte to `a`. */
  ghost predicate OnlyMessage(s: SQ.SendState, m: nat, way: Way, order: seq<nat>, a: nat) {
    forall i: nat | i in order && i < |s.log| && s.log[i].msg != m :: !Touches(way, s.log[i].wr, a)
  }

  lemma {:induction false} PostOfChunk(log: seq<Posted<PhysicalSend>>, m: nat, q: nat) returns (i: nat)
    requires q < |DataPosts(log, m)|
    ensures i < |log| && log[i].msg == m && log[i].qp.Data? && log[i].wr == DataPosts(log, m)[q]
  {
    var n := |log| - 1;
    if q < |DataPosts(log[..n], m)| { i := PostOfChunk(log[..n], m, q); } else { i := n; }
  }

  /** The post that moves the byte to `a` is among the posts. */
  lemma ChunkAmong(c: SQ.Config, s: SQ.SendState, m: nat, way: Way, order: seq<nat>, a: nat) returns (b: nat)
    requires SP.Contents(c, s) && SP.Posting(c, s) && AllAmong(s, m, order) && Splitting.Covers(way, s.msgs[m], a)
    ensures b < |order| && order[b] < |s.log| && Touches(way, s.log[order[b]].wr, a)
  {
    var wr := s.msgs[m];
    PostedChunksExactly(c, s, m);
    ChunkAtExists(c, wr, way, a);
    var q := ChunkAt(c, wr, way, a);
    var i := PostOfChunk(s.log, m, q);
    assert IsChunk(c, wr, s.log[i].wr, q);
    var k: nat :| s.log[i].wr == SP.ChunkOf(c, wr, q, k);
    ByteInChunk(c, wr, way, a, q, k);
    var j :| 0 <= j < |order| && order[j] == i;
    b := j;
  }

  lemma PostOfMessage(c: SQ.Config, s: SQ.SendState, m: nat, way: Way, i: nat, a: nat)
    requires SP.Contents(c, s) && i < |s.log| && s.log[i].msg == m && Touches(way, s.log[i].wr, a)
    ensures m < |s.msgs| && SomeChunk(c, s.msgs[m], s.log[i].wr)
  {
    assert SP.ContentOk(c, s, i);
    assert IsChunk(c, s.msgs[m], s.log[i].wr, CountMsg(s.log[..i], m));
  }

  /** Whatever the order of the posts, the message's bytes are right once all its chunks are among them. */
  lemma BytesOfMessage(c: SQ.Config, s: SQ.SendState, m: nat, way: Way, order: seq<nat>, source: nat -> nat, memory: Memory, a: nat)
    requires SP.Contents(c, s) && SP.Posting(c, s) && (forall b | 0 <= b < |order| :: order[b] < |s.log|)
    requires AllAmong(s, m, order) && Splitting.Covers(way, s.msgs[m], a) && a in memory && OnlyMessage(s, m, way, order, a)
    ensures ByteOk(way, source, MoveAll(way, source, memory, Requests(s.log, order)), s.msgs[m], a)
  {
    var ps := Requests(s.log, order);
    var b := ChunkAmong(c, s, m, way, order, a);
    forall j: nat | j < |ps| && Touches(way, ps[j], a)
      ensures SomeChunk(c, s.msgs[m], ps[j])
    {
      assert order[j] in order;
      PostOfMessage(c, s, m, way, order[j], a);
    }
    MovedByte(c, s.msgs[m], way, source, memory, ps, a, b);
  }

  /** A virtual send that counts nothing any more has had all its posts completed. */
  lemma FinishedIsDone(e: Endpoint, h: History, m: nat)
    requires Inv(e, h) && m < |SendWcs(e.cq)| && SendWcs(e.cq)[m].remaining == 0
    ensures m < SP.HandedOver(e.send) && AllDone(e.send, h.sendDone, m)
  {
    var l := SP.SendLedger(e.c, e.send, SendWcs(e.cq), |e.cq.sendsOut|, h.sendDone, h.sendComps);
    Remaining(l, m);
    CountDoneBound(e.send.log, h.sendDone, m);
    PendingHasLeft(e.c, e.send, m);
  }

  /**
   * When all posts of a write have landed, its bytes are in the peer's memory, whatever the order in which they
   * and other messages' posts landed, wherever no other message writes.
   */
  lemma WrittenBytes(run: seq<Link>, n: nat, m: nat, local: nat -> nat, remote: Memory, a: nat)
    requires IsRun(run) && n < |run| && AllAmong(run[n].x.e.send, m, run[n].x.landed)
    requires var x := run[n].x; Splitting.Covers(Outward, x.e.send.msgs[m], a) && a in remote && OnlyMessage(x.e.send, m, Outward, x.landed, a)
    ensures var x := run[n].x;
            && (forall b | 0 <= b < |x.landed| :: x.landed[b] < |x.e.send.log|)
            && ByteOk(Outward, local, MoveAll(Outward, local, remote, Requests(x.e.send.log, x.landed)), x.e.send.msgs[m], a)
  {
    RunInv(run, n);
    LandedInLog(run[n].x);
    BytesOfMessage(run[n].x.e.c, run[n].x.e.send, m, Outward, run[n].x.landed, local, remote, a);
  }

  lemma LandedInLog(x: Side)
    requires LandedOk(x)
    ensures forall b | 0 <= b < |x.landed| :: x.landed[b] < |x.e.send.log|
  {
    assert forall b | 0 <= b < |x.landed| :: x.landed[b] in Landed(x);
  }

  /**
   * When a write has finished at the sender, all its chunks have landed, and its bytes are in the peer's memory,
   * if and only if none was lost; and none was if its completion shows no error. Where failed posts never land
   * this is to say that none failed.
   */
  lemma FinishedWriteLandedIff(run: seq<Link>, n: nat, m: nat)
    requires IsRun(run) && n < |run| && m < |SendWcs(run[n].x.e.cq)| && SendWcs(run[n].x.e.cq)[m].remaining == 0
    ensures AllAmong(run[n].x.e.send, m, run[n].x.landed) <==> !Delivery.LosesData(run[n].x, m)
    ensures SendWcs(run[n].x.e.cq)[m].status == Success ==> !Delivery.LosesData(run[n].x, m)
    ensures (forall i | i in run[n].x.failed :: i !in run[n].x.landed) ==>
      (AllAmong(run[n].x.e.send, m, run[n].x.landed) <==> !Delivery.FailsData(run[n].x, m))
  {
    RunInv(run, n);
    var x := run[n].x;
    FinishedIsDone(x.e, x.h, m);
    forall i: nat | i < |x.e.send.log| && x.e.send.log[i].msg == m ensures i in x.landed || i in x.failed {
      assert i in Landed(x) + x.failed;
    }
    if Delivery.LosesData(x, m) { assert Fails(x, m); }
  }

  /**
   * `order` lists the reads that have moved their bytes, in that order: all that completed with success, and
   * any others whose bytes came back.
   */
  ghost predicate Moved(x: Side, order: seq<nat>) {
    && (forall b | 0 <= b < |order| :: order[b] < |x.e.send.log|)
    && forall i | i in x.h.sendDone && i !in x.failed :: i in order
  }

  /**
   * When a read has finished at the sender without an error, its bytes are in the sender's memory, whatever the
   * order in which reads took effect, wherever no other read puts a byte.
   */
  lemma ReadBytes(run: seq<Link>, n: nat, m: nat, order: seq<nat>, remote: nat -> nat, local: Memory, a: nat)
    requires IsRun(run) && n < |run| && m < |SendWcs(run[n].x.e.cq)| && SendWcs(run[n].x.e.cq)[m].remaining == 0
    requires SendWcs(run[n].x.e.cq)[m].status == Success && Moved(run[n].x, order)
    requires m < |run[n].x.e.send.msgs| && Splitting.Covers(Inward, run[n].x.e.send.msgs[m], a)
    requires a in local && OnlyMessage(run[n].x.e.send, m, Inward, order, a)
    ensures var x := run[n].x;
            && (forall b | 0 <= b < |order| :: order[b] < |x.e.send.log|)
            && ByteOk(Inward, remote, MoveAll(Inward, remote, local, Requests(x.e.send.log, order)), x.e.send.msgs[m], a)
  {
    FinishedReadMovedIff(run, n, m, order);
    RunInv(run, n);
    BytesOfMessage(run[n].x.e.c, run[n].x.e.send, m, Inward, order, remote, local, a);
  }

  /** Where failed reads move nothing, a finished read has moved all its chunks exactly if none failed. */
  lemma FinishedReadMovedIff(run: seq<Link>, n: nat, m: nat, order: seq<nat>)
    requires IsRun(run) && n < |run| && m < |SendWcs(run[n].x.e.cq)| && SendWcs(run[n].x.e.cq)[m].remaining == 0
    requires Moved(run[n].x, order)
    ensures SendWcs(run[n].x.e.cq)[m].status == Success ==> AllAmong(run[n].x.e.send, m, order)
    ensures (forall i | i in order :: i !in run[n].x.failed) ==>
      (AllAmong(run[n].x.e.send, m, order) <==> !Delivery.FailsData(run[n].x, m))
  {
    RunInv(run, n);
    var x := run[n].x;
    FinishedIsDone(x.e, x.h, m);
    forall i: nat | i < |x.e.send.log| && x.e.send.log[i].msg == m && x.e.send.log[i].qp.Data? && i !in x.failed
      ensures i in order
    {
      assert i in x.h.sendDone;
    }
    if Delivery.FailsData(x, m) { assert Fails(x, m); }
  }
}
