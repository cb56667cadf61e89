/**
 * The DQPLB sequence tracker: 24-bit wrapped sequence numbers with a "last chunk" bit, and the stream of
 * unbounded numbers that the wrapped form stands for.
 */
module SeqTracker {

  const SEQ_NUM_MASK: nat := 0xFFFFFF
  const NOTIFY_BIT: nat := 0x8000_0000

  /** `sequence | (1 << 31)`: the bit lies above every 24-bit number, so setting it adds it. */
  function EncodeImm(sequence: nat, last: bool): nat {
    sequence + if last then NOTIFY_BIT else 0
  }

  /** `imm & kSeqNumMask` keeps the low 24 bits. */
  function ImmSequence(imm: nat): nat { imm % (SEQ_NUM_MASK + 1) }

  /** `imm & (1 << 31)` */
  function ImmLast(imm: nat): bool { imm / NOTIFY_BIT % 2 == 1 }

  lemma ImmRoundTrip(sequence: nat, last: bool)
    requires sequence < SEQ_NUM_MASK
    ensures ImmSequence(EncodeImm(sequence, last)) == sequence
    ensures ImmLast(EncodeImm(sequence, last)) == last
  {
    if last {
      assert EncodeImm(sequence, last) == sequence + 128 * (SEQ_NUM_MASK + 1);
    }
  }

  /** The number is what the low 24 bits hold, and the bit is the top one of 32. */
  lemma ImmParts(imm: nat)
    requires imm < 0x1_0000_0000
    ensures ImmSequence(imm) < 0x100_0000 && (imm - ImmSequence(imm)) % 0x100_0000 == 0
    ensures ImmLast(imm) <==> imm >= 0x8000_0000
  {
  }

  /** The receiver's half of the tracker: the next number to deliver and the numbers parked ahead of it. */
  datatype Receiver = Receiver(next: nat, parked: map<nat, bool>)

  /** A stream number as the wire carries it. */
  function Residue(k: nat): nat { k % SEQ_NUM_MASK }

  function Advance(next: nat, wraps: bool): nat {
    if wraps then Residue(next + 1) else next + 1
  }

  /** One pass of the delivery loop body. */
  function DeliverNext(r: Receiver, wraps: bool): Receiver {
    Receiver(Advance(r.next, wraps), r.parked - {r.next})
  }

  /** The delivery loop, on wrapped numbers or on numbers that never wrap. */
  function Drain(r: Receiver, wraps: bool): (Receiver, nat)
    decreases r.parked.Keys
  {
    if r.next !in r.parked then (r, 0)
    else
      var (end, count) := Drain(DeliverNext(r, wraps), wraps);
      (end, count + if r.parked[r.next] then 1 else 0)
  }

  /** processReceivedImm on wrapped numbers. */
  function Receive(r: Receiver, imm: nat): (Receiver, nat) {
    Drain(r.(parked := r.parked[ImmSequence(imm) := ImmLast(imm)]), true)
  }

  /** The same on unbounded numbers. */
  function ReceiveUnbounded(r: Receiver, k: nat, last: bool): (Receiver, nat) {
    Drain(r.(parked := r.parked[k := last]), false)
  }

  lemma {:induction false} DrainTakesOut(r: Receiver, wraps: bool)
    ensures var end := Drain(r, wraps).0;
            end.parked.Keys <= r.parked.Keys && (r.next in r.parked ==> r.next !in end.parked)
    decreases r.parked.Keys
  {
    if r.next in r.parked { DrainTakesOut(DeliverNext(r, wraps), wraps); }
  }

  /** A number is only set aside, and nothing is reported, if and only if it is not the next one. */
  lemma ParkedIff(r: Receiver, imm: nat)
    requires r.next !in r.parked
    ensures Receive(r, imm) == (r.(parked := r.parked[ImmSequence(imm) := ImmLast(imm)]), 0) <==> ImmSequence(imm) != r.next
  {
    DrainTakesOut(r.(parked := r.parked[ImmSequence(imm) := ImmLast(imm)]), true);
  }

  // ---------------------------------------------------------------- wrapped refines unbounded

  /** Every parked number lies less than one modulus past the next one to deliver. */
  ghost predicate InWindow(u: Receiver) {
    forall k | k in u.parked :: u.next <= k < u.next + SEQ_NUM_MASK
  }

  /** `w` is `u` with every number reduced. */
  ghost predicate Wraps(w: Receiver, u: Receiver) {
    && w.next == Residue(u.next)
    && (forall k | k in u.parked :: Residue(k) in w.parked && w.parked[Residue(k)] == u.parked[k])
    && (forall j | j in w.parked :: exists k :: k in u.parked && Residue(k) == j)
  }

  lemma ResidueInjective(a: nat, b: nat)
    requires Residue(a) == Residue(b) && a <= b < a + SEQ_NUM_MASK
    ensures a == b
  {
  }

  lemma WindowInjective(u: Receiver, a: nat, b: nat)
    requires u.next <= a < u.next + SEQ_NUM_MASK && u.next <= b < u.next + SEQ_NUM_MASK
    requires Residue(a) == Residue(b)
    ensures a == b
  {
    if a <= b { ResidueInjective(a, b); } else { ResidueInjective(b, a); }
  }

  lemma ResidueSuccessor(k: nat)
    ensures Residue(Residue(k) + 1) == Residue(k + 1)
  {
  }

  lemma DeliverNextWraps(w: Receiver, u: Receiver)
    requires InWindow(u) && Wraps(w, u) && u.next in u.parked
    ensures InWindow(DeliverNext(u, false)) && Wraps(DeliverNext(w, true), DeliverNext(u, false))
  {
    var w1, u1 := DeliverNext(w, true), DeliverNext(u, false);
    ResidueSuccessor(u.next);
    assert w1.next == Residue(u1.next);
    forall k | k in u1.parked
      ensures Residue(k) in w1.parked && w1.parked[Residue(k)] == u1.parked[k]
    {
      if Residue(k) == w.next { WindowInjective(u, k, u.next); }
    }
    forall j | j in w1.parked
      ensures exists k :: k in u1.parked && Residue(k) == j
    {
      var k :| k in u.parked && Residue(k) == j;
      assert k != u.next;
      assert k in u1.parked;
    }
    assert InWindow(u1);
  }

  lemma {:induction false} DrainWraps(w: Receiver, u: Receiver)
    requires InWindow(u) && Wraps(w, u)
    ensures var (w', cw) := Drain(w, true);
            var (u', cu) := Drain(u, false);
            cw == cu && InWindow(u') && Wraps(w', u')
    decreases u.parked.Keys
  {
    if u.next in u.parked {
      DeliverNextWraps(w, u);
      DrainWraps(DeliverNext(w, true), DeliverNext(u, false));
    } else if w.next in w.parked {
      var k :| k in u.parked && Residue(k) == w.next;
      WindowInjective(u, k, u.next);
    }
  }

  /**
   * While every number in flight is less than one modulus past the oldest undelivered one, a received
   * immediate moves the wrapped tracker exactly as its unbounded number moves the unbounded one, and
   * reports the same number of finished messages.
   */
  lemma WrappedRefinesUnbounded(w: Receiver, u: Receiver, k: nat, last: bool)
    requires InWindow(u) && Wraps(w, u)
    requires k !in u.parked && u.next <= k < u.next + SEQ_NUM_MASK
    ensures var (w', cw) := Receive(w, EncodeImm(Residue(k), last));
            var (u', cu) := ReceiveUnbounded(u, k, last);
            cw == cu && InWindow(u') && Wraps(w', u')
  {
    var j := Residue(k);
    ImmRoundTrip(j, last);
    var w1 := w.(parked := w.parked[j := last]);
    var u1 := u.(parked := u.parked[k := last]);
    forall i | i in u1.parked
      ensures Residue(i) in w1.parked && w1.parked[Residue(i)] == u1.parked[i]
    {
      if Residue(i) == j { WindowInjective(u, i, k); }
    }
    forall i | i in w1.parked
      ensures exists a :: a in u1.parked && Residue(a) == i
    {
      if i == j {
        assert k in u1.parked;
      } else {
        var a :| a in u.parked && Residue(a) == i;
        assert a in u1.parked;
      }
    }
    DrainWraps(w1, u1);
  }

  // ---------------------------------------------------------------- unbounded is "longest contiguous prefix"

  ghost function Lasts(bits: seq<bool>): nat {
    if bits == [] then 0 else Lasts(bits[..|bits| - 1]) + if bits[|bits| - 1] then 1 else 0
  }

  lemma {:induction false} LastsMonotone(bits: seq<bool>, i: nat, j: nat)
    requires i <= j <= |bits|
    ensures Lasts(bits[..i]) <= Lasts(bits[..j])
    decreases j
  {
    if i < j {
      assert bits[..j][..j - 1] == bits[..j - 1];
      LastsMonotone(bits, i, j - 1);
    }
  }

  /** `u` holds exactly the numbers in `received`: all below `next`, the rest parked with their bits, `next` not among them. */
  ghost predicate Holds(u: Receiver, received: set<nat>, bits: seq<bool>) {
    && u.next !in received
    && (forall k: nat | k < u.next :: k in received)
    && (forall k: nat :: k in u.parked <==> k in received && u.next < k)
    && (forall k | k in received :: k < |bits|)
    && (forall k | k in u.parked :: k < |bits| && u.parked[k] == bits[k])
  }

  lemma {:induction false} DrainHolds(u: Receiver, received: set<nat>, bits: seq<bool>)
    requires u.next in received ==> u.next in u.parked
    requires forall k: nat | k < u.next :: k in received
    requires forall k: nat :: k in u.parked <==> k in received && u.next <= k
    requires forall k | k in received :: k < |bits|
    requires forall k | k in u.parked :: k < |bits| && u.parked[k] == bits[k]
    ensures var (u', count) := Drain(u, false);
            Holds(u', received, bits) && u.next <= u'.next <= |bits|
            && Lasts(bits[..u.next]) + count == Lasts(bits[..u'.next])
    decreases u.parked.Keys
  {
    if u.next > 0 { assert u.next - 1 in received; }
    if u.next in u.parked {
      DrainHolds(DeliverNext(u, false), received, bits);
      assert bits[..u.next + 1][..u.next] == bits[..u.next];
    }
  }

  /**
   * The unbounded tracker delivers exactly the longest contiguous prefix of what was received, and reports
   * each "last chunk" bit when, and only when, the prefix passes it.
   */
  lemma DeliversLongestPrefix(u: Receiver, received: set<nat>, bits: seq<bool>, k: nat)
    requires Holds(u, received, bits)
    requires k !in received && k < |bits|
    ensures var (u', count) := ReceiveUnbounded(u, k, bits[k]);
            Holds(u', received + {k}, bits) && u.next <= u'.next <= |bits|
            && Lasts(bits[..u.next]) + count == Lasts(bits[..u'.next])
  {
    DrainHolds(u.(parked := u.parked[k := bits[k]]), received + {k}, bits);
  }

  /** The tracker as the virtual QP uses it. */
  class DqplbSeqTracker {
    var sendNext: nat
    var receiveNext: nat
    var receivedSeqNums: map<nat, bool>

    ghost function View(): Receiver reads this { Receiver(receiveNext, receivedSeqNums) }

    constructor ()
      ensures sendNext == 0 && View() == Receiver(0, map[])
    {
      sendNext, receiveNext, receivedSeqNums := 0, 0, map[];
    }

    method GetSendImm(remainingMsgCnt: int) returns (immData: nat)
      modifies this`sendNext
      ensures immData == EncodeImm(old(sendNext), remainingMsgCnt == 1) == old(sendNext) + if remainingMsgCnt == 1 then 0x8000_0000 else 0
      ensures sendNext == (old(sendNext) + 1) % 0xFF_FFFF
    {
      immData := sendNext;
      sendNext := (sendNext + 1) % SEQ_NUM_MASK;
      if remainingMsgCnt == 1 {
        immData := immData + NOTIFY_BIT;
      }
    }

    method ProcessReceivedImm(immData: nat) returns (notifyCount: nat)
      modifies this`receiveNext, this`receivedSeqNums
      ensures (View(), notifyCount) == Receive(old(View()), immData)
    {
      notifyCount := 0;
      receivedSeqNums := receivedSeqNums[ImmSequence(immData) := ImmLast(immData)];
      ghost var start := View();
      while receiveNext in receivedSeqNums
        invariant var (end, count) := Drain(View(), true);
                  Drain(start, true) == (end, notifyCount + count)
        decreases receivedSeqNums.Keys
      {
        if receivedSeqNums[receiveNext] {
          notifyCount := notifyCount + 1;
        }
        receivedSeqNums := receivedSeqNums - {receiveNext};
        receiveNext := (receiveNext + 1) % SEQ_NUM_MASK;
      }
    }
  }
}
