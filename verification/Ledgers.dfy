/**
 * The bookkeeping shared by sends and receives: every user message has one virtual completion, every post
 * belongs to one message, and a virtual completion is what its completed posts add up to.
 */
module Ledgers {
  import opened Verbs
  import opened CompletionQueue

  datatype Completion = Completion(msg: nat, wc: PhysicalWc)

  /** The physical completions of message m, in the order they arrived. */
  ghost function Absorbed(comps: seq<Completion>, m: nat): seq<PhysicalWc> {
    if comps == [] then []
    else
      var n := |comps| - 1;
      Absorbed(comps[..n], m) + if comps[n].msg == m then [comps[n].wc] else []
  }

  /**
   * `initial` and `wcs` hold one virtual completion per message, as first queued and as it is now; the
   * first `out` of them have been returned to the user.
   */
  datatype Ledger<W> = Ledger(initial: seq<VirtualWc>, wcs: seq<VirtualWc>, out: nat,
                              log: seq<Posted<W>>, done: set<nat>, comps: seq<Completion>)

  ghost predicate Balanced<W>(l: Ledger<W>, k: nat)
    requires k < |l.initial| && k < |l.wcs|
  {
    && l.initial[k].status == Success && l.initial[k].byteLen == 0
    && l.wcs[k] == FoldAll(l.initial[k], Absorbed(l.comps, k))
    && |Absorbed(l.comps, k)| == CountDone(l.log, l.done, k)
    && CountMsg(l.log, k) <= l.initial[k].remaining
  }

  ghost predicate LedgerInv<W>(l: Ledger<W>) {
    && |l.initial| == |l.wcs| && l.out <= |l.wcs|
    && InOrder(l.log, l.done)
    && (forall k: nat | k < |l.wcs| :: Balanced(l, k))
    && (forall i: nat | i < |l.log| :: l.log[i].msg < |l.wcs|)
    && (forall i: nat | i < |l.comps| :: l.comps[i].msg < |l.wcs|)
    && (forall k: nat | k < l.out :: l.wcs[k].remaining <= 0)
  }

  /** A virtual completion still counts exactly the posts its message has not completed. */
  lemma Remaining<W>(l: Ledger<W>, k: nat)
    requires LedgerInv(l) && k < |l.wcs|
    ensures l.wcs[k].remaining == l.initial[k].remaining - CountDone(l.log, l.done, k)
    ensures l.wcs[k].remaining >= CountMsg(l.log, k) - CountDone(l.log, l.done, k) >= 0
    ensures l.wcs[k].wrId == l.initial[k].wrId && l.wcs[k].extraNotify == l.initial[k].extraNotify
  {
    assert Balanced(l, k);
    FoldMeaning(l.initial[k], Absorbed(l.comps, k));
    CountDoneBound(l.log, l.done, k);
  }

  /** A post in flight belongs to a message whose completion has not been returned. */
  lemma InFlightIsLive<W>(l: Ledger<W>, i: nat)
    requires LedgerInv(l) && i < |l.log| && i !in l.done
    ensures l.out <= l.log[i].msg < |l.wcs| && l.wcs[l.log[i].msg].remaining >= 1
  {
    Remaining(l, l.log[i].msg);
    CountDoneBound(l.log, l.done, l.log[i].msg);
  }

  lemma LedgerPost<W>(l: Ledger<W>, e: Posted<W>)
    requires LedgerInv(l) && e.msg < |l.wcs| && CountMsg(l.log, e.msg) < l.initial[e.msg].remaining
    ensures LedgerInv(l.(log := l.log + [e]))
  {
    var l' := l.(log := l.log + [e]);
    assert |l.log| !in l.done;
    forall k: nat | k < |l'.wcs|
      ensures Balanced(l', k)
    {
      assert Balanced(l, k);
      CountMsgAppend(l.log, e, k);
      CountDoneAppend(l.log, l.done, e, k);
    }
  }

  lemma AbsorbedAppend(comps: seq<Completion>, x: Completion, k: nat)
    ensures Absorbed(comps + [x], k) == Absorbed(comps, k) + if x.msg == k then [x.wc] else []
  {
    assert (comps + [x])[..|comps|] == comps;
  }

  lemma FoldAppend(v: VirtualWc, ps: seq<PhysicalWc>, p: PhysicalWc)
    ensures FoldAll(v, ps + [p]) == Absorb(FoldAll(v, ps), p)
  {
    assert (ps + [p])[..|ps|] == ps;
  }

  lemma LedgerComplete<W>(l: Ledger<W>, i: nat, p: PhysicalWc)
    requires LedgerInv(l) && Oldest(l.log, l.done, i)
    ensures l.log[i].msg < |l.wcs|
    ensures var m := l.log[i].msg;
            LedgerInv(l.(done := l.done + {i}, comps := l.comps + [Completion(m, p)],
                         wcs := l.wcs[m := Absorb(l.wcs[m], p)]))
  {
    var m := l.log[i].msg;
    InFlightIsLive(l, i);
    var l' := l.(done := l.done + {i}, comps := l.comps + [Completion(m, p)], wcs := l.wcs[m := Absorb(l.wcs[m], p)]);
    forall k: nat | k < |l'.wcs|
      ensures Balanced(l', k)
    {
      assert Balanced(l, k);
      AbsorbedAppend(l.comps, Completion(m, p), k);
      CountDoneComplete(l.log, l.done, i, k);
      if k == m {
        FoldAppend(l.initial[k], Absorbed(l.comps, k), p);
      } else {
        assert Absorbed(l'.comps, k) == Absorbed(l.comps, k);
      }
    }
    assert InOrder(l'.log, l'.done);
  }

  lemma {:induction false} AbsorbedAbsent(comps: seq<Completion>, m: nat)
    requires forall i | 0 <= i < |comps| :: comps[i].msg != m
    ensures Absorbed(comps, m) == []
  {
    if comps != [] {
      AbsorbedAbsent(comps[..|comps| - 1], m);
    }
  }

  lemma LedgerNew<W>(l: Ledger<W>, f: VirtualWc)
    requires LedgerInv(l) && f.status == Success && f.byteLen == 0 && f.remaining >= 0
    ensures LedgerInv(l.(initial := l.initial + [f], wcs := l.wcs + [f]))
  {
    var l' := l.(initial := l.initial + [f], wcs := l.wcs + [f]);
    forall k: nat | k < |l'.wcs|
      ensures Balanced(l', k)
    {
      if k < |l.wcs| {
        assert Balanced(l, k);
      } else {
        AbsorbedAbsent(l.comps, k);
        CountMsgAbsent(l.log, k);
        CountDoneBound(l.log, l.done, k);
      }
    }
  }

  lemma LedgerOut<W>(l: Ledger<W>, out: nat)
    requires LedgerInv(l) && l.out <= out <= |l.wcs|
    requires forall k: nat | l.out <= k < out :: l.wcs[k].remaining <= 0
    ensures LedgerInv(l.(out := out))
  {
    var l' := l.(out := out);
    forall k: nat | k < |l'.wcs|
      ensures Balanced(l', k)
    {
      assert Balanced(l, k);
    }
  }
}
