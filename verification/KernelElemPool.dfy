/** The pool of kernel elements: a free stack, an in-use list, and chains of elements handed to a kernel. */
module KernelElemPool {
  import opened Verbs

  /**
   * The status functions abort beyond this. An element holds maxThreadBlocks statuses, a number whose
   * definition is not part of this model; only that it is below MAX_NGROUPS matters.
   */
  const MAX_NGROUPS: nat := 128

  datatype ElemStatus = RESET | INUSE | POSTED | REVOKED | DONE

  class KernelElem {
    var ngroups: int
    const status: array<ElemStatus>
    var next: KernelElem?

    /** Where the group checks of the status functions do not abort the program. */
    predicate HasGroups() reads this { 0 < ngroups <= status.Length && ngroups < MAX_NGROUPS }

    ghost predicate AllAre(s: ElemStatus)
      requires HasGroups()
      reads this, status
    {
      forall i | 0 <= i < ngroups :: status[i] == s
    }

    /** As the pool hands it out of its reset: no next element and nothing set. */
    ghost predicate Fresh()
      reads this, status
    {
      next == null && forall i | 0 <= i < status.Length :: status[i] == RESET
    }

    constructor (maxThreadBlocks: nat)
      ensures fresh(status) && status.Length == maxThreadBlocks && Fresh()
    {
      ngroups, next := 0, null;
      status := new ElemStatus[maxThreadBlocks](i => RESET);
    }

    /** resetWorkElem */
    method Reset()
      modifies this, status
      ensures Fresh()
    {
      ngroups, next := 0, null;
      for i := 0 to status.Length
        invariant next == null && forall j | 0 <= j < i :: status[j] == RESET
      {
        status[i] := RESET;
      }
    }

    method SetStatus(s: ElemStatus)
      requires HasGroups()
      modifies status
      ensures AllAre(s) && forall i | ngroups <= i < status.Length :: status[i] == old(status[i])
    {
      for i := 0 to ngroups
        invariant forall j | 0 <= j < i :: status[j] == s
        invariant forall j | i <= j < status.Length :: status[j] == old(status[j])
      {
        status[i] := s;
      }
    }

    /** How pop sets up an element; it does not check the number of groups from below. */
    method Use(ngroups: int)
      requires ngroups <= status.Length
      modifies this, status
      ensures ReadyFor(this, ngroups) && next == old(next)
    {
      this.ngroups := ngroups;
      var i := 0;
      while i < ngroups
        invariant 0 <= i <= status.Length && (i == 0 || i <= ngroups)
        invariant ngroups == this.ngroups && next == old(next) && forall j | 0 <= j < i :: status[j] == INUSE
      {
        status[i] := INUSE;
        i := i + 1;
      }
    }

    /** Frees the element unless a group was revoked: that group's kernel frees it. */
    method Free()
      requires HasGroups()
      modifies status
      ensures if exists i :: 0 <= i < ngroups && old(status[i]) == REVOKED then status[..] == old(status[..]) else AllAre(RESET)
      ensures forall i | ngroups <= i < status.Length :: status[i] == old(status[i])
    {
      var canFree := true;
      var i := 0;
      while i < ngroups && canFree
        invariant 0 <= i <= ngroups
        invariant canFree <==> forall j | 0 <= j < i :: status[j] != REVOKED
        invariant !canFree ==> i > 0 && status[i - 1] == REVOKED
      {
        canFree := status[i] != REVOKED;
        i := i + 1;
      }
      if canFree {
        SetStatus(RESET);
      }
    }

    /** isFree: all groups are reset */
    method IsFree() returns (allFree: bool)
      requires HasGroups()
      ensures allFree <==> AllAre(RESET)
    {
      allFree := true;
      var i := 0;
      while i < ngroups && allFree
        invariant 0 <= i <= ngroups
        invariant allFree <==> forall j | 0 <= j < i :: status[j] == RESET
      {
        allFree := status[i] == RESET;
        i := i + 1;
      }
    }
  }

  // ---------------------------------------------------------------- lists of elements

  ghost predicate NoDuplicates(es: seq<KernelElem>) { forall e | e in es :: multiset(es)[e] == 1 }

  lemma Rearranged(es: seq<KernelElem>, fs: seq<KernelElem>)
    requires NoDuplicates(es) && multiset(es) == multiset(fs)
    ensures NoDuplicates(fs) && |fs| == |es| && forall e :: e in fs <==> e in es
  {
    assert |multiset(es)| == |es| && |multiset(fs)| == |fs|;
    forall e ensures e in fs <==> e in es { assert e in multiset(es) <==> e in es; assert e in multiset(fs) <==> e in fs; }
  }

  lemma Added(es: seq<KernelElem>, e: KernelElem)
    requires NoDuplicates(es) && e !in es
    ensures NoDuplicates(es + [e])
  {
    assert multiset(es + [e]) == multiset(es) + multiset{e};
    assert multiset(es)[e] == 0;
  }

  lemma Distinct(es: seq<KernelElem>, i: nat, j: nat)
    requires NoDuplicates(es) && i < j < |es|
    ensures es[i] != es[j]
  {
    assert es == es[..i] + [es[i]] + es[i + 1..];
    assert es[j] == es[i + 1..][j - i - 1];
    assert multiset(es) == multiset(es[..i]) + multiset{es[i]} + multiset(es[i + 1..]);
    assert es[j] in multiset(es[i + 1..]);
    assert multiset(es)[es[i]] == 1;
  }

  /** The elements whose flag is `want`, in order. */
  ghost function Where(es: seq<KernelElem>, flags: seq<bool>, want: bool): seq<KernelElem>
    requires |es| == |flags|
  {
    if es == [] then []
    else
      var n := |es| - 1;
      Where(es[..n], flags[..n], want) + if flags[n] == want then [es[n]] else []
  }

  /** Sorting out by flag loses and repeats nothing. */
  lemma {:induction false} WhereSplits(es: seq<KernelElem>, flags: seq<bool>)
    requires |es| == |flags|
    ensures multiset(Where(es, flags, true)) + multiset(Where(es, flags, false)) == multiset(es)
  {
    if es != [] {
      var n := |es| - 1;
      WhereSplits(es[..n], flags[..n]);
      assert es == es[..n] + [es[n]];
    }
  }

  lemma {:induction false} WhereAre(es: seq<KernelElem>, flags: seq<bool>, flagged: set<KernelElem>, e: KernelElem)
    requires |es| == |flags| && forall i | 0 <= i < |es| :: flags[i] <==> es[i] in flagged
    ensures e in Where(es, flags, true) <==> e in es && e in flagged
  {
    if es != [] {
      var n := |es| - 1;
      WhereAre(es[..n], flags[..n], flagged, e);
      assert es == es[..n] + [es[n]];
    }
  }

  lemma FirstNoDuplicates(a: seq<KernelElem>, b: seq<KernelElem>)
    requires NoDuplicates(a + b)
    ensures NoDuplicates(a)
  {
    assert multiset(a + b) == multiset(a) + multiset(b);
    forall e | e in a ensures multiset(a)[e] == 1 { assert e in a + b; assert multiset(a + b)[e] == 1; assert e in multiset(a); }
  }

  lemma LastIsNew(es: seq<KernelElem>)
    requires NoDuplicates(es) && es != []
    ensures NoDuplicates(es[..|es| - 1]) && es[|es| - 1] !in es[..|es| - 1]
  {
    var n := |es| - 1;
    assert es == es[..n] + [es[n]];
    FirstNoDuplicates(es[..n], [es[n]]);
    forall i | 0 <= i < n ensures es[..n][i] != es[n] { Distinct(es, i, n); }
  }

  lemma {:induction false} ElementsCounted(es: seq<KernelElem>)
    requires NoDuplicates(es)
    ensures |set e | e in es| == |es|
  {
    var all := set e | e in es;
    if es == [] {
      assert all == {};
    } else {
      var n := |es| - 1;
      LastIsNew(es);
      ElementsCounted(es[..n]);
      assert es == es[..n] + [es[n]];
      assert all == (set e | e in es[..n]) + {es[n]};
    }
  }

  /** Without duplicates, sorting out by flag counts the elements that have it. */
  lemma WhereCounted(es: seq<KernelElem>, flags: seq<bool>, flagged: set<KernelElem>)
    requires |es| == |flags| && NoDuplicates(es) && (forall i | 0 <= i < |es| :: flags[i] <==> es[i] in flagged)
    requires forall e | e in flagged :: e in es
    ensures |Where(es, flags, true)| == |flagged|
  {
    var some := Where(es, flags, true);
    WhereDistinct(es, flags);
    ElementsCounted(some);
    forall e | e in some ensures e in flagged { WhereAre(es, flags, flagged, e); }
    forall e | e in flagged ensures e in some { WhereAre(es, flags, flagged, e); }
    assert (set e | e in some) == flagged;
  }

  lemma RestCounted(es: seq<KernelElem>, flags: seq<bool>, flagged: set<KernelElem>, rest: set<KernelElem>)
    requires |es| == |flags| && NoDuplicates(es) && (forall i | 0 <= i < |es| :: flags[i] <==> es[i] in flagged)
    requires (forall e | e in flagged :: e in es) && forall e :: e in rest <==> e in es && e !in flagged
    ensures |Where(es, flags, false)| == |rest|
  {
    var all := set e | e in es;
    WhereCounted(es, flags, flagged);
    ElementsCounted(es);
    WhereSplits(es, flags);
    assert |multiset(Where(es, flags, true)) + multiset(Where(es, flags, false))| == |es|;
    assert rest == all - flagged;
  }

  /** After sorting out, the elements of the list with the flag are with the free ones, and no others. */
  lemma SortedAre(free: seq<KernelElem>, list: seq<KernelElem>, flags: seq<bool>, flagged: set<KernelElem>)
    requires |list| == |flags| && NoDuplicates(free + list) && forall i | 0 <= i < |list| :: flags[i] <==> list[i] in flagged
    ensures forall e | e in list :: e in free + Where(list, flags, true) <==> e in flagged
  {
    forall e | e in list ensures e in free + Where(list, flags, true) <==> e in flagged {
      WhereAre(list, flags, flagged, e);
      assert multiset(free + list) == multiset(free) + multiset(list);
      assert e in multiset(list) && e in free + list;
    }
  }

  lemma WhereDistinct(es: seq<KernelElem>, flags: seq<bool>)
    requires |es| == |flags| && NoDuplicates(es)
    ensures NoDuplicates(Where(es, flags, true))
  {
    WhereSplits(es, flags);
    var some := Where(es, flags, true);
    forall e | e in some ensures multiset(some)[e] == 1 {
      WhereIn(es, flags, true, e);
      assert e in multiset(some) && multiset(es)[e] == 1;
    }
  }

  lemma WhereStep(es: seq<KernelElem>, flags: seq<bool>, k: nat, want: bool)
    requires |es| == |flags| && k < |es|
    ensures Where(es[..k + 1], flags[..k + 1], want) == Where(es[..k], flags[..k], want) + if flags[k] == want then [es[k]] else []
  {
    assert es[..k + 1][..k] == es[..k] && flags[..k + 1][..k] == flags[..k];
  }

  lemma {:induction false} WhereIn(es: seq<KernelElem>, flags: seq<bool>, want: bool, e: KernelElem)
    requires |es| == |flags| && e in Where(es, flags, want)
    ensures e in es
  {
    var n := |es| - 1;
    if e in Where(es[..n], flags[..n], want) { WhereIn(es[..n], flags[..n], want, e); }
  }

  lemma NotYetTaken(es: seq<KernelElem>, flags: seq<bool>, k: nat, want: bool)
    requires NoDuplicates(es) && |es| == |flags| && k < |es|
    ensures es[k] !in Where(es[..k], flags[..k], want) && es[k] !in es[k + 1..]
  {
    if es[k] in Where(es[..k], flags[..k], want) {
      WhereIn(es[..k], flags[..k], want, es[k]);
      var i :| 0 <= i < k && es[..k][i] == es[k];
      Distinct(es, i, k);
    }
    if es[k] in es[k + 1..] {
      var i :| 0 <= i < |es| - k - 1 && es[k + 1..][i] == es[k];
      Distinct(es, k, k + 1 + i);
    }
  }

  lemma Tail(a: seq<KernelElem>, b: seq<KernelElem>)
    requires NoDuplicates(a + b)
    ensures NoDuplicates(b)
  {
    assert multiset(a + b) == multiset(a) + multiset(b);
    forall e | e in b ensures multiset(b)[e] == 1 { assert e in a + b; assert multiset(a + b)[e] == 1; }
  }

  /** `e` is the first of the elements of `es` linked through next, the last of which ends the list. */
  ghost predicate Chain(head: KernelElem?, es: seq<KernelElem>)
    reads es
  {
    && (es == [] ==> head == null)
    && (es != [] ==> head == es[0] && es[|es| - 1].next == null)
    && forall i | 0 <= i < |es| - 1 :: es[i].next == es[i + 1]
  }

  ghost predicate ReadyFor(e: KernelElem, ngroups: int)
    reads e, e.status
  {
    e.ngroups == ngroups <= e.status.Length && forall i | 0 <= i < ngroups :: e.status[i] == INUSE
  }

  /** Every element is on the free stack or the in-use list, once. */
  ghost predicate Partition(elems: seq<KernelElem>, free: seq<KernelElem>, inuse: seq<KernelElem>) {
    && NoDuplicates(free + inuse) && |free| + |inuse| == |elems|
    && (forall e | e in free + inuse :: e in elems)
    && (forall e | e in elems :: e in free || e in inuse)
  }

  lemma PopPartition(elems: seq<KernelElem>, free: seq<KernelElem>, inuse: seq<KernelElem>)
    requires Partition(elems, free, inuse) && free != []
    ensures var n := |free| - 1;
            && Partition(elems, free[..n], inuse + [free[n]]) && free[n] in elems
            && free[n] !in free[..n] && free[n] !in inuse
  {
    var n := |free| - 1;
    assert free == free[..n] + [free[n]];
    Rearranged(free + inuse, free[..n] + (inuse + [free[n]]));
    assert multiset(free + inuse)[free[n]] == 1 by { assert free[n] in free + inuse; }
    assert multiset(free + inuse) == multiset(free[..n]) + multiset(inuse) + multiset{free[n]};
    forall e | e in elems ensures e in free[..n] || e in inuse + [free[n]] { assert e in free ==> e in free[..n] + [free[n]]; }
  }

  lemma ReclaimPartition(elems: seq<KernelElem>, free: seq<KernelElem>, list: seq<KernelElem>, flags: seq<bool>)
    requires Partition(elems, free, list) && |list| == |flags|
    ensures Partition(elems, free + Where(list, flags, true), Where(list, flags, false))
  {
    var free', inuse' := free + Where(list, flags, true), Where(list, flags, false);
    WhereSplits(list, flags);
    assert multiset(free + list) == multiset(free' + inuse');
    Rearranged(free + list, free' + inuse');
    forall e | e in free' + inuse' ensures e in elems { assert e in free + list; }
    forall e | e in elems ensures e in free' || e in inuse' { assert e in free + list; assert e in free' + inuse'; }
  }

  class KernelElemPool {
    const maxThreadBlocks: nat
    const elems: seq<KernelElem>             // memPtr_
    var freeWorkElems: seq<KernelElem>       // the stack, its top last
    var inuseWorkElems: seq<KernelElem>

    ghost function Footprint(): set<object> {
      (set e: KernelElem | e in elems :: e as object) + (set e: KernelElem | e in elems :: e.status as object)
    }

    ghost predicate Separate() {
      && maxThreadBlocks < MAX_NGROUPS && (forall e | e in elems :: e.status.Length == maxThreadBlocks)
      && forall e, f | e in elems && f in elems && e != f :: e.status != f.status
    }

    ghost predicate Valid()
      reads this, Footprint()
    {
      && Separate() && Partition(elems, freeWorkElems, inuseWorkElems)
      && (forall e | e in elems && e in freeWorkElems :: e.Fresh())
    }

    /** Every element in use was popped for at least one group: then reclaiming does not abort the program. */
    ghost predicate Counted()
      reads this, Footprint()
    {
      forall e | e in elems && e in inuseWorkElems :: e.HasGroups()
    }

    constructor (capacity: nat, maxThreadBlocks: nat)
      requires maxThreadBlocks < MAX_NGROUPS
      ensures Valid() && Counted() && |elems| == capacity && freeWorkElems == elems && inuseWorkElems == []
      ensures this.maxThreadBlocks == maxThreadBlocks && fresh(Footprint())
    {
      var made: seq<KernelElem> := [];
      for i := 0 to capacity
        invariant |made| == i && NoDuplicates(made)
        invariant forall e | e in made :: fresh(e) && fresh(e.status) && e.status.Length == maxThreadBlocks && e.Fresh()
        invariant forall e, f | e in made && f in made && e != f :: e.status != f.status
      {
        var e := new KernelElem(maxThreadBlocks);
        Added(made, e);
        made := made + [e];
      }
      this.maxThreadBlocks := maxThreadBlocks;
      elems, freeWorkElems, inuseWorkElems := made, made, [];
      new;
      assert freeWorkElems + inuseWorkElems == made;
    }

    method Size() returns (n: nat)
      ensures n == |freeWorkElems|
    {
      n := |freeWorkElems|;
    }

    /** pop. Callers make sure that the free stack is not empty. */
    method Pop(ngroups: int) returns (workElem: KernelElem?)
      requires Valid() && freeWorkElems != []
      modifies this, Footprint()
      ensures Valid() && (old(Counted()) && 0 < ngroups ==> Counted())
      ensures workElem == null <==> ngroups > maxThreadBlocks
      ensures workElem == null ==> unchanged(this) && unchanged(Footprint())
      ensures workElem != null ==>
        var n := |old(freeWorkElems)| - 1;
        && workElem == old(freeWorkElems)[n] && freeWorkElems == old(freeWorkElems)[..n]
        && inuseWorkElems == old(inuseWorkElems) + [workElem]
        && ReadyFor(workElem, ngroups) && workElem.next == null
        && workElem.ngroups == ngroups && (forall i | 0 <= i < ngroups :: workElem.status[i] == INUSE)
        && forall e | e in elems && e != workElem :: unchanged(e) && unchanged(e.status)
    {
      if ngroups > maxThreadBlocks {
        return null;
      }
      PopPartition(elems, freeWorkElems, inuseWorkElems);
      var n := |freeWorkElems| - 1;
      var e := freeWorkElems[n];
      freeWorkElems := freeWorkElems[..n];
      e.Use(ngroups);
      inuseWorkElems := inuseWorkElems + [e];
      workElem := e;
    }

    ghost function Resets(es: seq<KernelElem>): (flags: seq<bool>)
      requires forall e | e in es :: e in elems
      reads Footprint()
      ensures |flags| == |es|
      ensures forall i | 0 <= i < |es| :: flags[i] <==> IsReset(es[i])
    {
      seq(|es|, i requires 0 <= i < |es| && es[i] in elems reads Footprint() => IsReset(es[i]))
    }

    ghost predicate IsReset(e: KernelElem)
      requires e in elems
      reads Footprint()
    {
      e.HasGroups() && e.AllAre(RESET)
    }

    /** The two lists once allocKernelElems has made sure of what it can get: reclaimed if too few are free. */
    ghost function Available(numElems: nat): (seq<KernelElem>, seq<KernelElem>)
      requires Valid()
      reads this, Footprint()
    {
      assert forall e | e in inuseWorkElems :: e in freeWorkElems + inuseWorkElems;
      var flags := Resets(inuseWorkElems);
      if numElems <= |freeWorkElems| then (freeWorkElems, inuseWorkElems)
      else (freeWorkElems + Where(inuseWorkElems, flags, true), Where(inuseWorkElems, flags, false))
    }

    /** Enough can be had exactly if the free elements and those whose groups are all reset suffice. */
    lemma AvailableCounted(numElems: nat)
      requires Valid()
      ensures numElems <= |Available(numElems).0| <==>
        numElems <= |freeWorkElems| + |set e | e in inuseWorkElems && e.HasGroups() && e.AllAre(RESET)|
    {
      assert forall e | e in inuseWorkElems :: e in freeWorkElems + inuseWorkElems;
      var reset := set e | e in inuseWorkElems && e.HasGroups() && e.AllAre(RESET);
      Tail(freeWorkElems, inuseWorkElems);
      WhereCounted(inuseWorkElems, Resets(inuseWorkElems), reset);
    }

    /** What reclaiming leaves in use are the elements with a group that is not RESET. */
    lemma LeftCounted()
      requires Valid()
      ensures |Where(inuseWorkElems, Resets(inuseWorkElems), false)|
           == |set e | e in inuseWorkElems && !(e.HasGroups() && e.AllAre(RESET))|
    {
      assert forall e | e in inuseWorkElems :: e in freeWorkElems + inuseWorkElems;
      var reset := set e | e in inuseWorkElems && e.HasGroups() && e.AllAre(RESET);
      var rest := set e | e in inuseWorkElems && !(e.HasGroups() && e.AllAre(RESET));
      Tail(freeWorkElems, inuseWorkElems);
      RestCounted(inuseWorkElems, Resets(inuseWorkElems), reset, rest);
    }

    /** How far the pass has come: k elements of the in-use list are sorted out, the rest still as they were. */
    ghost predicate Sorting(free: seq<KernelElem>, list: seq<KernelElem>, flags: seq<bool>, k: nat)
      reads this, Footprint()
    {
      && Lists(elems, freeWorkElems, inuseWorkElems, free, list, flags, k) && Separate()
      && (forall e | e in elems && e in freeWorkElems :: e.Fresh())
      && (forall e | e in elems && e in inuseWorkElems :: e.HasGroups())
      && (forall i | k <= i < |list| && list[i] in elems :: flags[i] <==> IsReset(list[i]))
    }

    /** reclaim: exactly the elements whose groups are all reset go back to the free stack, in list order */
    method Reclaim()
      requires Valid() && Counted()
      modifies this, Footprint()
      ensures Valid() && Counted()
      ensures forall e | e in old(inuseWorkElems) :: e in elems
      ensures inuseWorkElems == Where(old(inuseWorkElems), old(Resets(inuseWorkElems)), false)
      ensures freeWorkElems == old(freeWorkElems) + Where(old(inuseWorkElems), old(Resets(inuseWorkElems)), true)
      ensures var reset := old(set e | e in inuseWorkElems && e.HasGroups() && e.AllAre(RESET));
              forall e | e in old(inuseWorkElems) :: e in freeWorkElems <==> e in reset
      ensures forall e | e in elems && e in inuseWorkElems :: unchanged(e) && unchanged(e.status)
    {
      ghost var reset := set e | e in inuseWorkElems && e.HasGroups() && e.AllAre(RESET);
      ghost var free, list, flags, k := freeWorkElems, inuseWorkElems, Resets(inuseWorkElems), 0;
      SortedAre(free, list, flags, reset);
      var it := 0;
      while it < |inuseWorkElems|
        invariant Sorting(free, list, flags, k) && it == Kept(list, flags, k)
        invariant forall e | e in elems && e !in freeWorkElems :: unchanged(e) && unchanged(e.status)
        decreases |list| - k
      {
        it := SortOut(it, free, list, flags, k);
        k := k + 1;
      }
      AllSorted(elems, freeWorkElems, inuseWorkElems, free, list, flags, k);
    }

    /** One element of the in-use list: erased, reset and pushed if it is free, else passed over. */
    method SortOut(it: nat, ghost free: seq<KernelElem>, ghost list: seq<KernelElem>, ghost flags: seq<bool>, ghost k: nat)
        returns (it': nat)
      requires Sorting(free, list, flags, k) && it == Kept(list, flags, k) && it < |inuseWorkElems|
      modifies this, Footprint()
      ensures Sorting(free, list, flags, k + 1) && it' == Kept(list, flags, k + 1)
      ensures forall e | e in freeWorkElems :: e in old(freeWorkElems) || e == list[k]
      ensures forall e | e in old(freeWorkElems) :: e in freeWorkElems
      ensures forall e | e in elems && e !in freeWorkElems :: unchanged(e) && unchanged(e.status)
    {
      it' := it;
      SortStep(elems, freeWorkElems, inuseWorkElems, free, list, flags, k);
      NextToSort(elems, freeWorkElems, inuseWorkElems, free, list, flags, k);
      var workElem := inuseWorkElems[it];
      assert workElem in Footprint() && workElem.status in Footprint();
      var isFree := workElem.IsFree();
      assert isFree == flags[k];
      if isFree {
        TakeBack(it);
        assert forall e | e in elems && e != workElem :: unchanged(e) && unchanged(e.status);
        assert forall i | k < i < |list| :: old(IsReset(list[i])) == IsReset(list[i]);
      } else {
        it' := it + 1;
      }
    }

    method TakeBack(it: nat)
      requires it < |inuseWorkElems|
      modifies this, inuseWorkElems[it], inuseWorkElems[it].status
      ensures inuseWorkElems == old(inuseWorkElems)[..it] + old(inuseWorkElems)[it + 1..]
      ensures freeWorkElems == old(freeWorkElems) + [old(inuseWorkElems)[it]] && old(inuseWorkElems)[it].Fresh()
    {
      var workElem := inuseWorkElems[it];
      inuseWorkElems := inuseWorkElems[..it] + inuseWorkElems[it + 1..];
      workElem.Reset();
      freeWorkElems := freeWorkElems + [workElem];
    }
  }

  /** The lists after k of the in-use elements have been sorted out. */
  ghost predicate Lists(elems: seq<KernelElem>, freeNow: seq<KernelElem>, inuseNow: seq<KernelElem>,
                        free: seq<KernelElem>, list: seq<KernelElem>, flags: seq<bool>, k: nat) {
    && |list| == |flags| && k <= |list| && NoDuplicates(free + list)
    && inuseNow == Where(list[..k], flags[..k], false) + list[k..]
    && freeNow == free + Where(list[..k], flags[..k], true)
    && (forall e | e in free + list :: e in elems)
  }

  lemma AllSorted(elems: seq<KernelElem>, freeNow: seq<KernelElem>, inuseNow: seq<KernelElem>,
                  free: seq<KernelElem>, list: seq<KernelElem>, flags: seq<bool>, k: nat)
    requires Lists(elems, freeNow, inuseNow, free, list, flags, k) && |inuseNow| <= Kept(list, flags, k)
    requires Partition(elems, free, list)
    ensures freeNow == free + Where(list, flags, true) && inuseNow == Where(list, flags, false)
    ensures Partition(elems, freeNow, inuseNow) && forall e | e in inuseNow :: e !in freeNow
  {
    WholeList(elems, freeNow, inuseNow, free, list, flags, k);
    ReclaimPartition(elems, free, list, flags);
    NotInBoth(elems, freeNow, inuseNow);
  }

  lemma WholeList(elems: seq<KernelElem>, freeNow: seq<KernelElem>, inuseNow: seq<KernelElem>,
                  free: seq<KernelElem>, list: seq<KernelElem>, flags: seq<bool>, k: nat)
    requires Lists(elems, freeNow, inuseNow, free, list, flags, k) && |inuseNow| <= Kept(list, flags, k)
    ensures freeNow == free + Where(list, flags, true) && inuseNow == Where(list, flags, false)
  {
    assert |list[k..]| == 0;
    assert list[..k] == list && flags[..k] == flags;
  }

  ghost function Kept(list: seq<KernelElem>, flags: seq<bool>, k: nat): nat
    requires |list| == |flags| && k <= |list|
  {
    |Where(list[..k], flags[..k], false)|
  }

  /** The next element to sort out is in neither list yet, and not further on. */
  lemma NextToSort(elems: seq<KernelElem>, freeNow: seq<KernelElem>, inuseNow: seq<KernelElem>,
                   free: seq<KernelElem>, list: seq<KernelElem>, flags: seq<bool>, k: nat)
    requires Lists(elems, freeNow, inuseNow, free, list, flags, k) && k < |list|
    ensures list[k] in elems && list[k] !in freeNow
    ensures list[k] !in Where(list[..k], flags[..k], false) && list[k] !in list[k + 1..]
    ensures forall i | k < i < |list| :: list[i] in elems && list[i] != list[k]
  {
    Tail(free, list);
    NotYetTaken(list, flags, k, true);
    NotYetTaken(list, flags, k, false);
    assert multiset(free + list) == multiset(free) + multiset(list);
    assert list[k] in free + list && list[k] in multiset(list);
    assert multiset(free)[list[k]] == 0;
    forall i | k < i < |list| ensures list[i] in elems && list[i] != list[k] {
      assert list[i] == list[k + 1..][i - k - 1] && list[i] in free + list;
    }
  }

  /** What one step of the pass does to the lists. */
  lemma SortStep(elems: seq<KernelElem>, freeNow: seq<KernelElem>, inuseNow: seq<KernelElem>,
                 free: seq<KernelElem>, list: seq<KernelElem>, flags: seq<bool>, k: nat)
    requires Lists(elems, freeNow, inuseNow, free, list, flags, k) && k < |list|
    ensures var it := Kept(list, flags, k);
            && it < |inuseNow| && inuseNow[it] == list[k]
            && if flags[k] then
                 && Lists(elems, freeNow + [list[k]], inuseNow[..it] + inuseNow[it + 1..], free, list, flags, k + 1)
                 && Kept(list, flags, k + 1) == it
                 && inuseNow[..it] + inuseNow[it + 1..] == Where(list[..k], flags[..k], false) + list[k + 1..]
               else Lists(elems, freeNow, inuseNow, free, list, flags, k + 1) && Kept(list, flags, k + 1) == it + 1
  {
    var kept := Where(list[..k], flags[..k], false);
    WhereStep(list, flags, k, true);
    WhereStep(list, flags, k, false);
    assert inuseNow == kept + [list[k]] + list[k + 1..];
    assert inuseNow[..|kept|] + inuseNow[|kept| + 1..] == kept + list[k + 1..];
  }

  lemma NotInBoth(elems: seq<KernelElem>, a: seq<KernelElem>, b: seq<KernelElem>)
    requires Partition(elems, a, b)
    ensures forall e | e in b :: e !in a
  {
    forall e | e in b ensures e !in a {
      assert multiset(a + b) == multiset(a) + multiset(b);
      assert e in a + b && e in multiset(b);
    }
  }

  /** The top elements of the free stack, from the top down, linked in order to a null end, all groups in use. */
  ghost predicate Popped(es: seq<KernelElem>, free: seq<KernelElem>, ngroups: int)
    reads es, set e | e in es :: e.status
  {
    && 0 < |es| <= |free| && (forall j | 0 <= j < |es| :: es[j] == free[|free| - 1 - j])
    && Chain(es[0], es) && forall e | e in es :: ReadyFor(e, ngroups)
  }

  class CtranGpe {
    const kernelElemPool: KernelElemPool

    constructor (capacity: nat, maxThreadBlocks: nat)
      requires maxThreadBlocks < MAX_NGROUPS
      ensures kernelElemPool.Valid() && kernelElemPool.Counted() && |kernelElemPool.freeWorkElems| == capacity
    {
      kernelElemPool := new KernelElemPool(capacity, maxThreadBlocks);
    }

    /**
     * allocKernelElems: a null-terminated chain of numElems elements, all groups in use, taken from the top of
     * the free stack; or an error with nothing taken, when too few are free even after reclaiming, or when
     * there are more groups than an element has. `before` is what the caller's list held: it stays when
     * nothing is asked for or too few are free.
     */
    method AllocKernelElems(numElems: nat, ngroups: int, before: KernelElem?)
        returns (r: Result<()>, elemsList: KernelElem?, ghost es: seq<KernelElem>)
      requires kernelElemPool.Valid() && (numElems > |kernelElemPool.freeWorkElems| ==> kernelElemPool.Counted())
      modifies kernelElemPool, kernelElemPool.Footprint()
      ensures kernelElemPool.Valid() && (old(kernelElemPool.Counted()) && 0 < ngroups ==> kernelElemPool.Counted())
      ensures var reset := old(set e | e in kernelElemPool.inuseWorkElems && e.HasGroups() && e.AllAre(RESET));
              r.Ok? <==> numElems == 0 || (ngroups <= kernelElemPool.maxThreadBlocks && numElems <= |old(kernelElemPool.freeWorkElems)| + |reset|)
      ensures var (free, inuse) := old(kernelElemPool.Available(numElems));
              && (r.Err? ==> numElems > |free| || ngroups > kernelElemPool.maxThreadBlocks)
              && (numElems == 0 || numElems > |free| ==> elemsList == before)
              && (r.Err? && numElems <= |free| ==> elemsList == null)
              && (r.Err? ==> kernelElemPool.freeWorkElems == free && kernelElemPool.inuseWorkElems == inuse)
              && (r.Ok? ==>
                    && |es| == numElems && NoDuplicates(es)
                    && (numElems > 0 ==> Chain(elemsList, es) && Popped(es, free, ngroups))
                    && (forall e | e in es :: e.ngroups == ngroups && forall i | 0 <= i < ngroups <= e.status.Length :: e.status[i] == INUSE)
                    && kernelElemPool.freeWorkElems == free[..|free| - numElems]
                    && kernelElemPool.inuseWorkElems == inuse + es)
    {
      kernelElemPool.AvailableCounted(numElems);
      var enough := ReclaimIfShort(numElems);
      if !enough {
        return Err(InvalidArgument), before, [];
      }
      if numElems == 0 {
        assert kernelElemPool.inuseWorkElems + [] == kernelElemPool.inuseWorkElems;
        return Ok(()), before, [];
      }
      elemsList, es := PopChain(numElems, ngroups);
      r := if elemsList == null then Err(InvalidArgument) else Ok(());
    }

    /** numInUseKernelElems: those that are still in use after reclaiming what is free */
    method NumInUseKernelElems() returns (n: nat)
      requires kernelElemPool.Valid() && kernelElemPool.Counted()
      modifies kernelElemPool, kernelElemPool.Footprint()
      ensures kernelElemPool.Valid() && kernelElemPool.Counted() && n == |kernelElemPool.inuseWorkElems|
      ensures n == |old(set e | e in kernelElemPool.inuseWorkElems && !(e.HasGroups() && e.AllAre(RESET)))|
      ensures kernelElemPool.inuseWorkElems
              == Where(old(kernelElemPool.inuseWorkElems), old(kernelElemPool.Resets(kernelElemPool.inuseWorkElems)), false)
    {
      kernelElemPool.LeftCounted();
      kernelElemPool.Reclaim();
      var size := kernelElemPool.Size();
      return |kernelElemPool.elems| - size;
    }

    /** The check before popping: reclaim once if too few elements are free, and look again. */
    method ReclaimIfShort(numElems: nat) returns (enough: bool)
      requires kernelElemPool.Valid() && (numElems > |kernelElemPool.freeWorkElems| ==> kernelElemPool.Counted())
      modifies kernelElemPool, kernelElemPool.Footprint()
      ensures kernelElemPool.Valid() && (old(kernelElemPool.Counted()) ==> kernelElemPool.Counted())
      ensures (kernelElemPool.freeWorkElems, kernelElemPool.inuseWorkElems) == old(kernelElemPool.Available(numElems))
      ensures enough <==> numElems <= |kernelElemPool.freeWorkElems|
    {
      var size := kernelElemPool.Size();
      if numElems > size {
        kernelElemPool.Reclaim();
        size := kernelElemPool.Size();
      }
      return numElems <= size;
    }

    /** The pops and the links between them. */
    method PopChain(numElems: nat, ngroups: int) returns (head: KernelElem?, ghost es: seq<KernelElem>)
      requires kernelElemPool.Valid() && 0 < numElems <= |kernelElemPool.freeWorkElems|
      modifies kernelElemPool, kernelElemPool.Footprint()
      ensures kernelElemPool.Valid() && (old(kernelElemPool.Counted()) && 0 < ngroups ==> kernelElemPool.Counted())
      ensures head == null <==> ngroups > kernelElemPool.maxThreadBlocks
      ensures head == null ==> unchanged(kernelElemPool)
      ensures head != null ==>
        var free := old(kernelElemPool.freeWorkElems);
        && |es| == numElems && Popped(es, free, ngroups) && head == es[0] && NoDuplicates(es)
        && kernelElemPool.freeWorkElems == free[..|free| - numElems]
        && kernelElemPool.inuseWorkElems == old(kernelElemPool.inuseWorkElems) + es
    {
      ghost var free, inuse := kernelElemPool.freeWorkElems, kernelElemPool.inuseWorkElems;
      es := [];
      head := kernelElemPool.Pop(ngroups);
      if head == null {
        return;
      }
      es := [head];
      var elem: KernelElem := head;
      for i := 1 to numElems
        invariant kernelElemPool.Valid() && (old(kernelElemPool.Counted()) && 0 < ngroups ==> kernelElemPool.Counted())
        invariant |es| == i && Linked(es, free, inuse, ngroups) && es[0] == head && es[i - 1] == elem
      {
        elem, es := ExtendChain(elem, free, inuse, es, ngroups);
      }
      AllInUse(kernelElemPool.freeWorkElems, inuse, es);
    }

    /** How far the chain has come, against the two lists before it was begun. */
    ghost predicate Linked(es: seq<KernelElem>, free: seq<KernelElem>, inuse: seq<KernelElem>, ngroups: int)
      reads kernelElemPool, es, set e: KernelElem | e in es :: e.status
    {
      && Popped(es, free, ngroups) && kernelElemPool.freeWorkElems == free[..|free| - |es|]
      && kernelElemPool.inuseWorkElems == inuse + es
    }

    method ExtendChain(elem: KernelElem, ghost free: seq<KernelElem>, ghost inuse: seq<KernelElem>, ghost es: seq<KernelElem>, ngroups: int)
        returns (next: KernelElem?, ghost es': seq<KernelElem>)
      requires kernelElemPool.Valid() && ngroups <= kernelElemPool.maxThreadBlocks
      requires Linked(es, free, inuse, ngroups) && es[|es| - 1] == elem && |es| < |free|
      modifies kernelElemPool, kernelElemPool.Footprint()
      ensures kernelElemPool.Valid() && (old(kernelElemPool.Counted()) && 0 < ngroups ==> kernelElemPool.Counted())
      ensures next != null && es' == es + [next] && Linked(es', free, inuse, ngroups)
    {
      LastInUse(kernelElemPool.elems, kernelElemPool.freeWorkElems, kernelElemPool.inuseWorkElems, es);
      next, es' := PopNext(elem, free, es, ngroups);
      assert inuse + es + [next] == inuse + es';
    }

    /** One more element, linked behind the last. */
    method PopNext(elem: KernelElem, ghost free: seq<KernelElem>, ghost es: seq<KernelElem>, ngroups: int)
        returns (next: KernelElem?, ghost es': seq<KernelElem>)
      requires kernelElemPool.Valid() && ngroups <= kernelElemPool.maxThreadBlocks
      requires Popped(es, free, ngroups) && es[|es| - 1] == elem && |es| < |free|
      requires kernelElemPool.freeWorkElems == free[..|free| - |es|]
      requires NoDuplicates(es) && forall e | e in es :: e in kernelElemPool.elems && e !in kernelElemPool.freeWorkElems
      modifies kernelElemPool, kernelElemPool.Footprint()
      ensures kernelElemPool.Valid() && (old(kernelElemPool.Counted()) && 0 < ngroups ==> kernelElemPool.Counted())
      ensures next != null && es' == es + [next] && Popped(es', free, ngroups)
      ensures kernelElemPool.freeWorkElems == free[..|free| - |es'|]
      ensures kernelElemPool.inuseWorkElems == old(kernelElemPool.inuseWorkElems) + [next]
    {
      assert elem in es && elem in kernelElemPool.Footprint();
      next := PopBeside(es, free, ngroups);
      Link(elem, next, free, es, ngroups);
      es' := es + [next];
    }

    /** A pop leaves the elements popped before it as they are. */
    method PopBeside(ghost es: seq<KernelElem>, ghost free: seq<KernelElem>, ngroups: int) returns (next: KernelElem?)
      requires kernelElemPool.Valid() && ngroups <= kernelElemPool.maxThreadBlocks && kernelElemPool.freeWorkElems != []
      requires Popped(es, free, ngroups) && forall e | e in es :: e in kernelElemPool.elems && e !in kernelElemPool.freeWorkElems
      modifies kernelElemPool, kernelElemPool.Footprint()
      ensures kernelElemPool.Valid() && (old(kernelElemPool.Counted()) && 0 < ngroups ==> kernelElemPool.Counted())
      ensures next != null && next !in es && Popped(es, free, ngroups)
      ensures var n := |old(kernelElemPool.freeWorkElems)| - 1;
              && next == old(kernelElemPool.freeWorkElems)[n] && ReadyFor(next, ngroups) && next.next == null
              && kernelElemPool.freeWorkElems == old(kernelElemPool.freeWorkElems)[..n]
              && kernelElemPool.inuseWorkElems == old(kernelElemPool.inuseWorkElems) + [next]
    {
      next := kernelElemPool.Pop(ngroups);
    }

    method Link(elem: KernelElem, next: KernelElem, ghost free: seq<KernelElem>, ghost es: seq<KernelElem>, ngroups: int)
      requires Popped(es, free, ngroups) && es[|es| - 1] == elem && next !in es && NoDuplicates(es)
      requires |es| < |free| && next == free[|free| - 1 - |es|] && next.next == null && ReadyFor(next, ngroups)
      modifies elem`next
      ensures Popped(es + [next], free, ngroups)
    {
      forall i | 0 <= i < |es| - 1 ensures es[i] != elem { Distinct(es, i, |es| - 1); }
      elem.next := next;
    }
  }

  /** The elements at the end of the in-use list are distinct pool elements, and not free. */
  lemma LastInUse(elems: seq<KernelElem>, free: seq<KernelElem>, inuse: seq<KernelElem>, es: seq<KernelElem>)
    requires Partition(elems, free, inuse) && |es| <= |inuse| && inuse[|inuse| - |es|..] == es
    ensures NoDuplicates(es) && forall e | e in es :: e in elems && e !in free
  {
    assert inuse == inuse[..|inuse| - |es|] + es;
    AllInUse(free, inuse[..|inuse| - |es|], es);
    NotInBoth(elems, free, inuse);
    forall e | e in es ensures e in elems && e !in free { assert e in inuse && e in free + inuse; }
  }

  lemma AllInUse(free: seq<KernelElem>, inuse: seq<KernelElem>, es: seq<KernelElem>)
    requires NoDuplicates(free + (inuse + es))
    ensures NoDuplicates(es)
  {
    Tail(free, inuse + es);
    Tail(inuse, es);
  }
}
