/**
 * The registration cache under concurrent threads. Each step is one region under the cache's locks, or one
 * backend call made outside them; threads interleave between steps in any way.
 */
module RegThreads {
  import opened Verbs
  import opened SegmentRanges
  import opened RegCache

  /** Where a thread is inside a call of the cache. */
  datatype Thread =
    | Idle
    | Missed(request: Range)              // regRange: the fast path found nothing
    | Registering(h: nat, request: Range) // regRange: holds the segment lock while the backend registers
    | Freeing(s: nat, left: seq<nat>)     // freeSegment: owns registrations taken out, still to deregister
    | DynRegistering(h: nat)              // regDynamic: registered, not yet in the map
    | DynFreeing(h: nat)                  // deregDynamic: taken out, still to deregister

  /**
   * `elems` remembers every registration ever made; `backend` are those registered and not deregistered,
   * `gone` those deregistered. `granted` and `returned` count, per segment, cacheSegment results and
   * freeSegment calls.
   */
  datatype World = World(c: Cache, elems: map<nat, RegElem>, backend: set<nat>, gone: set<nat>,
                         threads: map<nat, Thread>, lock: Option<nat>,
                         granted: multiset<nat>, returned: multiset<nat>)

  ghost function At(w: World, t: nat): Thread { if t in w.threads then w.threads[t] else Idle }

  ghost function Moved(w: World, t: nat, p: Thread): map<nat, Thread> { w.threads[t := p] }

  ghost function Owned(p: Thread): set<nat> {
    match p
    case Idle => {}
    case Missed(_) => {}
    case Registering(h, _) => {h}
    case Freeing(_, left) => SetOf(left)
    case DynRegistering(h) => {h}
    case DynFreeing(h) => {h}
  }

  ghost function FreeingOf(s: nat, left: seq<nat>): Thread { if left == [] then Idle else Freeing(s, left) }

  datatype Step =
    | FastPath(request: Range, found: Option<nat>)
    | SlowCheck(found: Option<nat>, segs: Option<seq<nat>>)
    | Publish
    | CacheSegment(ptr: nat, len: nat, ncclManaged: bool, seg: Option<nat>)
    | FreeSegment(s: nat)
    | Deregister
    | DynStart(request: Range)
    | DynErase(h: nat)

  /** One backend registration, as a fresh handle. */
  ghost function Registered(w: World, e: RegElem): World {
    w.(c := w.c.(nextReg := w.c.nextReg + 1), elems := w.elems[w.c.nextReg := e], backend := w.backend + {w.c.nextReg})
  }

  ghost function Deregistered(w: World, h: nat): World { w.(backend := w.backend - {h}, gone := w.gone + {h}) }

  // ---------------------------------------------------------------- one step of thread t

  /** regRange without the segment lock. */
  ghost predicate LooksUp(w: World, w': World, t: nat, request: Range, found: Option<nat>) {
    && At(w, t).Idle? && RegFound(w.c, request, found)
    && w' == w.(threads := Moved(w, t, if found.Some? then Idle else Missed(request)))
  }

  /** regRange under the segment lock: look again, find the segments, and register; the lock stays held. */
  ghost predicate LooksAgain(allocs: seq<Range>, w: World, w': World, t: nat, found: Option<nat>, segs: Option<seq<nat>>)
    requires Disjoint(allocs)
  {
    && At(w, t).Missed? && w.lock.None? && RegFound(w.c, At(w, t).request, found)
    && var r := At(w, t).request;
       var ranges := Ranges(allocs, r.buf, r.len);
       if found.Some? || ranges.Err? then w' == w.(threads := Moved(w, t, Idle))
       else
         && SegsFound(w.c, ranges.value, segs)
         && if segs.None? then w' == w.(threads := Moved(w, t, Idle))
            else
              && segs.value != [] && (forall s | s in segs.value :: s in w.c.segs)
              && w' == Registered(w, NewElem(w.c, segs.value))
                         .(threads := Moved(w, t, Registering(w.c.nextReg, r)), lock := Some(t))
  }

  /** A registration goes into the maps; regRange gives up the segment lock with it. */
  ghost predicate Publishes(w: World, w': World, t: nat) {
    && (At(w, t).Registering? || At(w, t).DynRegistering?) && At(w, t).h in w.elems
    && w' == w.(c := Insert(w.c, At(w, t).h, w.elems[At(w, t).h]), threads := Moved(w, t, Idle),
                lock := if At(w, t).Registering? then None else w.lock)
  }

  /** cacheSegment. */
  ghost predicate Caches(allocs: seq<Range>, w: World, w': World, t: nat, ptr: nat, len: nat, ncclManaged: bool, seg: Option<nat>)
    requires Disjoint(allocs)
  {
    && At(w, t).Idle? && w.lock.None? && SegFound(w.c, Range(ptr, len), seg)
    && match seg
       case Some(s) => w' == w.(c := AddRef(w.c, s), granted := w.granted + multiset{s})
       case None =>
         var ranges := Ranges(allocs, ptr, len);
         && ranges.Ok? && |ranges.value| == 1 && Plain(allocs, ptr, len)
         && w' == w.(c := AddSegment(w.c, ranges.value[0], ncclManaged), granted := w.granted + multiset{w.c.nextSeg})
  }

  /** freeSegment when others still hold the segment. */
  ghost predicate Drops(w: World, w': World, t: nat, s: nat) {
    && At(w, t).Idle? && w.lock.None? && s in w.c.segs && w.c.segs[s].refCount != 1
    && w' == w.(returned := w.returned + multiset{s}, c := DropRef(w.c, s))
  }

  /** freeSegment when it was the last reference: what happens under both locks. */
  ghost predicate Releases(w: World, w': World, t: nat, s: nat) {
    && At(w, t).Idle? && w.lock.None? && s in w.c.segs && w.c.segs[s].refCount == 1
    && w' == w.(returned := w.returned + multiset{s}, c := Release(w.c, s), threads := Moved(w, t, FreeingOf(s, TakenOut(w.c, s))))
  }

  /** One registration goes to the backend, after the locks. */
  ghost predicate LetsGo(w: World, w': World, t: nat) {
    match At(w, t)
    case Freeing(s, left) => left != [] && w' == Deregistered(w, left[0]).(threads := Moved(w, t, FreeingOf(s, left[1..])))
    case DynFreeing(h) => w' == Deregistered(w, h).(threads := Moved(w, t, Idle))
    case _ => false
  }

  /** regDynamic: registered before the lock is taken. */
  ghost predicate StartsDynamic(allocs: seq<Range>, w: World, w': World, t: nat, r: Range)
    requires Disjoint(allocs)
  {
    var ranges := Ranges(allocs, r.buf, r.len);
    && At(w, t).Idle? && ranges.Ok? && ranges.value != []
    && w' == Registered(w, DynamicElem(ranges.value)).(threads := Moved(w, t, DynRegistering(w.c.nextReg)))
  }

  /** deregDynamic: taken out of the map. */
  ghost predicate Erases(w: World, w': World, t: nat, h: nat) {
    && At(w, t).Idle? && h in w.c.regs && w.c.regs[h].isDynamic
    && w' == w.(c := w.c.(regs := w.c.regs - {h}), threads := Moved(w, t, DynFreeing(h)))
  }

  ghost predicate Acts(allocs: seq<Range>, w: World, w': World, t: nat, step: Step)
    requires Disjoint(allocs)
  {
    match step
    case FastPath(request, found) => LooksUp(w, w', t, request, found)
    case SlowCheck(found, segs) => LooksAgain(allocs, w, w', t, found, segs)
    case Publish => Publishes(w, w', t)
    case CacheSegment(ptr, len, ncclManaged, seg) => Caches(allocs, w, w', t, ptr, len, ncclManaged, seg)
    case FreeSegment(s) => Drops(w, w', t, s) || Releases(w, w', t, s)
    case Deregister => LetsGo(w, w', t)
    case DynStart(r) => StartsDynamic(allocs, w, w', t, r)
    case DynErase(h) => Erases(w, w', t, h)
  }

  ghost function DynamicElem(ranges: seq<Range>): RegElem
    requires ranges != []
  {
    RegElem(Range(ranges[0].buf, TotalLen(ranges)), true, [])
  }

  /** A buffer that does not start in cuMem memory does not reach into it. */
  ghost predicate Plain(allocs: seq<Range>, ptr: nat, len: nat) {
    AddressRange(allocs, ptr).Err? ==> forall a: nat | ptr <= a < ptr + len :: !Mapped(allocs, a)
  }

  ghost predicate Next(allocs: seq<Range>, w: World, w': World)
    requires Disjoint(allocs)
  {
    exists t, step :: Acts(allocs, w, w', t, step)
  }

  const EMPTY_WORLD := World(Cache(map[], map[], map[], 0, 0), map[], {}, {}, map[], None, multiset{}, multiset{})

  ghost predicate IsRun(allocs: seq<Range>, run: seq<World>)
    requires Disjoint(allocs)
  {
    && |run| > 0 && run[0] == EMPTY_WORLD
    && forall i | 0 <= i < |run| - 1 :: Next(allocs, run[i], run[i + 1])
  }

  // ---------------------------------------------------------------- invariant

  /** What a thread between two steps still counts on. */
  ghost predicate ThreadOk(w: World, t: nat) {
    var p := At(w, t);
    && (forall h | h in Owned(p) :: h in w.backend && h in w.elems && h !in w.c.regs)
    && (p.Registering? <==> w.lock == Some(t))
    && (p.Registering? ==> p.h in w.elems && MayJoin(w.c, p.h, w.elems[p.h]) && Covers(w.elems[p.h], p.request))
    && (p.DynRegistering? ==> p.h in w.elems && MayJoin(w.c, p.h, w.elems[p.h]) && w.elems[p.h].isDynamic)
    && (p.DynFreeing? ==> p.h in w.elems && w.elems[p.h].segments == [] && w.elems[p.h].isDynamic)
    && (p.Freeing? ==> forall i, j | 0 <= i < j < |p.left| :: p.left[i] != p.left[j])
    && (p.Freeing? ==> p.s < w.c.nextSeg && p.s !in w.c.segs)
    && (p.Freeing? ==> forall h | h in p.left :: h in w.elems && p.s in w.elems[h].segments)
  }

  ghost predicate OwnedOnce(w: World) {
    forall t, u | t != u :: Owned(At(w, t)) !! Owned(At(w, u))
  }

  ghost predicate SomeOwner(w: World, h: nat) { exists t :: h in Owned(At(w, t)) }

  ghost predicate Accounted(w: World) {
    && (forall h | h in w.c.regs :: h in w.elems && w.elems[h] == w.c.regs[h] && h in w.backend)
    && (forall h | h in w.backend && h !in w.c.regs :: SomeOwner(w, h))
    && w.backend <= w.elems.Keys && w.gone <= w.elems.Keys && w.gone !! w.backend
    && (forall h | h in w.elems :: h < w.c.nextReg)
  }

  ghost predicate Refs(w: World) {
    && (forall s | s in w.c.segs :: w.granted[s] == w.returned[s] + w.c.segs[s].refCount)
    && (forall s: nat | s !in w.c.segs :: w.granted[s] == w.returned[s])
    && (forall s: nat | s >= w.c.nextSeg :: w.granted[s] == 0)
  }

  ghost predicate WorldInv(allocs: seq<Range>, w: World) {
    CacheInv(allocs, w.c) && (forall t :: ThreadOk(w, t)) && OwnedOnce(w) && Accounted(w) && Refs(w)
  }

  // ---------------------------------------------------------------- every step keeps it

  /** Nobody else's hold on a registration changes when one thread moves to a place where it owns nothing new. */
  lemma OwnersAfter(w: World, t: nat, p: Thread)
    requires OwnedOnce(w) && Owned(p) <= Owned(At(w, t))
    ensures OwnedOnce(w.(threads := Moved(w, t, p)))
  {
    var w' := w.(threads := Moved(w, t, p));
    forall u, v | u != v ensures Owned(At(w', u)) !! Owned(At(w', v)) {
      assert Owned(At(w', u)) <= Owned(At(w, u)) && Owned(At(w', v)) <= Owned(At(w, v));
      assert Owned(At(w, u)) !! Owned(At(w, v));
    }
  }

  /** No segment handle that was used and freed comes back. */
  ghost predicate SegsFresh(c: Cache, c': Cache) {
    c.nextSeg <= c'.nextSeg && forall s | s in c'.segs :: s in c.segs || s >= c.nextSeg
  }

  /** A thread that has not moved keeps what it counts on, if the cache still lets its registration join. */
  lemma StillOk(w: World, w': World, u: nat)
    requires ThreadOk(w, u) && At(w', u) == At(w, u)
    requires At(w, u).Registering? <==> w'.lock == Some(u)
    requires forall h | h in Owned(At(w, u)) :: h in w'.backend && h in w'.elems && w'.elems[h] == w.elems[h] && h !in w'.c.regs
    requires At(w, u).Registering? ==> MayJoin(w'.c, At(w, u).h, w.elems[At(w, u).h])
    requires At(w, u).DynRegistering? ==> MayJoin(w'.c, At(w, u).h, w.elems[At(w, u).h])
    requires SegsFresh(w.c, w'.c)
    ensures ThreadOk(w', u)
  {
    var p := At(w, u);
    assert p.Registering? || p.DynRegistering? || p.DynFreeing? ==> p.h in Owned(p);
  }

  /** A step that moves a thread owning nothing, and changes neither cache nor registrations. */
  lemma StepLookup(allocs: seq<Range>, w: World, w': World, t: nat, p: Thread)
    requires WorldInv(allocs, w) && w' == w.(threads := Moved(w, t, p))
    requires Owned(At(w, t)) == {} == Owned(p) && !At(w, t).Registering? && !At(w, t).DynRegistering?
    requires p.Idle? || p.Missed?
    ensures WorldInv(allocs, w')
  {
    OwnersAfter(w, t, p);
    assert ThreadOk(w, t);
    forall u ensures ThreadOk(w', u) {
      assert ThreadOk(w, u);
      if u != t { StillOk(w, w', u); }
    }
    SameOwners(w, w', t);
  }

  lemma SameOwners(w: World, w': World, t: nat)
    requires Accounted(w) && w'.c.regs == w.c.regs && w'.backend == w.backend && w'.elems == w.elems && w'.gone == w.gone
    requires w'.c.nextReg == w.c.nextReg
    requires forall u | u != t :: At(w', u) == At(w, u)
    requires Owned(At(w, t)) <= Owned(At(w', t))
    ensures Accounted(w')
  {
    forall h | h in w'.backend && h !in w'.c.regs ensures SomeOwner(w', h) {
      var u :| h in Owned(At(w, u));
      assert h in Owned(At(w', u));
    }
  }

  /** Thread t makes a fresh registration e and owns it from now on: a cached one under the lock, or a dynamic one. */
  ghost predicate Registers(w: World, w': World, t: nat, e: RegElem, p: Thread, lock: Option<nat>) {
    && w' == Registered(w, e).(threads := Moved(w, t, p), lock := lock)
    && Owned(At(w, t)) == {} && Owned(p) == {w.c.nextReg}
    && (if p.Registering? then w.lock.None? && lock == Some(t) && Covers(e, p.request)
        else p.DynRegistering? && lock == w.lock && !At(w, t).Registering? && e.isDynamic)
  }

  /** A fresh registration of the backend, owned by the thread that made it. */
  lemma StepRegister(allocs: seq<Range>, w: World, w': World, t: nat, e: RegElem, p: Thread, lock: Option<nat>)
    requires WorldInv(allocs, w) && Registers(w, w', t, e, p, lock)
    requires (e.isDynamic <==> e.segments == []) && (!e.isDynamic ==> Tiles(w.c.segs, e))
    requires !e.isDynamic ==> forall g | g in w.c.regs :: !Covers(w.c.regs[g], e.range)
    ensures WorldInv(allocs, w')
  {
    NextRegInv(allocs, w.c);
    FreshMayJoin(allocs, w.c, e);
    RegisterOwners(w, w', t, e, p, lock);
    forall u ensures ThreadOk(w', u) { RegisterKeeps(w, w', t, e, p, lock, u); }
  }

  lemma RegisterOwners(w: World, w': World, t: nat, e: RegElem, p: Thread, lock: Option<nat>)
    requires OwnedOnce(w) && Accounted(w) && (forall u :: ThreadOk(w, u)) && Registers(w, w', t, e, p, lock)
    ensures OwnedOnce(w') && Accounted(w')
  {
    NewOwner(w, w', t, {w.c.nextReg});
  }

  lemma RegisterKeeps(w: World, w': World, t: nat, e: RegElem, p: Thread, lock: Option<nat>, u: nat)
    requires Accounted(w) && ThreadOk(w, u) && ThreadOk(w, t) && Registers(w, w', t, e, p, lock) && MayJoin(w'.c, w.c.nextReg, e)
    ensures ThreadOk(w', u)
  {
    if u == t {
      assert p.h in Owned(p);
    } else {
      StillOk(w, w', u);
    }
  }

  /** A thread that owned nothing now owns `mine`, which nobody did; the rest is as before. */
  lemma NewOwner(w: World, w': World, t: nat, mine: set<nat>)
    requires OwnedOnce(w) && Accounted(w) && (forall u :: ThreadOk(w, u))
    requires Owned(At(w, t)) == {} && Owned(At(w', t)) == mine && forall u | u != t :: At(w', u) == At(w, u)
    requires forall h | h in mine :: h !in w.backend || h in w.c.regs
    requires w'.c.regs.Keys + mine == w.c.regs.Keys + mine && w'.c.regs.Keys !! mine && w'.backend == w.backend + mine
    requires (forall h | h in w'.c.regs :: h in w'.elems && w'.elems[h] == w'.c.regs[h])
    requires w'.backend <= w'.elems.Keys && w'.gone == w.gone && w.elems.Keys <= w'.elems.Keys && w'.gone !! mine
    requires forall h | h in w'.elems :: h < w'.c.nextReg
    ensures OwnedOnce(w') && Accounted(w')
  {
    forall u, v | u != v ensures Owned(At(w', u)) !! Owned(At(w', v)) {
      assert ThreadOk(w, u) && ThreadOk(w, v);
      assert Owned(At(w, u)) !! Owned(At(w, v));
    }
    forall h | h in w'.backend && h !in w'.c.regs ensures SomeOwner(w', h) {
      if h in mine {
        assert h in Owned(At(w', t));
      } else {
        assert h !in w.c.regs.Keys + mine;
        var u :| h in Owned(At(w, u));
        assert h in Owned(At(w', u));
      }
    }
    forall h | h in w'.c.regs ensures h in w'.backend { assert h in w.c.regs.Keys + mine; }
  }

  /** Another registration joining does not bar one that may join, unless both are cached ones. */
  lemma JoinAfterInsert(c: Cache, h: nat, e: RegElem, g: nat, f: RegElem)
    requires MayJoin(c, h, e) && MayJoin(c, g, f) && h != g && (e.isDynamic || f.isDynamic)
    ensures MayJoin(Insert(c, g, f), h, e)
  {
    var c' := Insert(c, g, f);
    forall s | s in c'.listed ensures h !in c'.listed[s] { ListUnderIs(c.listed, f.segments, g, s, h); }
  }

  /** A registration goes into the maps; its thread lets go of it. */
  lemma StepPublish(allocs: seq<Range>, w: World, w': World, t: nat)
    requires WorldInv(allocs, w) && Publishes(w, w', t)
    ensures WorldInv(allocs, w')
  {
    var h, e := At(w, t).h, w.elems[At(w, t).h];
    assert ThreadOk(w, t);
    assert h in Owned(At(w, t));
    InsertInv(allocs, w.c, h, e);
    forall u ensures ThreadOk(w', u) {
      assert ThreadOk(w, u);
      assert Owned(At(w, t)) !! Owned(At(w, u)) || u == t;
      PublishKeeps(w, w', t, u);
    }
    PublishOwners(w, w', t);
  }

  lemma PublishKeeps(w: World, w': World, t: nat, u: nat)
    requires Publishes(w, w', t) && ThreadOk(w, t) && ThreadOk(w, u) && (Owned(At(w, t)) !! Owned(At(w, u)) || u == t)
    ensures ThreadOk(w', u)
  {
    var h, e := At(w, t).h, w.elems[At(w, t).h];
    if u != t {
      var p := At(w, u);
      assert h in Owned(At(w, t));
      if p.Registering? || p.DynRegistering? {
        assert p.h in Owned(p);
        JoinAfterInsert(w.c, p.h, w.elems[p.h], h, e);
      }
      StillOk(w, w', u);
    }
  }

  lemma PublishOwners(w: World, w': World, t: nat)
    requires Publishes(w, w', t) && OwnedOnce(w) && Accounted(w) && ThreadOk(w, t)
    ensures OwnedOnce(w') && Accounted(w')
  {
    assert At(w, t).h in Owned(At(w, t));
    OwnersAfter(w, t, Idle);
    assert forall u :: At(w', u) == At(w.(threads := Moved(w, t, Idle)), u);
    forall g | g in w'.backend && g !in w'.c.regs ensures SomeOwner(w', g) {
      var u :| g in Owned(At(w, u));
      assert u != t;
      assert g in Owned(At(w', u));
    }
  }

  /** Under the segment lock, and with no registration under way, cached segments may change freely. */
  lemma StepSegments(allocs: seq<Range>, w: World, w': World, t: nat)
    requires WorldInv(allocs, w) && At(w, t).Idle? && w.lock.None?
    requires CacheInv(allocs, w'.c) && w'.c.regs == w.c.regs && w'.c.listed == w.c.listed && w'.c.nextReg == w.c.nextReg
    requires w' == w.(c := w'.c, granted := w'.granted, returned := w'.returned) && Refs(w') && SegsFresh(w.c, w'.c)
    ensures WorldInv(allocs, w')
  {
    forall u ensures ThreadOk(w', u) {
      assert ThreadOk(w, u);
      StillOk(w, w', u);
    }
    assert OwnedOnce(w') by {
      forall u, v | u != v ensures Owned(At(w', u)) !! Owned(At(w', v)) { assert Owned(At(w, u)) !! Owned(At(w, v)); }
    }
    SameOwners(w, w', t);
  }

  lemma CachesKeeps(allocs: seq<Range>, w: World, w': World, t: nat, ptr: nat, len: nat, managed: bool, seg: Option<nat>)
    requires Disjoint(allocs) && CacheInv(allocs, w.c) && Refs(w) && Caches(allocs, w, w', t, ptr, len, managed, seg)
    ensures CacheInv(allocs, w'.c) && Refs(w') && SegsFresh(w.c, w'.c)
  {
    if seg.Some? {
      AddRefInv(allocs, w.c, seg.value);
      assert SegOk(allocs, w.c, seg.value);
      MoreRefs(w, w', seg.value);
    } else {
      NewCached(allocs, w.c, ptr, len, managed);
      NewRefs(allocs, w, w');
    }
  }

  lemma NewCached(allocs: seq<Range>, c: Cache, ptr: nat, len: nat, managed: bool)
    requires Disjoint(allocs) && CacheInv(allocs, c) && SegFound(c, Range(ptr, len), None) && Plain(allocs, ptr, len)
    requires Ranges(allocs, ptr, len).Ok? && |Ranges(allocs, ptr, len).value| == 1
    ensures CacheInv(allocs, AddSegment(c, Ranges(allocs, ptr, len).value[0], managed))
  {
    NewRangeOk(allocs, ptr, len);
    NotYetCached(allocs, c, ptr, len);
    AddSegmentInv(allocs, c, Ranges(allocs, ptr, len).value[0], managed);
  }

  lemma MoreRefs(w: World, w': World, s: nat)
    requires Refs(w) && s in w.c.segs && s < w.c.nextSeg && w'.c == AddRef(w.c, s) && w'.granted == w.granted + multiset{s} && w'.returned == w.returned
    ensures Refs(w')
  {
    assert w'.c.segs.Keys == w.c.segs.Keys;
  }

  lemma NewRefs(allocs: seq<Range>, w: World, w': World)
    requires Refs(w) && (forall s | s in w.c.segs :: SegOk(allocs, w.c, s)) && w'.c.nextSeg == w.c.nextSeg + 1
    requires w'.c.segs.Keys == w.c.segs.Keys + {w.c.nextSeg} && (forall s | s in w.c.segs && s != w.c.nextSeg :: w'.c.segs[s] == w.c.segs[s])
    requires w'.c.segs[w.c.nextSeg].refCount == 1 && w'.granted == w.granted + multiset{w.c.nextSeg} && w'.returned == w.returned
    ensures Refs(w')
  {
    forall s | s in w.c.segs ensures s != w.c.nextSeg { assert SegOk(allocs, w.c, s); }
  }

  lemma StepCacheSegment(allocs: seq<Range>, w: World, w': World, t: nat, ptr: nat, len: nat, managed: bool, seg: Option<nat>)
    requires Disjoint(allocs) && WorldInv(allocs, w) && Caches(allocs, w, w', t, ptr, len, managed, seg)
    ensures WorldInv(allocs, w')
  {
    CachesKeeps(allocs, w, w', t, ptr, len, managed, seg);
    StepSegments(allocs, w, w', t);
  }

  lemma NewRangeOk(allocs: seq<Range>, ptr: nat, len: nat)
    requires Disjoint(allocs) && Ranges(allocs, ptr, len).Ok? && |Ranges(allocs, ptr, len).value| == 1 && Plain(allocs, ptr, len)
    ensures RangeOk(allocs, Ranges(allocs, ptr, len).value[0])
  {
    if AddressRange(allocs, ptr).Ok? { PinCovers(allocs, ptr, len); } else { AddressFound(allocs, ptr); }
  }

  lemma StepDrop(allocs: seq<Range>, w: World, w': World, t: nat, s: nat)
    requires WorldInv(allocs, w) && Drops(w, w', t, s)
    ensures WorldInv(allocs, w')
  {
    assert SegOk(allocs, w.c, s);
    DropRefInv(allocs, w.c, s);
    StepSegments(allocs, w, w', t);
  }

  lemma StepRelease(allocs: seq<Range>, w: World, w': World, t: nat, s: nat)
    requires WorldInv(allocs, w) && Releases(w, w', t, s)
    ensures WorldInv(allocs, w')
  {
    var left := TakenOut(w.c, s);
    ReleaseInv(allocs, w.c, s);
    forall h ensures h in left ==> h in w.c.regs && s in w.c.regs[h].segments { TakenOutExactly(allocs, w.c, s, h); }
    assert SegOk(allocs, w.c, s);
    FreeingOk(w, w', t, s);
    forall u ensures ThreadOk(w', u) {
      assert ThreadOk(w, u);
      if u != t { StillOk(w, w', u); }
    }
    NewOwner(w, w', t, SetOf(left));
    ReleaseRefs(allocs, w, w', t, s);
  }

  lemma FreeingOk(w: World, w': World, t: nat, s: nat)
    requires Releases(w, w', t, s) && Accounted(w) && ThreadOk(w, t) && s < w.c.nextSeg
    requires forall h | h in TakenOut(w.c, s) :: h in w.c.regs && s in w.c.regs[h].segments
    ensures ThreadOk(w', t) && Owned(At(w', t)) == SetOf(TakenOut(w.c, s))
  {
    StillThereIs(w.c.regs.Keys, ListedUnder(w.c, s), 0);
  }

  lemma ReleaseRefs(allocs: seq<Range>, w: World, w': World, t: nat, s: nat)
    requires Refs(w) && Releases(w, w', t, s) && SegOk(allocs, w.c, s)
    ensures Refs(w')
  {
    assert forall x: nat | x != s :: w'.returned[x] == w.returned[x];
    assert w'.returned[s] == w.returned[s] + 1;
  }

  /** A thread deregisters one registration it owns. */
  lemma StepDeregister(allocs: seq<Range>, w: World, w': World, t: nat, h: nat, p: Thread)
    requires WorldInv(allocs, w) && w' == Deregistered(w, h).(threads := Moved(w, t, p))
    requires h in Owned(At(w, t)) && Owned(p) == Owned(At(w, t)) - {h} && (p.Idle? || p.Freeing?)
    requires At(w, t).Freeing? || At(w, t).DynFreeing?
    requires p.Freeing? ==> forall i, j | 0 <= i < j < |p.left| :: p.left[i] != p.left[j]
    requires p.Freeing? ==> At(w, t).Freeing? && p.s == At(w, t).s && forall g | g in p.left :: g in At(w, t).left
    ensures WorldInv(allocs, w') && h in w.backend && h !in w.gone
  {
    assert ThreadOk(w, t);
    OwnersAfter(w, t, p);
    assert forall u :: At(w', u) == At(w.(threads := Moved(w, t, p)), u);
    forall u ensures ThreadOk(w', u) {
      assert ThreadOk(w, u);
      if u != t {
        assert Owned(At(w, t)) !! Owned(At(w, u));
        StillOk(w, w', u);
      }
    }
    forall g | g in w'.backend && g !in w'.c.regs ensures SomeOwner(w', g) {
      var u :| g in Owned(At(w, u));
      assert g in Owned(At(w', u));
    }
  }

  lemma StepErase(allocs: seq<Range>, w: World, w': World, t: nat, h: nat)
    requires WorldInv(allocs, w) && Erases(w, w', t, h)
    ensures WorldInv(allocs, w')
  {
    EraseDynamicInv(allocs, w.c, h);
    assert RegOk(w.c, h);
    forall u ensures ThreadOk(w', u) {
      assert ThreadOk(w, u);
      if u != t { StillOk(w, w', u); }
    }
    forall u, v | u != v ensures Owned(At(w', u)) !! Owned(At(w', v)) {
      assert ThreadOk(w, u) && ThreadOk(w, v);
      assert Owned(At(w, u)) !! Owned(At(w, v));
    }
    forall g | g in w'.backend && g !in w'.c.regs ensures SomeOwner(w', g) {
      if g == h {
        assert g in Owned(At(w', t));
      } else {
        var u :| g in Owned(At(w, u));
        assert g in Owned(At(w', u));
      }
    }
  }

  lemma StepSlowCheck(allocs: seq<Range>, w: World, w': World, t: nat, found: Option<nat>, segs: Option<seq<nat>>)
    requires Disjoint(allocs) && WorldInv(allocs, w) && LooksAgain(allocs, w, w', t, found, segs)
    ensures WorldInv(allocs, w')
  {
    var r := At(w, t).request;
    if found.Some? || Ranges(allocs, r.buf, r.len).Err? || segs.None? {
      StepLookup(allocs, w, w', t, Idle);
    } else {
      NewElemCovers(allocs, w.c, r.buf, r.len, segs.value);
      var e := NewElem(w.c, segs.value);
      StepRegister(allocs, w, w', t, e, Registering(w.c.nextReg, r), Some(t));
    }
  }

  lemma StepLetGo(allocs: seq<Range>, w: World, w': World, t: nat)
    requires WorldInv(allocs, w) && LetsGo(w, w', t)
    ensures WorldInv(allocs, w')
  {
    assert ThreadOk(w, t);
    if At(w, t).Freeing? {
      var left := At(w, t).left;
      assert left == [left[0]] + left[1..];
      StepDeregister(allocs, w, w', t, left[0], FreeingOf(At(w, t).s, left[1..]));
    } else {
      StepDeregister(allocs, w, w', t, At(w, t).h, Idle);
    }
  }

  lemma StepDynamic(allocs: seq<Range>, w: World, w': World, t: nat, r: Range)
    requires Disjoint(allocs) && WorldInv(allocs, w) && StartsDynamic(allocs, w, w', t, r)
    ensures WorldInv(allocs, w')
  {
    StepRegister(allocs, w, w', t, DynamicElem(Ranges(allocs, r.buf, r.len).value), DynRegistering(w.c.nextReg), w.lock);
  }

  lemma StepInv(allocs: seq<Range>, w: World, w': World, t: nat, step: Step)
    requires Disjoint(allocs) && WorldInv(allocs, w) && Acts(allocs, w, w', t, step)
    ensures WorldInv(allocs, w')
  {
    match step {
      case FastPath(request, found) => StepLookup(allocs, w, w', t, if found.Some? then Idle else Missed(request));
      case SlowCheck(found, segs) => StepSlowCheck(allocs, w, w', t, found, segs);
      case Publish => StepPublish(allocs, w, w', t);
      case CacheSegment(ptr, len, managed, seg) => StepCacheSegment(allocs, w, w', t, ptr, len, managed, seg);
      case FreeSegment(s) =>
        if Drops(w, w', t, s) { StepDrop(allocs, w, w', t, s); } else { StepRelease(allocs, w, w', t, s); }
      case Deregister => StepLetGo(allocs, w, w', t);
      case DynStart(r) => StepDynamic(allocs, w, w', t, r);
      case DynErase(h) => StepErase(allocs, w, w', t, h);
    }
  }

  lemma {:induction false} RunInv(allocs: seq<Range>, run: seq<World>, n: nat)
    requires Disjoint(allocs) && IsRun(allocs, run) && n < |run|
    ensures WorldInv(allocs, run[n])
  {
    if n > 0 {
      RunInv(allocs, run, n - 1);
      assert Next(allocs, run[n - 1], run[n]);
      var t, step :| Acts(allocs, run[n - 1], run[n], t, step);
      StepInv(allocs, run[n - 1], run[n], t, step);
    }
  }

  // ---------------------------------------------------------------- what every run keeps

  ghost predicate Uses(w: World, h: nat, s: nat) { h in w.elems && s in w.elems[h].segments }

  /** Thread t has taken h out of the maps in a freeSegment and has still to deregister it. */
  ghost predicate StillFrees(w: World, t: nat, h: nat) { At(w, t).Freeing? && h in At(w, t).left }

  /**
   * A registration that the backend still holds has all its segments cached and is listed under each of them,
   * unless a thread that freed one of them has still to deregister it.
   */
  lemma NoneOutlivesItsSegments(allocs: seq<Range>, run: seq<World>, n: nat, h: nat, s: nat)
    requires Disjoint(allocs) && IsRun(allocs, run) && n < |run|
    requires h in run[n].backend && forall t :: !StillFrees(run[n], t, h)
    ensures var w := run[n];
            && h in w.elems
            && (s in w.elems[h].segments ==> s in w.c.segs)
            && (h in w.c.regs && s in w.elems[h].segments ==> Listed(w.c, s, h))
  {
    RunInv(allocs, run, n);
    var w := run[n];
    if h in w.c.regs {
      assert RegOk(w.c, h);
    } else {
      assert SomeOwner(w, h);
      var t :| h in Owned(At(w, t));
      assert ThreadOk(w, t);
      assert !StillFrees(w, t, h);
    }
  }

  /** Something that the backend holds uses segment s. */
  ghost predicate InUse(w: World, s: nat) { exists h :: h in w.backend && Uses(w, h, s) }

  /** Some thread has still to deregister a registration that uses segment s. */
  ghost predicate BeingFreed(w: World, s: nat) { exists t, h :: StillFrees(w, t, h) && Uses(w, h, s) }

  /**
   * A segment that is not cached is still used by something registered if and only if some freeSegment, of it
   * or of another segment, has taken such a registration out and has still to deregister it.
   */
  lemma UncachedInUseIff(allocs: seq<Range>, run: seq<World>, n: nat, s: nat)
    requires Disjoint(allocs) && IsRun(allocs, run) && n < |run| && s !in run[n].c.segs
    ensures InUse(run[n], s) <==> BeingFreed(run[n], s)
  {
    var w := run[n];
    if InUse(w, s) {
      var h :| h in w.backend && Uses(w, h, s);
      if forall t :: !StillFrees(w, t, h) { NoneOutlivesItsSegments(allocs, run, n, h, s); }
    }
    if BeingFreed(w, s) {
      var t, h :| StillFrees(w, t, h) && Uses(w, h, s);
      RunInv(allocs, run, n);
      assert ThreadOk(w, t);
      assert h in Owned(At(w, t));
    }
  }

  /** This step is the last of a freeSegment by thread t that freed segment s. */
  ghost predicate ReturnsFreed(w: World, w': World, t: nat, s: nat) {
    && At(w', t).Idle?
    && if At(w, t).Freeing? then At(w, t).s == s && LetsGo(w, w', t) else Releases(w, w', t, s)
  }

  /** Another thread has still to deregister a registration that uses s. */
  ghost predicate OthersFree(w: World, t: nat, s: nat) { exists u, h :: u != t && StillFrees(w, u, h) && Uses(w, h, s) }

  /**
   * When freeSegment reports that it freed s, nothing registered uses s if and only if no other freeSegment is
   * between its locks and its return with a registration that uses s still to deregister.
   */
  lemma FreedIsUnusedIff(allocs: seq<Range>, run: seq<World>, n: nat, t: nat, s: nat)
    requires Disjoint(allocs) && IsRun(allocs, run) && n + 1 < |run| && ReturnsFreed(run[n], run[n + 1], t, s)
    ensures s !in run[n + 1].c.segs
    ensures !InUse(run[n + 1], s) <==> !OthersFree(run[n + 1], t, s)
  {
    RunInv(allocs, run, n);
    assert ThreadOk(run[n], t);
    UncachedInUseIff(allocs, run, n + 1, s);
  }

  /**
   * Thread u is inside a freeSegment, past its locks, and its segment and s share a registration, past or
   * present.
   */
  ghost predicate SharesWith(w: World, u: nat, s: nat) {
    At(w, u).Freeing? && exists h :: Uses(w, h, At(w, u).s) && Uses(w, h, s)
  }

  /** No other thread is inside a freeSegment on a segment that shares a registration with s. */
  ghost predicate Alone(w: World, t: nat, s: nat) { forall u | u != t :: !SharesWith(w, u, s) }

  /** So callers that free segments sharing a registration one after the other find nothing registered on them. */
  lemma FreedAloneIsUnused(allocs: seq<Range>, run: seq<World>, n: nat, t: nat, s: nat)
    requires Disjoint(allocs) && IsRun(allocs, run) && n + 1 < |run| && ReturnsFreed(run[n], run[n + 1], t, s)
    requires Alone(run[n + 1], t, s)
    ensures s !in run[n + 1].c.segs && !InUse(run[n + 1], s)
  {
    FreedIsUnusedIff(allocs, run, n, t, s);
    RunInv(allocs, run, n + 1);
    var w := run[n + 1];
    if OthersFree(w, t, s) {
      var u, h :| u != t && StillFrees(w, u, h) && Uses(w, h, s);
      assert ThreadOk(w, u);
      assert SharesWith(w, u, s);
    }
  }

  /** Something that the backend holds, other than a dynamic registration, reaches address a. */
  ghost predicate Reached(w: World, a: nat) { exists h :: h in w.backend && Reaching(w, h, a) }

  ghost predicate Reaching(w: World, h: nat, a: nat) { h in w.elems && !w.elems[h].isDynamic && w.elems[h].range.Has(a) }

  /** Thread t has still to deregister a registration that reaches address a. */
  ghost predicate FreesAt(w: World, t: nat, a: nat) { exists h :: StillFrees(w, t, h) && Reaching(w, h, a) }

  ghost predicate OthersFreeAt(w: World, t: nat, a: nat) { exists u, h :: u != t && StillFrees(w, u, h) && Reaching(w, h, a) }

  /**
   * What the backend holds lies in cached memory: an address in no cached segment is reached by a registration
   * if and only if some freeSegment has still to deregister one that reaches it.
   */
  lemma UncachedReachedIff(allocs: seq<Range>, run: seq<World>, n: nat, a: nat)
    requires Disjoint(allocs) && IsRun(allocs, run) && n < |run| && !CachedAt(run[n].c, a)
    ensures Reached(run[n], a) <==> exists t :: FreesAt(run[n], t, a)
  {
    var w := run[n];
    RunInv(allocs, run, n);
    if Reached(w, a) {
      var h :| h in w.backend && Reaching(w, h, a);
      var t := ReachedIsFreed(allocs, w, h, a);
      assert FreesAt(w, t, a);
    }
    if t :| FreesAt(w, t, a) {
      var h :| StillFrees(w, t, h) && Reaching(w, h, a);
      assert ThreadOk(w, t);
      assert h in Owned(At(w, t));
    }
  }

  lemma ReachedIsFreed(allocs: seq<Range>, w: World, h: nat, a: nat) returns (t: nat)
    requires CacheInv(allocs, w.c) && Accounted(w) && (forall u :: ThreadOk(w, u))
    requires h in w.backend && Reaching(w, h, a) && !CachedAt(w.c, a)
    ensures StillFrees(w, t, h)
  {
    if h in w.c.regs { RegisteredIsHeld(allocs, w.c, h, a); }
    assert SomeOwner(w, h);
    t :| h in Owned(At(w, t));
    assert ThreadOk(w, t);
    if At(w, t).Registering? { TilesHold(w.c.segs, w.elems[h], a); }
  }

  /**
   * When freeSegment reports that it freed a segment, an address that is in no cached segment now, such as those
   * it held, is reached by a registration if and only if another thread has still to deregister one.
   */
  lemma FreedReachedIff(allocs: seq<Range>, run: seq<World>, n: nat, t: nat, s: nat, a: nat)
    requires Disjoint(allocs) && IsRun(allocs, run) && n + 1 < |run| && ReturnsFreed(run[n], run[n + 1], t, s)
    requires !CachedAt(run[n + 1].c, a)
    ensures Reached(run[n + 1], a) <==> OthersFreeAt(run[n + 1], t, a)
  {
    var w := run[n + 1];
    UncachedReachedIff(allocs, run, n + 1, a);
    if u :| FreesAt(w, u, a) { assert u != t && OthersFreeAt(w, t, a); }
    if OthersFreeAt(w, t, a) {
      var u, h :| u != t && StillFrees(w, u, h) && Reaching(w, h, a);
      assert FreesAt(w, u, a);
    }
  }

  /** The addresses of a segment of cuMem memory are in no cached segment once it has been freed. */
  lemma ReleasedIsUncached(allocs: seq<Range>, run: seq<World>, n: nat, t: nat, s: nat, a: nat)
    requires Disjoint(allocs) && IsRun(allocs, run) && n + 1 < |run| && Releases(run[n], run[n + 1], t, s)
    requires run[n].c.segs[s].range in allocs && run[n].c.segs[s].range.Has(a)
    ensures !CachedAt(run[n + 1].c, a)
  {
    RunInv(allocs, run, n);
    ReleasedIsUnreached(allocs, run[n].c, s, a);
  }

  /** doDeregister is only ever reached for a registration that is still registered, and once for each. */
  lemma DeregisteredOnce(allocs: seq<Range>, run: seq<World>, n: nat, t: nat, h: nat)
    requires Disjoint(allocs) && IsRun(allocs, run) && n < |run|
    requires At(run[n], t).Freeing? || At(run[n], t).DynFreeing?
    requires h in Owned(At(run[n], t))
    ensures h in run[n].backend && h !in run[n].gone && h !in run[n].c.regs
    ensures forall u | u != t :: h !in Owned(At(run[n], u))
    ensures At(run[n], t).Freeing? ==> forall i, j | 0 <= i < j < |At(run[n], t).left| :: At(run[n], t).left[i] != At(run[n], t).left[j]
  {
    RunInv(allocs, run, n);
    var w := run[n];
    assert ThreadOk(w, t);
    forall u | u != t ensures h !in Owned(At(w, u)) { assert Owned(At(w, t)) !! Owned(At(w, u)); }
  }

  /**
   * In the maps no range is registered twice: of two cached registrations the later one never lies inside the
   * earlier; and one about to be published lies inside none and covers the buffer it was made for.
   */
  lemma NeverRegisteredTwice(allocs: seq<Range>, run: seq<World>, n: nat, t: nat)
    requires Disjoint(allocs) && IsRun(allocs, run) && n < |run|
    ensures forall g, h | g in run[n].c.regs && h in run[n].c.regs && g < h ::
      var e, f := run[n].c.regs[g], run[n].c.regs[h];
      e.isDynamic || f.isDynamic || f.range.buf < e.range.buf || End(e.range) < End(f.range)
    ensures At(run[n], t).Registering? ==>
      var w, p := run[n], At(run[n], t);
      && p.h in w.elems && w.elems[p.h].range.buf <= p.request.buf && End(p.request) <= End(w.elems[p.h].range)
      && (forall g | g in w.c.regs :: g < p.h || w.c.regs[g].isDynamic)
      && forall g | g in w.c.regs :: !Covers(w.c.regs[g], w.elems[p.h].range)
  {
    RunInv(allocs, run, n);
    assert ThreadOk(run[n], t);
  }

  /** Another registration that the backend holds covers the one that thread t is making. */
  ghost predicate RegisteredAgain(w: World, t: nat)
    requires At(w, t).Registering? && At(w, t).h in w.elems
  {
    exists g :: g in w.backend && g in w.elems && g != At(w, t).h && Covers(w.elems[g], w.elems[At(w, t).h].range)
  }

  /** Some freeSegment has still to deregister a registration that covers it. */
  ghost predicate CoverBeingFreed(w: World, t: nat)
    requires At(w, t).Registering? && At(w, t).h in w.elems
  {
    exists u, g :: StillFrees(w, u, g) && g in w.elems && Covers(w.elems[g], w.elems[At(w, t).h].range)
  }

  /** What the backend holds outside the maps and is not dynamic is being made, by the one thread that has the lock, or freed. */
  lemma OwnerFrees(w: World, t: nat, u: nat, g: nat)
    requires ThreadOk(w, t) && ThreadOk(w, u) && At(w, t).Registering? && g in Owned(At(w, u)) && g != At(w, t).h
    requires g in w.elems && !w.elems[g].isDynamic
    ensures StillFrees(w, u, g)
  {
  }

  lemma FreedIsAnother(w: World, t: nat, u: nat, g: nat)
    requires ThreadOk(w, u) && OwnedOnce(w) && At(w, t).Registering? && StillFrees(w, u, g)
    ensures g in w.backend && g != At(w, t).h
  {
    assert g in Owned(At(w, u)) && u != t;
    assert Owned(At(w, u)) !! Owned(At(w, t));
  }

  /**
   * At the backend a range is registered once more while an earlier registration covers it if and only if a
   * freeSegment has taken that one out of the maps and has still to deregister it.
   */
  lemma RegisteredAgainIff(allocs: seq<Range>, run: seq<World>, n: nat, t: nat)
    requires Disjoint(allocs) && IsRun(allocs, run) && n < |run| && At(run[n], t).Registering?
    ensures At(run[n], t).h in run[n].elems && (RegisteredAgain(run[n], t) <==> CoverBeingFreed(run[n], t))
  {
    RunInv(allocs, run, n);
    var w := run[n];
    assert ThreadOk(w, t);
    if RegisteredAgain(w, t) { CoverIsFreed(w, t); }
    if CoverBeingFreed(w, t) {
      var u, g :| StillFrees(w, u, g) && g in w.elems && Covers(w.elems[g], w.elems[At(w, t).h].range);
      FreedIsAnother(w, t, u, g);
    }
  }

  lemma CoverIsFreed(w: World, t: nat)
    requires Accounted(w) && (forall u :: ThreadOk(w, u)) && At(w, t).Registering? && At(w, t).h in w.elems && RegisteredAgain(w, t)
    ensures CoverBeingFreed(w, t)
  {
    assert ThreadOk(w, t);
    var g :| g in w.backend && g in w.elems && g != At(w, t).h && Covers(w.elems[g], w.elems[At(w, t).h].range);
    assert SomeOwner(w, g);
    var u :| g in Owned(At(w, u));
    OwnerFrees(w, t, u, g);
  }

  /**
   * A segment is cached exactly while more was granted on it than returned, and its count is the difference;
   * so askFree never sees a negative count.
   */
  lemma CountsAreDifferences(allocs: seq<Range>, run: seq<World>, n: nat, s: nat)
    requires Disjoint(allocs) && IsRun(allocs, run) && n < |run|
    ensures var w := run[n];
            && w.returned[s] <= w.granted[s]
            && (s in w.c.segs <==> w.returned[s] < w.granted[s])
            && (s in w.c.segs ==> w.c.segs[s].refCount as int == w.granted[s] as int - w.returned[s] as int)
  {
    RunInv(allocs, run, n);
    if s in run[n].c.segs { assert SegOk(allocs, run[n].c, s); }
  }
}
