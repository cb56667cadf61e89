/**
 * The memory registration cache on values: cached segments with their reference counts, registrations, and
 * the lists that relate the two. Each operation here is one region under the cache's locks.
 */
module RegCache {
  import opened Verbs
  import opened SegmentRanges

  datatype Segment = Segment(range: Range, ncclManaged: bool, refCount: int)

  datatype RegElem = RegElem(range: Range, isDynamic: bool, segments: seq<nat>)

  /** Handles are never reused: the next ones count up. */
  datatype Cache = Cache(
    segs: map<nat, Segment>,        // segmentsAvl_
    regs: map<nat, RegElem>,        // regHdlToElemMap
    listed: map<nat, seq<nat>>,     // segToRegElemsMap; handles of registrations that are gone stay in it
    nextSeg: nat,
    nextReg: nat)

  /** getDevMemType, then pinRange. */
  function Ranges(allocs: seq<Range>, ptr: nat, len: nat): Result<seq<Range>>
    requires Disjoint(allocs)
  {
    Pin(allocs, AddressRange(allocs, ptr).Ok?, ptr, len)
  }

  // ---------------------------------------------------------------- searches

  /** segmentsAvl->search: some cached segment that contains the range, if one does. */
  ghost predicate SegFound(c: Cache, r: Range, found: Option<nat>) {
    match found
    case Some(s) => s in c.segs && c.segs[s].range.Contains(r)
    case None => forall s | s in c.segs :: !c.segs[s].range.Contains(r)
  }

  /** searchRegElem: some registration that contains the buffer and is not dynamic, if there is one. */
  ghost predicate RegFound(c: Cache, r: Range, found: Option<nat>) {
    match found
    case Some(h) => h in c.regs && Covers(c.regs[h], r)
    case None => forall h | h in c.regs :: !Covers(c.regs[h], r)
  }

  ghost predicate Covers(e: RegElem, r: Range) { !e.isDynamic && e.range.Contains(r) }

  /** Each range's segment, in order, as far as all before it were found. */
  ghost predicate SegsFound(c: Cache, ranges: seq<Range>, found: Option<seq<nat>>) {
    match found
    case Some(ss) => |ss| == |ranges| && forall i | 0 <= i < |ss| :: ss[i] in c.segs && c.segs[ss[i]].range.Contains(ranges[i])
    case None => exists i :: 0 <= i < |ranges| && SegFound(c, ranges[i], None)
  }

  // ---------------------------------------------------------------- operations

  function AddRef(c: Cache, s: nat): Cache
    requires s in c.segs
  {
    c.(segs := c.segs[s := c.segs[s].(refCount := c.segs[s].refCount + 1)])
  }

  function AddSegment(c: Cache, r: Range, ncclManaged: bool): Cache {
    c.(segs := c.segs[c.nextSeg := Segment(r, ncclManaged, 1)], nextSeg := c.nextSeg + 1)
  }

  function SumLen(segs: map<nat, Segment>, ss: seq<nat>): nat
    requires forall s | s in ss :: s in segs
  {
    if ss == [] then 0 else SumLen(segs, ss[..|ss| - 1]) + segs[ss[|ss| - 1]].range.len
  }

  /** The registration of a run of cached segments. */
  function NewElem(c: Cache, ss: seq<nat>): RegElem
    requires ss != [] && forall s | s in ss :: s in c.segs
  {
    RegElem(Range(c.segs[ss[0]].range.buf, SumLen(c.segs, ss)), false, ss)
  }

  function Append(listed: map<nat, seq<nat>>, s: nat, h: nat): map<nat, seq<nat>> {
    listed[s := (if s in listed then listed[s] else []) + [h]]
  }

  function ListUnder(listed: map<nat, seq<nat>>, ss: seq<nat>, h: nat): map<nat, seq<nat>> {
    if ss == [] then listed else Append(ListUnder(listed, ss[..|ss| - 1], h), ss[|ss| - 1], h)
  }

  /** A registration joins the maps and the list of each of its segments. */
  function Insert(c: Cache, h: nat, e: RegElem): Cache {
    c.(regs := c.regs[h := e], listed := ListUnder(c.listed, e.segments, h))
  }

  /** The registrations among `hs` that are still there, each once, in order. */
  function StillThere(regs: set<nat>, hs: seq<nat>): seq<nat> {
    if hs == [] then []
    else
      var before := StillThere(regs, hs[..|hs| - 1]);
      var h := hs[|hs| - 1];
      if h in regs && h !in before then before + [h] else before
  }

  function ListedUnder(c: Cache, s: nat): seq<nat> { if s in c.listed then c.listed[s] else [] }

  /** What freeing a segment takes out of the cache and leaves to be deregistered. */
  function TakenOut(c: Cache, s: nat): seq<nat> { StillThere(c.regs.Keys, ListedUnder(c, s)) }

  function DropRef(c: Cache, s: nat): Cache
    requires s in c.segs
  {
    c.(segs := c.segs[s := c.segs[s].(refCount := c.segs[s].refCount - 1)])
  }

  function SetOf(hs: seq<nat>): set<nat> { set h | h in hs }

  function Release(c: Cache, s: nat): Cache {
    c.(segs := c.segs - {s}, regs := c.regs - SetOf(TakenOut(c, s)), listed := c.listed - {s})
  }

  // ---------------------------------------------------------------- invariant

  ghost predicate Listed(c: Cache, s: nat, h: nat) { s in c.listed && h in c.listed[s] }

  /**
   * The segments tile the range: in address order, none left out and none named twice, from the first address
   * of the range to its end.
   */
  ghost predicate Tiles(segs: map<nat, Segment>, e: RegElem) {
    var ss := e.segments;
    && ss != [] && (forall s | s in ss :: s in segs)
    && segs[ss[0]].range.buf == e.range.buf && End(segs[ss[|ss| - 1]].range) == End(e.range)
    && (forall i | 0 <= i < |ss| - 1 :: End(segs[ss[i]].range) == segs[ss[i + 1]].range.buf)
    && forall i | 0 <= i < |ss| - 1 :: segs[ss[i]].range.len > 0
  }

  function End(r: Range): nat { r.buf + r.len }

  /** Address a lies in a cached segment. */
  ghost predicate CachedAt(c: Cache, a: nat) { exists s :: s in c.segs && c.segs[s].range.Has(a) }

  /** Address a lies in a cached segment that the registration names, and that lists it. */
  ghost predicate HeldAt(c: Cache, h: nat, a: nat)
    requires h in c.regs
  {
    exists s :: s in c.regs[h].segments && s in c.segs && c.segs[s].range.Has(a) && Listed(c, s, h)
  }

  /** A cached registration keeps all its segments cached and is listed under each; a dynamic one has none. */
  ghost predicate RegOk(c: Cache, h: nat)
    requires h in c.regs
  {
    && h < c.nextReg
    && (c.regs[h].isDynamic <==> c.regs[h].segments == [])
    && (forall s | s in c.regs[h].segments :: s in c.segs && Listed(c, s, h))
    && (!c.regs[h].isDynamic ==> Tiles(c.segs, c.regs[h]))
  }

  ghost predicate ListOk(c: Cache, s: nat)
    requires s in c.listed
  {
    s in c.segs && forall h | h in c.listed[s] :: h < c.nextReg && (h in c.regs ==> s in c.regs[h].segments)
  }

  /** A cached segment is one whole cuMem allocation, or other memory that no cuMem allocation reaches into. */
  ghost predicate RangeOk(allocs: seq<Range>, r: Range) {
    r in allocs || (!Mapped(allocs, r.buf) && forall a: nat | r.Has(a) :: !Mapped(allocs, a))
  }

  ghost predicate SegOk(allocs: seq<Range>, c: Cache, s: nat)
    requires s in c.segs
  {
    s < c.nextSeg && c.segs[s].refCount >= 1 && RangeOk(allocs, c.segs[s].range)
  }

  /** No cached registration lies inside one that was made before it. */
  ghost predicate NoneInside(c: Cache) {
    forall g, h | g in c.regs && h in c.regs && g < h && !c.regs[h].isDynamic :: !Covers(c.regs[g], c.regs[h].range)
  }

  /** No allocation is cached twice. */
  ghost predicate OncePerAllocation(allocs: seq<Range>, c: Cache) {
    forall s, t | s in c.segs && t in c.segs && s != t && c.segs[s].range in allocs :: c.segs[s].range != c.segs[t].range
  }

  ghost predicate CacheInv(allocs: seq<Range>, c: Cache) {
    && (forall s | s in c.segs :: SegOk(allocs, c, s))
    && (forall h | h in c.regs :: RegOk(c, h))
    && (forall s | s in c.listed :: ListOk(c, s))
    && NoneInside(c) && OncePerAllocation(allocs, c)
  }

  /** Tiling only looks at the ranges of the segments it names. */
  lemma StillTiles(segs: map<nat, Segment>, segs': map<nat, Segment>, e: RegElem)
    requires Tiles(segs, e) && forall s | s in e.segments && s in segs :: s in segs' && segs'[s].range == segs[s].range
    ensures Tiles(segs', e)
  {
  }

  /** The cache's registrations and lists are as they were, and so are the segments they name. */
  ghost predicate SameRegs(c: Cache, c': Cache) {
    && c'.regs == c.regs && c'.listed == c.listed && c'.nextReg == c.nextReg
    && forall s | s in c.segs :: s in c'.segs && c'.segs[s].range == c.segs[s].range
  }

  lemma SameRegsOk(c: Cache, c': Cache)
    requires SameRegs(c, c') && (forall h | h in c.regs :: RegOk(c, h)) && (forall s | s in c.listed :: ListOk(c, s))
    ensures (forall h | h in c'.regs :: RegOk(c', h)) && (forall s | s in c'.listed :: ListOk(c', s))
  {
    forall h | h in c'.regs
      ensures RegOk(c', h)
    {
      assert RegOk(c, h);
      assert forall t :: Listed(c', t, h) <==> Listed(c, t, h);
      if !c.regs[h].isDynamic { StillTiles(c.segs, c'.segs, c.regs[h]); }
    }
    forall t | t in c'.listed ensures ListOk(c', t) { assert ListOk(c, t); }
  }

  lemma AddRefInv(allocs: seq<Range>, c: Cache, s: nat)
    requires CacheInv(allocs, c) && s in c.segs
    ensures CacheInv(allocs, AddRef(c, s))
  {
    var c' := AddRef(c, s);
    forall t | t in c'.segs ensures SegOk(allocs, c', t) { assert SegOk(allocs, c, t); }
    SameRegsOk(c, c');
  }

  lemma DropRefInv(allocs: seq<Range>, c: Cache, s: nat)
    requires CacheInv(allocs, c) && s in c.segs && c.segs[s].refCount > 1
    ensures CacheInv(allocs, DropRef(c, s))
  {
    var c' := DropRef(c, s);
    forall t | t in c'.segs ensures SegOk(allocs, c', t) { assert SegOk(allocs, c, t); }
    SameRegsOk(c, c');
  }

  lemma AddSegmentInv(allocs: seq<Range>, c: Cache, r: Range, ncclManaged: bool)
    requires CacheInv(allocs, c) && RangeOk(allocs, r) && (r in allocs ==> forall s | s in c.segs :: c.segs[s].range != r)
    ensures CacheInv(allocs, AddSegment(c, r, ncclManaged))
  {
    var c' := AddSegment(c, r, ncclManaged);
    forall t | t in c'.segs ensures SegOk(allocs, c', t) { assert t != c.nextSeg ==> SegOk(allocs, c, t); }
    forall t | t in c.segs ensures t != c.nextSeg { assert SegOk(allocs, c, t); }
    SameRegsOk(c, c');
  }

  lemma {:induction false} ListUnderIs(listed: map<nat, seq<nat>>, ss: seq<nat>, h: nat, s: nat, g: nat)
    ensures var after := ListUnder(listed, ss, h);
            && (s in after <==> s in listed || s in ss)
            && (s in after ==> (g in after[s] <==> (s in listed && g in listed[s]) || (s in ss && g == h)))
  {
    if ss != [] {
      ListUnderIs(listed, ss[..|ss| - 1], h, s, g);
      assert ss == ss[..|ss| - 1] + [ss[|ss| - 1]];
    }
  }

  /** Segments that tile a range are all different. */
  lemma TilesDistinct(segs: map<nat, Segment>, e: RegElem, i: nat, j: nat)
    requires Tiles(segs, e) && i < j < |e.segments|
    ensures segs[e.segments[i]].range.buf < segs[e.segments[j]].range.buf && e.segments[i] != e.segments[j]
    decreases j
  {
    if i < j - 1 { TilesDistinct(segs, e, i, j - 1); }
  }

  /** A registration joins the list of each of its segments once, behind those listed before it, and no other list. */
  lemma InsertLists(c: Cache, h: nat, e: RegElem, s: nat)
    requires !e.isDynamic && Tiles(c.segs, e)
    ensures ListedUnder(Insert(c, h, e), s) == ListedUnder(c, s) + if s in e.segments then [h] else []
  {
    forall i: nat, j: nat | i < j < |e.segments| ensures e.segments[i] != e.segments[j] { TilesDistinct(c.segs, e, i, j); }
    ListUnderAppends(c.listed, e.segments, h, s);
  }

  lemma {:induction false} ListUnderAppends(listed: map<nat, seq<nat>>, ss: seq<nat>, h: nat, s: nat)
    requires forall i, j | 0 <= i < j < |ss| :: ss[i] != ss[j]
    ensures var after := ListUnder(listed, ss, h);
            (if s in after then after[s] else []) == (if s in listed then listed[s] else []) + if s in ss then [h] else []
  {
    if ss != [] {
      var n := |ss| - 1;
      ListUnderAppends(listed, ss[..n], h, s);
      assert ss == ss[..n] + [ss[n]];
    }
  }

  /** A new registration may join when its segments are cached and it lies inside no cached registration. */
  ghost predicate MayJoin(c: Cache, h: nat, e: RegElem) {
    && h < c.nextReg && h !in c.regs
    && (forall s | s in c.listed :: h !in c.listed[s])
    && (e.isDynamic <==> e.segments == [])
    && (forall s | s in e.segments :: s in c.segs) && (!e.isDynamic ==> Tiles(c.segs, e))
    && (!e.isDynamic ==> forall g | g in c.regs :: !Covers(c.regs[g], e.range))
    && (!e.isDynamic ==> forall g | g in c.regs && !c.regs[g].isDynamic :: g < h)
  }

  lemma InsertInv(allocs: seq<Range>, c: Cache, h: nat, e: RegElem)
    requires CacheInv(allocs, c) && MayJoin(c, h, e)
    ensures CacheInv(allocs, Insert(c, h, e))
  {
    var c' := Insert(c, h, e);
    forall s | s in c'.segs ensures SegOk(allocs, c', s) { assert SegOk(allocs, c, s); }
    forall g | g in c'.regs
      ensures RegOk(c', g)
    {
      assert g != h ==> RegOk(c, g);
      forall s | s in c'.regs[g].segments ensures s in c'.segs && Listed(c', s, g) {
        ListUnderIs(c.listed, e.segments, h, s, g);
        assert g != h ==> Listed(c, s, g);
      }
    }
    forall s | s in c'.listed
      ensures ListOk(c', s)
    {
      ListUnderIs(c.listed, e.segments, h, s, h);
      assert s in c.listed ==> ListOk(c, s);
      forall g | g in c'.listed[s] ensures g < c'.nextReg && (g in c'.regs ==> s in c'.regs[g].segments) {
        ListUnderIs(c.listed, e.segments, h, s, g);
      }
    }
    NoneInsideAfter(c, h, e);
  }

  lemma NoneInsideAfter(c: Cache, h: nat, e: RegElem)
    requires NoneInside(c) && MayJoin(c, h, e)
    ensures NoneInside(Insert(c, h, e))
  {
    var c' := Insert(c, h, e);
    forall a, b | a in c'.regs && b in c'.regs && a < b && !c'.regs[b].isDynamic
      ensures !Covers(c'.regs[a], c'.regs[b].range)
    {
      assert a == h && !e.isDynamic ==> b < h;
    }
  }

  lemma {:induction false} StillThereIs(regs: set<nat>, hs: seq<nat>, h: nat)
    ensures h in StillThere(regs, hs) <==> h in regs && h in hs
    ensures forall i, j | 0 <= i < j < |StillThere(regs, hs)| :: StillThere(regs, hs)[i] != StillThere(regs, hs)[j]
  {
    if hs != [] {
      StillThereIs(regs, hs[..|hs| - 1], h);
      assert hs == hs[..|hs| - 1] + [hs[|hs| - 1]];
    }
  }

  /** What is taken out comes in the order in which it was first listed. */
  lemma {:induction false} StillThereOrder(regs: set<nat>, hs: seq<nat>, i: nat, j: nat) returns (p: nat)
    requires i < j < |StillThere(regs, hs)|
    ensures p < |hs| && hs[p] == StillThere(regs, hs)[i] && StillThere(regs, hs)[j] !in hs[..p + 1]
  {
    var n := |hs| - 1;
    var before := StillThere(regs, hs[..n]);
    if j < |before| {
      p := StillThereOrder(regs, hs[..n], i, j);
      assert hs[..n][..p + 1] == hs[..p + 1];
    } else {
      StillThereIs(regs, hs[..n], hs[n]);
      StillThereIs(regs, hs[..n], before[i]);
      p :| 0 <= p < n && hs[..n][p] == before[i];
      assert hs[..p + 1] <= hs[..n];
    }
  }

  /** Freeing a segment takes out exactly the cached registrations that use it. */
  lemma TakenOutExactly(allocs: seq<Range>, c: Cache, s: nat, h: nat)
    requires CacheInv(allocs, c)
    ensures h in TakenOut(c, s) <==> h in c.regs && s in c.regs[h].segments
    ensures h in TakenOut(c, s) ==> !c.regs[h].isDynamic
  {
    StillThereIs(c.regs.Keys, ListedUnder(c, s), h);
    if h in c.regs {
      assert RegOk(c, h);
      assert s in c.regs[h].segments ==> Listed(c, s, h);
      assert s in c.listed ==> ListOk(c, s);
    }
  }

  lemma ReleaseInv(allocs: seq<Range>, c: Cache, s: nat)
    requires CacheInv(allocs, c)
    ensures CacheInv(allocs, Release(c, s))
    ensures forall h | h in Release(c, s).regs :: s !in Release(c, s).regs[h].segments
  {
    var c' := Release(c, s);
    forall h | h in c'.regs
      ensures RegOk(c', h) && s !in c'.regs[h].segments
    {
      TakenOutExactly(allocs, c, s, h);
      assert RegOk(c, h);
      if !c.regs[h].isDynamic { StillTiles(c.segs, c'.segs, c.regs[h]); }
      forall t | t in c'.regs[h].segments ensures t in c'.segs && Listed(c', t, h) { assert Listed(c, t, h); }
    }
    forall t | t in c'.segs ensures SegOk(allocs, c', t) { assert SegOk(allocs, c, t); }
    forall t | t in c'.listed ensures ListOk(c', t) { assert ListOk(c, t); }
  }

  /** Using up a registration handle changes nothing else. */
  lemma NextRegInv(allocs: seq<Range>, c: Cache)
    requires CacheInv(allocs, c)
    ensures CacheInv(allocs, c.(nextReg := c.nextReg + 1))
  {
    var c' := c.(nextReg := c.nextReg + 1);
    forall s | s in c'.segs ensures SegOk(allocs, c', s) { assert SegOk(allocs, c, s); }
    forall h | h in c'.regs ensures RegOk(c', h) { assert RegOk(c, h); assert forall s :: Listed(c', s, h) <==> Listed(c, s, h); }
    forall s | s in c'.listed ensures ListOk(c', s) { assert ListOk(c, s); }
    assert c'.segs == c.segs && c'.regs == c.regs;
  }

  /** A fresh handle may join, for a dynamic registration or one that lies inside no cached one. */
  lemma FreshMayJoin(allocs: seq<Range>, c: Cache, e: RegElem)
    requires CacheInv(allocs, c)
    requires (e.isDynamic <==> e.segments == []) && (!e.isDynamic ==> Tiles(c.segs, e))
    requires !e.isDynamic ==> forall g | g in c.regs :: !Covers(c.regs[g], e.range)
    ensures MayJoin(c.(nextReg := c.nextReg + 1), c.nextReg, e)
  {
    forall s | s in c.listed ensures c.nextReg !in c.listed[s] { assert ListOk(c, s); }
    forall g | g in c.regs ensures g < c.nextReg { assert RegOk(c, g); }
  }

  /** Taking a dynamic registration out touches no segment's registrations. */
  lemma EraseDynamicInv(allocs: seq<Range>, c: Cache, h: nat)
    requires CacheInv(allocs, c)
    ensures CacheInv(allocs, c.(regs := c.regs - {h}))
  {
    var c' := c.(regs := c.regs - {h});
    forall g | g in c'.regs
      ensures RegOk(c', g)
    {
      assert RegOk(c, g);
      assert forall t :: Listed(c', t, g) <==> Listed(c, t, g);
    }
    forall t | t in c'.segs ensures SegOk(allocs, c', t) { assert SegOk(allocs, c, t); }
    forall t | t in c'.listed ensures ListOk(c', t) { assert ListOk(c, t); }
  }

  // ---------------------------------------------------------------- what a registration covers

  /** Behind cuMem memory, the cached segment that contains an allocation is that allocation. */
  lemma SegmentIsAllocation(allocs: seq<Range>, r: Range, seg: Range)
    requires Disjoint(allocs) && r in allocs && RangeOk(allocs, seg) && seg.Contains(r)
    ensures seg == r
  {
    assert r.Has(r.buf) && seg.Has(r.buf);
    MappedIn(allocs, r, r.buf);
    SameAllocation(allocs, r, seg, r.buf);
  }

  lemma {:induction false} SumIsTotal(segs: map<nat, Segment>, ss: seq<nat>, ranges: seq<Range>)
    requires |ss| == |ranges| && (forall s | s in ss :: s in segs)
    requires forall i | 0 <= i < |ss| :: segs[ss[i]].range == ranges[i]
    ensures SumLen(segs, ss) == TotalLen(ranges)
  {
    if ss != [] {
      var n := |ss| - 1;
      assert forall s | s in ss[..n] :: s in ss;
      SumIsTotal(segs, ss[..n], ranges[..n]);
    }
  }

  lemma OneSegment(segs: map<nat, Segment>, ss: seq<nat>)
    requires |ss| == 1 && ss[0] in segs
    ensures SumLen(segs, ss) == segs[ss[0]].range.len
  {
    assert ss[..0] == [];
  }

  /** A buffer in no cached segment lies behind memory that is not cached yet. */
  lemma NotYetCached(allocs: seq<Range>, c: Cache, ptr: nat, len: nat)
    requires Disjoint(allocs) && SegFound(c, Range(ptr, len), None)
    requires Ranges(allocs, ptr, len).Ok? && |Ranges(allocs, ptr, len).value| == 1
    ensures Ranges(allocs, ptr, len).value[0].Contains(Range(ptr, len))
    ensures forall s | s in c.segs :: c.segs[s].range != Ranges(allocs, ptr, len).value[0]
  {
    var rs := Ranges(allocs, ptr, len).value;
    if AddressRange(allocs, ptr).Ok? {
      PinCovers(allocs, ptr, len);
      assert rs[..|rs| - 1] == [] && TotalLen(rs) == rs[0].len;
    }
    assert rs[0].Contains(Range(ptr, len));
  }

  /** Tiling segments lie in the range and hold every address of it. */
  lemma {:induction false} TilesHold(segs: map<nat, Segment>, e: RegElem, a: nat)
    requires Tiles(segs, e)
    ensures forall i | 0 <= i < |e.segments| :: e.range.Contains(segs[e.segments[i]].range)
    ensures e.range.Has(a) ==> exists i :: 0 <= i < |e.segments| && segs[e.segments[i]].range.Has(a)
    decreases |e.segments|
  {
    var ss, n := e.segments, |e.segments| - 1;
    if n > 0 {
      BeginsBelow(segs, ss, n - 1);
      var before := Range(e.range.buf, End(segs[ss[n - 1]].range) - e.range.buf);
      TilesHold(segs, RegElem(before, false, ss[..n]), a);
      if before.Has(a) {
        var i :| 0 <= i < n && segs[ss[..n][i]].range.Has(a);
        assert segs[ss[i]].range.Has(a);
      }
    }
  }

  lemma {:induction false} BeginsBelow(segs: map<nat, Segment>, ss: seq<nat>, n: nat)
    requires n < |ss| && (forall s | s in ss :: s in segs)
    requires forall i | 0 <= i < |ss| - 1 :: End(segs[ss[i]].range) == segs[ss[i + 1]].range.buf
    ensures segs[ss[0]].range.buf <= segs[ss[n]].range.buf
  {
    if n > 0 { BeginsBelow(segs, ss, n - 1); }
  }

  /** No registration in the cache reaches past its segments: every address of it lies in a cached one that lists it. */
  lemma RegisteredIsHeld(allocs: seq<Range>, c: Cache, h: nat, a: nat)
    requires CacheInv(allocs, c) && h in c.regs && !c.regs[h].isDynamic && c.regs[h].range.Has(a)
    ensures HeldAt(c, h, a) && CachedAt(c, a)
  {
    assert RegOk(c, h);
    TilesHold(c.segs, c.regs[h], a);
  }

  lemma MappedIn(allocs: seq<Range>, r: Range, a: nat)
    requires r in allocs && r.Has(a)
    ensures Mapped(allocs, a)
  {
    var i :| 0 <= i < |allocs| && allocs[i] == r;
    assert allocs[i].Has(a);
  }

  lemma SameAllocation(allocs: seq<Range>, r: Range, q: Range, a: nat)
    requires Disjoint(allocs) && r in allocs && q in allocs && r.Has(a) && q.Has(a)
    ensures r == q
  {
    var i :| 0 <= i < |allocs| && allocs[i] == r;
    var j :| 0 <= j < |allocs| && allocs[j] == q;
    assert allocs[i].Has(a);
  }

  /** Two cached segments share an address only outside cuMem memory. */
  lemma SegmentsApart(allocs: seq<Range>, c: Cache, s: nat, t: nat, a: nat)
    requires Disjoint(allocs) && CacheInv(allocs, c) && s in c.segs && t in c.segs && s != t
    requires c.segs[s].range in allocs && c.segs[s].range.Has(a)
    ensures !c.segs[t].range.Has(a)
  {
    assert SegOk(allocs, c, t);
    MappedIn(allocs, c.segs[s].range, a);
    if c.segs[t].range.Has(a) { SameAllocation(allocs, c.segs[s].range, c.segs[t].range, a); }
  }

  /** Once a segment of cuMem memory is freed, nothing in the cache reaches into it. */
  lemma ReleasedIsUnreached(allocs: seq<Range>, c: Cache, s: nat, a: nat)
    requires Disjoint(allocs) && CacheInv(allocs, c) && s in c.segs && c.segs[s].range in allocs && c.segs[s].range.Has(a)
    ensures !CachedAt(Release(c, s), a)
    ensures forall h | h in Release(c, s).regs && !Release(c, s).regs[h].isDynamic :: !Release(c, s).regs[h].range.Has(a)
  {
    var c' := Release(c, s);
    ReleaseInv(allocs, c, s);
    forall t | t in c'.segs ensures !c'.segs[t].range.Has(a) { SegmentsApart(allocs, c, s, t, a); }
    forall h | h in c'.regs && !c'.regs[h].isDynamic ensures !c'.regs[h].range.Has(a) {
      if c'.regs[h].range.Has(a) { RegisteredIsHeld(allocs, c', h, a); }
    }
  }

  /**
   * The registration made for a request covers it: the segments found behind the request are the adjoining
   * allocations, so their lengths add up to the span from the first base.
   */
  lemma NewElemCovers(allocs: seq<Range>, c: Cache, ptr: nat, len: nat, ss: seq<nat>)
    requires Disjoint(allocs) && CacheInv(allocs, c) && Ranges(allocs, ptr, len).Ok?
    requires SegsFound(c, Ranges(allocs, ptr, len).value, Some(ss))
    ensures ss != [] && (forall s | s in ss :: s in c.segs) && Covers(NewElem(c, ss), Range(ptr, len)) && Tiles(c.segs, NewElem(c, ss))
    ensures AddressRange(allocs, ptr).Ok? ==>
      var rs := Ranges(allocs, ptr, len).value;
      rs != [] && NewElem(c, ss).range == Range(rs[0].buf, TotalLen(rs))
  {
    var ranges := Ranges(allocs, ptr, len).value;
    if AddressRange(allocs, ptr).Ok? {
      PinCovers(allocs, ptr, len);
      WalkFinds(allocs, ptr, ptr + len);
      forall i | 0 <= i < |ss| ensures c.segs[ss[i]].range == ranges[i] {
        assert SegOk(allocs, c, ss[i]);
        SegmentIsAllocation(allocs, ranges[i], c.segs[ss[i]].range);
      }
      SumIsTotal(c.segs, ss, ranges);
      SpansTile(allocs, c, ss, ranges, ptr, ptr + len);
    } else {
      assert ranges == [Range(ptr, len)];
      OneSegment(c.segs, ss);
    }
  }

  /** The segments of adjoining allocations tile the registration made of them. */
  lemma SpansTile(allocs: seq<Range>, c: Cache, ss: seq<nat>, ranges: seq<Range>, a: nat, end: nat)
    requires Disjoint(allocs) && Spans(allocs, ranges, a, end) && |ss| == |ranges| && (forall s | s in ss :: s in c.segs)
    requires (forall i | 0 <= i < |ss| :: c.segs[ss[i]].range == ranges[i]) && SumLen(c.segs, ss) == TotalLen(ranges)
    ensures Tiles(c.segs, NewElem(c, ss))
  {
    forall i | 0 <= i < |ss| ensures ranges[i].len > 0 { var j :| 0 <= j < |allocs| && allocs[j] == ranges[i]; }
  }
}
