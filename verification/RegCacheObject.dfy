/**
 * The registration cache as the object it is, for calls made one at a time: maps updated in place by loops,
 * and the profiler's current counters. Each method is tied to the regions of RegCache.
 */
module RegCacheObject {
  import opened Verbs
  import opened SegmentRanges
  import opened RegCache

  datatype Event = CacheSegEvent | FreeSegEvent | RegMemEvent | DeregMemEvent | DynamicRegMemEvent

  class CtranMapperRegCache {
    var segmentsAvl: map<nat, Segment>
    var regHdlToElemMap: map<nat, RegElem>
    var segToRegElemsMap: map<nat, seq<nat>>
    var nextSegHdl: nat
    var nextRegHdl: nat
    const profiling: bool
    var currentNumCache: int
    var currentNumReg: int
    /** The deregistrations handed to the backends so far, in order. */
    ghost var deregistered: seq<nat>

    ghost function View(): Cache reads this {
      Cache(segmentsAvl, regHdlToElemMap, segToRegElemsMap, nextSegHdl, nextRegHdl)
    }

    /** The current counters are the numbers of cached segments and of registrations, dynamic ones included. */
    ghost predicate Counted() reads this {
      profiling ==> currentNumCache == |segmentsAvl| && currentNumReg == |regHdlToElemMap|
    }

    ghost predicate Valid(allocs: seq<Range>) reads this { CacheInv(allocs, View()) && Counted() }

    constructor (profiling: bool)
      ensures View() == Cache(map[], map[], map[], 0, 0) && Counted() && deregistered == []
    {
      segmentsAvl, regHdlToElemMap, segToRegElemsMap, nextSegHdl, nextRegHdl := map[], map[], map[], 0, 0;
      this.profiling, currentNumCache, currentNumReg, deregistered := profiling, 0, 0, [];
    }

    /** CtranMapperRegCacheProfiler::record, as far as the current counters go */
    method Record(event: Event)
      modifies `currentNumCache, `currentNumReg
      ensures currentNumCache == old(currentNumCache) + if !profiling then 0
                else match event case CacheSegEvent => 1 case FreeSegEvent => -1 case _ => 0
      ensures currentNumReg == old(currentNumReg) + if !profiling then 0
                else match event case RegMemEvent => 1 case DeregMemEvent => -1 case _ => 0
    {
      if !profiling {
        return;
      }
      match event {
        case FreeSegEvent => currentNumCache := currentNumCache - 1;
        case DeregMemEvent => currentNumReg := currentNumReg - 1;
        case CacheSegEvent => currentNumCache := currentNumCache + 1;
        case RegMemEvent => currentNumReg := currentNumReg + 1;
        case DynamicRegMemEvent =>
      }
    }

    /** segmentsAvl->search. The search may return any cached segment that contains the range. */
    method SearchSegment(r: Range) returns (found: Option<nat>)
      ensures SegFound(View(), r, found)
    {
      var left := segmentsAvl.Keys;
      while left != {}
        invariant left <= segmentsAvl.Keys
        invariant forall s | s in segmentsAvl && s !in left :: !segmentsAvl[s].range.Contains(r)
      {
        var s :| s in left;
        var range := segmentsAvl[s].range;
        if range.buf <= r.buf && r.buf + r.len <= range.buf + range.len {
          return Some(s);
        }
        left := left - {s};
      }
      return None;
    }

    /** searchRegElem: the first registration met that contains the buffer, dynamic ones skipped */
    method SearchRegElem(r: Range) returns (found: Option<nat>)
      ensures RegFound(View(), r, found)
      ensures found.Some? ==> found.value in regHdlToElemMap
      ensures found.Some? ==> var e := regHdlToElemMap[found.value]; !e.isDynamic && e.range.buf <= r.buf && End(r) <= End(e.range)
      ensures found.None? ==>
        forall h | h in regHdlToElemMap && !regHdlToElemMap[h].isDynamic ::
          r.buf < regHdlToElemMap[h].range.buf || End(regHdlToElemMap[h].range) < End(r)
    {
      var left := regHdlToElemMap.Keys;
      while left != {}
        invariant left <= regHdlToElemMap.Keys
        invariant forall h | h in regHdlToElemMap && h !in left :: !Covers(regHdlToElemMap[h], r)
      {
        var h :| h in left;
        left := left - {h};
        var e := regHdlToElemMap[h];
        if e.isDynamic {
          continue;
        }
        if e.range.buf <= r.buf && r.buf + r.len <= e.range.buf + e.range.len {
          return Some(h);
        }
      }
      return None;
    }

    /**
     * cacheSegment. A buffer that is not cached yet and lies behind more than one allocation makes the program
     * abort. A buffer outside cuMem memory that runs into it is not among the inputs.
     */
    method CacheSegment(allocs: seq<Range>, ptr: nat, len: nat, ncclManaged: bool) returns (r: Result<nat>)
      requires Disjoint(allocs) && Valid(allocs)
      requires AddressRange(allocs, ptr).Err? ==> forall a: nat | ptr <= a < ptr + len :: !Mapped(allocs, a)
      modifies this
      ensures Valid(allocs) && deregistered == old(deregistered)
      ensures r.Err? ==> View() == old(View()) && NotCached(allocs, View(), Range(ptr, len), r.error)
      ensures r.Ok? ==> CachedAs(allocs, old(View()), View(), Range(ptr, len), ncclManaged, r.value)
      ensures r.Ok? ==> r.value in segmentsAvl && segmentsAvl[r.value].range.buf <= ptr && ptr + len <= End(segmentsAvl[r.value].range)
      ensures r.Ok? && r.value in old(segmentsAvl) ==>
        segmentsAvl == old(segmentsAvl)[r.value := segmentsAvl[r.value]]
        && segmentsAvl[r.value] == old(segmentsAvl)[r.value].(refCount := old(segmentsAvl)[r.value].refCount + 1)
      ensures r.Ok? && r.value !in old(segmentsAvl) ==>
        segmentsAvl == old(segmentsAvl)[r.value := segmentsAvl[r.value]]
        && segmentsAvl[r.value].refCount == 1 && segmentsAvl[r.value].ncclManaged == ncclManaged
        && forall s | s in old(segmentsAvl) :: ptr < old(segmentsAvl)[s].range.buf || End(old(segmentsAvl)[s].range) < ptr + len
    {
      var found := SearchSegment(Range(ptr, len));
      if found.Some? {
        TakeRef(allocs, found.value);
        return Ok(found.value);
      }
      var cumem := AddressRange(allocs, ptr).Ok?;
      var ranges := PinRange(allocs, cumem, ptr, len);
      if ranges.Err? {
        return Err(ranges.error);
      }
      if cumem { PinCovers(allocs, ptr, len); } else { AddressFound(allocs, ptr); }
      if |ranges.value| != 1 {
        return Err(Aborted);
      }
      NotYetCached(allocs, View(), ptr, len);
      var s := NewSegment(allocs, ranges.value[0], ncclManaged);
      return Ok(s);
    }

    /** No cached segment contains the buffer, and none can be made: it is not mapped, or spans allocations. */
    static ghost predicate NotCached(allocs: seq<Range>, c: Cache, buffer: Range, error: Error)
      requires Disjoint(allocs)
    {
      && SegFound(c, buffer, None)
      && match Ranges(allocs, buffer.buf, buffer.len)
         case Err(e) => error == e
         case Ok(ranges) => error == Aborted && |ranges| != 1
    }

    /** One more reference to a cached segment that contains the buffer, or a new segment if there is none. */
    static ghost predicate CachedAs(allocs: seq<Range>, c: Cache, c': Cache, buffer: Range, ncclManaged: bool, s: nat)
      requires Disjoint(allocs)
    {
      if SegFound(c, buffer, Some(s)) then c' == AddRef(c, s)
      else
        && SegFound(c, buffer, None) && Ranges(allocs, buffer.buf, buffer.len).Ok?
        && |Ranges(allocs, buffer.buf, buffer.len).value| == 1
        && s == c.nextSeg && c' == AddSegment(c, Ranges(allocs, buffer.buf, buffer.len).value[0], ncclManaged)
    }

    method TakeRef(allocs: seq<Range>, s: nat)
      requires Valid(allocs) && s in segmentsAvl
      modifies `segmentsAvl
      ensures Valid(allocs) && View() == AddRef(old(View()), s)
    {
      AddRefInv(allocs, View(), s);
      CountRef(s);
    }

    method CountRef(s: nat)
      requires s in segmentsAvl
      modifies `segmentsAvl
      ensures View() == AddRef(old(View()), s) && segmentsAvl.Keys == old(segmentsAvl).Keys
    {
      segmentsAvl := segmentsAvl[s := segmentsAvl[s].(refCount := segmentsAvl[s].refCount + 1)];
    }

    method NewSegment(allocs: seq<Range>, range: Range, ncclManaged: bool) returns (s: nat)
      requires Valid(allocs) && RangeOk(allocs, range)
      requires range in allocs ==> forall s | s in segmentsAvl :: segmentsAvl[s].range != range
      modifies `segmentsAvl, `nextSegHdl, `currentNumCache, `currentNumReg
      ensures Valid(allocs) && s == old(nextSegHdl) && View() == AddSegment(old(View()), range, ncclManaged)
    {
      AddSegmentInv(allocs, View(), range, ncclManaged);
      FreshSegHandle(allocs);
      s := EnterSegment(range, ncclManaged);
    }

    method EnterSegment(range: Range, ncclManaged: bool) returns (s: nat)
      requires Counted() && nextSegHdl !in segmentsAvl
      modifies `segmentsAvl, `nextSegHdl, `currentNumCache, `currentNumReg
      ensures Counted() && s == old(nextSegHdl) && View() == AddSegment(old(View()), range, ncclManaged)
    {
      s := nextSegHdl;
      segmentsAvl := segmentsAvl[s := Segment(range, ncclManaged, 1)];
      nextSegHdl := nextSegHdl + 1;
      Record(CacheSegEvent);
    }

    lemma FreshSegHandle(allocs: seq<Range>)
      requires CacheInv(allocs, View())
      ensures nextSegHdl !in segmentsAvl && nextRegHdl !in regHdlToElemMap
      ensures forall s | s in segToRegElemsMap :: nextRegHdl !in segToRegElemsMap[s]
      ensures forall h | h in regHdlToElemMap :: h < nextRegHdl
    {
      forall s | s in segmentsAvl ensures s != nextSegHdl { assert SegOk(allocs, View(), s); }
      forall h | h in regHdlToElemMap ensures h < nextRegHdl { assert RegOk(View(), h); }
      forall s | s in segToRegElemsMap ensures nextRegHdl !in segToRegElemsMap[s] { assert ListOk(View(), s); }
    }

    /** The segments behind the ranges, with their total length; nothing once one is not cached. */
    method FindSegments(ranges: seq<Range>) returns (found: Option<seq<nat>>, lenToReg: nat)
      ensures SegsFound(View(), ranges, found)
      ensures found.Some? ==> (forall s | s in found.value :: s in segmentsAvl) && lenToReg == SumLen(segmentsAvl, found.value)
    {
      var segments: seq<nat> := [];
      lenToReg := 0;
      for i := 0 to |ranges|
        invariant |segments| == i && SegsFound(View(), ranges[..i], Some(segments))
        invariant (forall s | s in segments :: s in segmentsAvl) && lenToReg == SumLen(segmentsAvl, segments)
      {
        var s := SearchSegment(ranges[i]);
        if s.None? {
          return None, lenToReg;
        }
        assert (segments + [s.value])[..i] == segments;
        segments := segments + [s.value];
        lenToReg := lenToReg + segmentsAvl[s.value].range.len;
      }
      assert ranges[..|ranges|] == ranges;
      return Some(segments), lenToReg;
    }

    /** A registration with the backends, entered in the maps; both run under the segment lock. */
    method Enter(allocs: seq<Range>, e: RegElem) returns (h: nat)
      requires Valid(allocs)
      requires (e.isDynamic <==> e.segments == []) && (!e.isDynamic ==> Tiles(segmentsAvl, e))
      requires !e.isDynamic ==> forall g | g in regHdlToElemMap :: !Covers(regHdlToElemMap[g], e.range)
      modifies this
      ensures Valid(allocs) && h == old(nextRegHdl) && deregistered == old(deregistered)
      ensures View() == Insert(old(View()).(nextReg := h + 1), h, e)
    {
      EnterInv(allocs, View(), e);
      h := EnterMaps(e);
    }

    static lemma EnterInv(allocs: seq<Range>, c: Cache, e: RegElem)
      requires CacheInv(allocs, c)
      requires (e.isDynamic <==> e.segments == []) && (!e.isDynamic ==> Tiles(c.segs, e))
      requires !e.isDynamic ==> forall g | g in c.regs :: !Covers(c.regs[g], e.range)
      ensures c.nextReg !in c.regs && CacheInv(allocs, Insert(c.(nextReg := c.nextReg + 1), c.nextReg, e))
    {
      FreshMayJoin(allocs, c, e);
      NextRegInv(allocs, c);
      InsertInv(allocs, c.(nextReg := c.nextReg + 1), c.nextReg, e);
    }

    method EnterMaps(e: RegElem) returns (h: nat)
      requires Counted() && nextRegHdl !in regHdlToElemMap
      modifies this
      ensures Counted() && h == old(nextRegHdl) && deregistered == old(deregistered)
      ensures View() == Insert(old(View()).(nextReg := h + 1), h, e)
    {
      h := nextRegHdl;
      nextRegHdl := nextRegHdl + 1;
      regHdlToElemMap := regHdlToElemMap[h := e];
      ListElem(e.segments, h);
      RecordRegistration(e.isDynamic);
    }

    /** The registration joins the list of each of its segments. */
    method ListElem(segments: seq<nat>, h: nat)
      modifies `segToRegElemsMap
      ensures segToRegElemsMap == ListUnder(old(segToRegElemsMap), segments, h)
    {
      for i := 0 to |segments|
        invariant segToRegElemsMap == ListUnder(old(segToRegElemsMap), segments[..i], h)
      {
        assert segments[..i + 1][..i] == segments[..i];
        segToRegElemsMap := Append(segToRegElemsMap, segments[i], h);
      }
      assert segments[..|segments|] == segments;
    }

    method RecordRegistration(isDynamic: bool)
      modifies `currentNumCache, `currentNumReg
      ensures currentNumCache == old(currentNumCache) && currentNumReg == old(currentNumReg) + if profiling then 1 else 0
    {
      if isDynamic {
        Record(DynamicRegMemEvent);
      }
      Record(RegMemEvent);
    }

    /** regRange, run on its own */
    method RegRange(allocs: seq<Range>, ptr: nat, len: nat) returns (r: Result<Option<nat>>, didRegister: bool)
      requires Disjoint(allocs) && Valid(allocs)
      modifies this
      ensures Valid(allocs) && deregistered == old(deregistered)
      ensures r.Ok? && r.value.Some? ==>
        && r.value.value in regHdlToElemMap && Covers(regHdlToElemMap[r.value.value], Range(ptr, len))
        && !regHdlToElemMap[r.value.value].isDynamic
        && regHdlToElemMap[r.value.value].range.buf <= ptr && ptr + len <= End(regHdlToElemMap[r.value.value].range)
        && forall a: nat | regHdlToElemMap[r.value.value].range.Has(a) :: HeldAt(View(), r.value.value, a)
      ensures !didRegister ==> View() == old(View())
      ensures r.Err? <==> RegFound(old(View()), Range(ptr, len), None) && Ranges(allocs, ptr, len).Err?
      ensures r.Ok? && r.value.None? <==>
        && RegFound(old(View()), Range(ptr, len), None) && Ranges(allocs, ptr, len).Ok?
        && SegsFound(old(View()), Ranges(allocs, ptr, len).value, None)
      ensures didRegister ==>
        && RegFound(old(View()), Range(ptr, len), None) && Ranges(allocs, ptr, len).Ok?
        && r == Ok(Some(old(nextRegHdl)))
        && exists ss: seq<nat> :: RegisteredFrom(old(View()), View(), Ranges(allocs, ptr, len).value, ss)
    {
      var found := SearchRegElem(Range(ptr, len));
      if found.None? {
        found := SearchRegElem(Range(ptr, len));
      }
      if found.Some? {
        AllHeld(allocs, View(), found.value);
        return Ok(found), false;
      }
      r, didRegister := RegisterBuffer(allocs, ptr, len);
      if didRegister {
        AllHeld(allocs, View(), r.value.value);
      }
    }

    /** The rest of regRange, when no registration contains the buffer. */
    method RegisterBuffer(allocs: seq<Range>, ptr: nat, len: nat) returns (r: Result<Option<nat>>, didRegister: bool)
      requires Disjoint(allocs) && Valid(allocs) && RegFound(View(), Range(ptr, len), None)
      modifies this
      ensures Valid(allocs) && deregistered == old(deregistered) && (!didRegister ==> View() == old(View()))
      ensures r.Err? <==> Ranges(allocs, ptr, len).Err?
      ensures r.Ok? && r.value.None? <==> Ranges(allocs, ptr, len).Ok? && SegsFound(old(View()), Ranges(allocs, ptr, len).value, None)
      ensures didRegister <==> r.Ok? && r.value.Some?
      ensures didRegister ==>
        && r == Ok(Some(old(nextRegHdl))) && r.value.value in regHdlToElemMap && Covers(regHdlToElemMap[r.value.value], Range(ptr, len))
        && exists ss: seq<nat> :: RegisteredFrom(old(View()), View(), Ranges(allocs, ptr, len).value, ss)
    {
      var ranges := PinRange(allocs, AddressRange(allocs, ptr).Ok?, ptr, len);
      if ranges.Err? {
        return Err(ranges.error), false;
      }
      var segments, lenToReg := FindSegments(ranges.value);
      if segments.None? {
        return Ok(None), false;
      }
      var h := RegisterSegments(allocs, ptr, len, segments.value, lenToReg);
      return Ok(Some(h)), true;
    }

    static lemma AllHeld(allocs: seq<Range>, c: Cache, h: nat)
      requires CacheInv(allocs, c) && h in c.regs && !c.regs[h].isDynamic
      ensures forall a: nat | c.regs[h].range.Has(a) :: HeldAt(c, h, a)
    {
      forall a: nat | c.regs[h].range.Has(a) ensures HeldAt(c, h, a) { RegisteredIsHeld(allocs, c, h, a); }
    }

    /** The one new registration spans segments that contain the ranges. */
    static ghost predicate RegisteredFrom(c: Cache, c': Cache, ranges: seq<Range>, ss: seq<nat>) {
      && SegsFound(c, ranges, Some(ss)) && ss != [] && (forall s | s in ss :: s in c.segs)
      && c' == Insert(c.(nextReg := c.nextReg + 1), c.nextReg, NewElem(c, ss))
    }

    method RegisterSegments(allocs: seq<Range>, ptr: nat, len: nat, ss: seq<nat>, lenToReg: nat) returns (h: nat)
      requires Disjoint(allocs) && Valid(allocs) && Ranges(allocs, ptr, len).Ok?
      requires SegsFound(View(), Ranges(allocs, ptr, len).value, Some(ss)) && RegFound(View(), Range(ptr, len), None)
      requires (forall s | s in ss :: s in segmentsAvl) && lenToReg == SumLen(segmentsAvl, ss)
      modifies this
      ensures Valid(allocs) && h == old(nextRegHdl) && deregistered == old(deregistered)
      ensures RegisteredFrom(old(View()), View(), Ranges(allocs, ptr, len).value, ss)
      ensures h in regHdlToElemMap && Covers(regHdlToElemMap[h], Range(ptr, len))
    {
      NewElemCovers(allocs, View(), ptr, len, ss);
      FreshSegHandle(allocs);
      var e := RegElem(Range(segmentsAvl[ss[0]].range.buf, lenToReg), false, ss);
      h := Enter(allocs, e);
    }

    /** regDynamic */
    method RegDynamic(allocs: seq<Range>, ptr: nat, len: nat) returns (r: Result<nat>)
      requires Disjoint(allocs) && Valid(allocs)
      modifies this
      ensures Valid(allocs) && deregistered == old(deregistered)
      ensures r.Err? ==> View() == old(View()) && Ranges(allocs, ptr, len).Err?
      ensures r.Ok? ==>
        && Ranges(allocs, ptr, len).Ok? && r.value == old(nextRegHdl) && Ranges(allocs, ptr, len).value != []
        && r.value in regHdlToElemMap && var rs, e := Ranges(allocs, ptr, len).value, regHdlToElemMap[r.value];
        && e == RegElem(Range(rs[0].buf, TotalLen(rs)), true, []) && e.range.buf <= ptr && ptr + len <= End(e.range)
        && View() == old(View()).(regs := old(View()).regs[r.value := regHdlToElemMap[r.value]], nextReg := r.value + 1)
    {
      var cumem := AddressRange(allocs, ptr).Ok?;
      var ranges := PinRange(allocs, cumem, ptr, len);
      if ranges.Err? {
        return Err(ranges.error);
      }
      var lenToReg := 0;
      for i := 0 to |ranges.value|
        invariant lenToReg == TotalLen(ranges.value[..i])
      {
        assert ranges.value[..i + 1][..i] == ranges.value[..i];
        lenToReg := lenToReg + ranges.value[i].len;
      }
      assert ranges.value[..|ranges.value|] == ranges.value;
      if cumem { PinCovers(allocs, ptr, len); } else { assert ranges.value[..0] == []; }
      FreshSegHandle(allocs);
      var h := Enter(allocs, RegElem(Range(ranges.value[0].buf, lenToReg), true, []));
      return Ok(h);
    }

    method DeregElem(h: nat)
      modifies `currentNumCache, `currentNumReg, `deregistered
      ensures currentNumCache == old(currentNumCache)
      ensures currentNumReg == old(currentNumReg) - if profiling then 1 else 0
      ensures deregistered == old(deregistered) + [h]
    {
      deregistered := deregistered + [h];
      Record(DeregMemEvent);
    }

    /** deregDynamic */
    method DeregDynamic(allocs: seq<Range>, h: nat) returns (r: Result<()>)
      requires Valid(allocs)
      modifies this
      ensures Valid(allocs)
      ensures if h in old(regHdlToElemMap)
              then r == Ok(()) && View() == old(View()).(regs := old(View()).regs - {h}) && deregistered == old(deregistered) + [h]
              else r == Err(InvalidArgument) && View() == old(View()) && deregistered == old(deregistered)
    {
      if h !in regHdlToElemMap {
        return Err(InvalidArgument);
      }
      EraseDynamicInv(allocs, View(), h);
      regHdlToElemMap := regHdlToElemMap - {h};
      DeregElem(h);
      return Ok(());
    }

    /** getRegElems: everything listed under the segment, registrations that are gone included */
    method GetRegElems(s: nat) returns (hs: seq<nat>)
      ensures hs == if s in segmentsAvl then ListedUnder(View(), s) else []
    {
      hs := [];
      if s in segmentsAvl && s in segToRegElemsMap {
        hs := segToRegElemsMap[s];
      }
    }

    /** The loop of freeSegment over the handles listed under the segment. */
    method TakeOut(hs: seq<nat>) returns (taken: seq<nat>)
      modifies `regHdlToElemMap
      ensures taken == StillThere(old(regHdlToElemMap).Keys, hs)
      ensures regHdlToElemMap == old(regHdlToElemMap) - SetOf(taken)
      ensures |regHdlToElemMap| == |old(regHdlToElemMap)| - |taken|
    {
      taken := [];
      for i := 0 to |hs|
        invariant TakenSoFar(old(regHdlToElemMap), hs[..i], taken)
      {
        assert hs[..i + 1] == hs[..i] + [hs[i]];
        taken := TakeOne(old(regHdlToElemMap), hs[..i], taken, hs[i]);
      }
      assert hs[..|hs|] == hs;
    }

    ghost predicate TakenSoFar(before: map<nat, RegElem>, hs: seq<nat>, taken: seq<nat>)
      reads this
    {
      && taken == StillThere(before.Keys, hs)
      && regHdlToElemMap == before - SetOf(taken)
      && |regHdlToElemMap| == |before| - |taken|
    }

    method TakeOne(ghost before: map<nat, RegElem>, ghost hs: seq<nat>, taken: seq<nat>, h: nat) returns (taken': seq<nat>)
      requires TakenSoFar(before, hs, taken)
      modifies `regHdlToElemMap
      ensures TakenSoFar(before, hs + [h], taken')
    {
      taken' := taken;
      assert (hs + [h])[..|hs|] == hs;
      if h in regHdlToElemMap {
        assert SetOf(taken + [h]) == SetOf(taken) + {h};
        EraseOne(regHdlToElemMap, h);
        taken' := taken + [h];
        regHdlToElemMap := regHdlToElemMap - {h};
      }
    }

    static lemma EraseOne<V>(m: map<nat, V>, h: nat)
      requires h in m
      ensures |m - {h}| == |m| - 1
    {
      assert m.Keys == (m - {h}).Keys + {h};
    }

    /** freeSegment, run on its own: (freed, the registrations deregistered) */
    method FreeSegment(allocs: seq<Range>, s: nat) returns (r: Result<(bool, seq<nat>)>)
      requires Valid(allocs)
      modifies this
      ensures Valid(allocs)
      ensures s !in old(segmentsAvl) ==> r == Err(InvalidArgument) && View() == old(View()) && deregistered == old(deregistered)
      ensures s in old(segmentsAvl) ==>
        r == if old(segmentsAvl)[s].refCount == 1 then Ok((true, TakenOut(old(View()), s))) else Ok((false, []))
      ensures s in old(segmentsAvl) && old(segmentsAvl)[s].refCount == 1 ==>
        View() == Release(old(View()), s) && deregistered == old(deregistered) + TakenOut(old(View()), s)
      ensures s in old(segmentsAvl) && old(segmentsAvl)[s].refCount != 1 ==>
        View() == DropRef(old(View()), s) && deregistered == old(deregistered)
    {
      if s !in segmentsAvl {
        return Err(InvalidArgument);
      }
      assert SegOk(allocs, View(), s);
      var last := AskFree(s);
      if !last {
        DropRefInv(allocs, old(View()), s);
        return Ok((false, []));
      }
      var taken := ReleaseSegment(allocs, s, old(View()));
      return Ok((true, taken));
    }

    /** askFree: drops a reference and says whether it was the last */
    method AskFree(s: nat) returns (last: bool)
      requires s in segmentsAvl && segmentsAvl[s].refCount >= 1
      modifies `segmentsAvl
      ensures View() == DropRef(old(View()), s) && segmentsAvl.Keys == old(segmentsAvl).Keys
      ensures last <==> old(segmentsAvl)[s].refCount == 1
    {
      segmentsAvl := segmentsAvl[s := segmentsAvl[s].(refCount := segmentsAvl[s].refCount - 1)];
      last := segmentsAvl[s].refCount == 0;
    }

    method ReleaseSegment(allocs: seq<Range>, s: nat, ghost before: Cache) returns (taken: seq<nat>)
      requires CacheInv(allocs, before) && Counted() && s in before.segs && View() == DropRef(before, s)
      modifies this
      ensures Valid(allocs) && taken == TakenOut(before, s) && View() == Release(before, s)
      ensures deregistered == old(deregistered) + taken
    {
      assert segmentsAvl - {s} == before.segs - {s};
      taken := ReleaseMaps(s);
      ReleaseInv(allocs, before, s);
    }

    method ReleaseMaps(s: nat) returns (taken: seq<nat>)
      requires Counted() && s in segmentsAvl
      modifies this
      ensures Counted() && taken == TakenOut(old(View()), s) && View() == Release(old(View()), s)
      ensures deregistered == old(deregistered) + taken
    {
      taken := TakeSegment(s);
      DeregisterAll(taken);
    }

    /** What happens under the locks: the registrations listed under the segment go, and the segment with its list. */
    method TakeSegment(s: nat) returns (taken: seq<nat>)
      requires s in segmentsAvl
      modifies `segmentsAvl, `segToRegElemsMap, `regHdlToElemMap
      ensures taken == TakenOut(old(View()), s) && View() == Release(old(View()), s)
      ensures |segmentsAvl| == |old(segmentsAvl)| - 1 && |regHdlToElemMap| == |old(regHdlToElemMap)| - |taken|
    {
      var hs := if s in segToRegElemsMap then segToRegElemsMap[s] else [];
      taken := TakeOut(hs);
      DropSegment(s);
    }

    /** The segment leaves the tree and its list goes. */
    method DropSegment(s: nat)
      requires s in segmentsAvl
      modifies `segmentsAvl, `segToRegElemsMap
      ensures segmentsAvl == old(segmentsAvl) - {s} && |segmentsAvl| == |old(segmentsAvl)| - 1
      ensures segToRegElemsMap == old(segToRegElemsMap) - {s}
    {
      EraseOne(segmentsAvl, s);
      segToRegElemsMap := segToRegElemsMap - {s};
      segmentsAvl := segmentsAvl - {s};
    }

    /** After the locks are released: every registration taken out goes to the backends, then the event is recorded. */
    method DeregisterAll(hs: seq<nat>)
      modifies `currentNumCache, `currentNumReg, `deregistered
      ensures deregistered == old(deregistered) + hs
      ensures currentNumCache == old(currentNumCache) - if profiling then 1 else 0
      ensures currentNumReg == old(currentNumReg) - if profiling then |hs| else 0
    {
      for i := 0 to |hs|
        invariant deregistered == old(deregistered) + hs[..i] && currentNumCache == old(currentNumCache)
        invariant currentNumReg == old(currentNumReg) - if profiling then i else 0
      {
        DeregElem(hs[i]);
      }
      Record(FreeSegEvent);
    }
  }
}
