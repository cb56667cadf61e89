/**
 * One communicator's mapper over the registration cache: which peers it has exported a registration to, and
 * the release messages it owes them before the registration goes. Calls are made one at a time.
 */
module Mapper {
  import opened Verbs
  import opened SegmentRanges
  import opened RegCache
  import opened RegCacheObject

  datatype Backend = Nvl | Ib | TcpDm | Unset

  /** What the mapper did, in order; Dropped is a deregistration that skips the remote release. */
  datatype Happening =
    | Exported(h: nat, peer: nat)
    | Released(h: nat, peer: nat)
    | Dropped(h: nat)
    | Deregistered(h: nat)

  /** The peers that hold an export of h and have not been told to release it. */
  ghost function Owed(events: seq<Happening>, h: nat): set<nat> {
    if events == [] then {} else OwedThen(Owed(events[..|events| - 1], h), events[|events| - 1], h)
  }

  ghost function OwedThen(before: set<nat>, next: Happening, h: nat): set<nat> {
    if next.h != h || next.Deregistered? then before
    else if next.Exported? then before + {next.peer}
    else if next.Released? then before - {next.peer}
    else {}
  }

  /** What may happen next: only what is owed is released, and only what owes nothing is deregistered, once. */
  ghost predicate Fits(events: seq<Happening>, next: Happening) {
    && (!next.Dropped? ==> Deregistered(next.h) !in events)
    && (next.Released? ==> next.peer in Owed(events, next.h))
    && (next.Deregistered? ==> Owed(events, next.h) == {})
  }

  ghost predicate Proper(events: seq<Happening>) {
    forall i | 0 <= i < |events| :: Fits(events[..i], events[i])
  }

  lemma OwedAppend(events: seq<Happening>, next: Happening, h: nat)
    ensures Owed(events + [next], h) == OwedThen(Owed(events, h), next, h)
  {
    assert (events + [next])[..|events|] == events;
  }

  lemma ProperAppend(events: seq<Happening>, next: Happening)
    requires Proper(events) && Fits(events, next)
    ensures Proper(events + [next])
  {
    forall i | 0 <= i < |events| + 1
      ensures Fits((events + [next])[..i], (events + [next])[i])
    {
      assert (events + [next])[..i] == events[..i];
      if i == |events| { assert events[..i] == events; }
    }
  }

  /** What is owed stays owed until it is released or dropped. */
  lemma {:induction false} OwedStays(events: seq<Happening>, h: nat, peer: nat, lo: nat, hi: nat)
    requires lo <= hi <= |events| && peer in Owed(events[..lo], h)
    requires forall k | lo <= k < hi :: events[k] != Released(h, peer) && events[k] != Dropped(h)
    ensures peer in Owed(events[..hi], h)
    decreases hi
  {
    if lo < hi {
      OwedStays(events, h, peer, lo, hi - 1);
      assert events[..hi] == events[..hi - 1] + [events[hi - 1]];
      OwedAppend(events[..hi - 1], events[hi - 1], h);
    }
  }

  lemma {:induction false} NotOwedStays(events: seq<Happening>, h: nat, peer: nat, lo: nat, hi: nat)
    requires lo <= hi <= |events| && peer !in Owed(events[..lo], h)
    requires forall k | lo <= k < hi :: events[k] != Exported(h, peer)
    ensures peer !in Owed(events[..hi], h)
    decreases hi
  {
    if lo < hi {
      NotOwedStays(events, h, peer, lo, hi - 1);
      assert events[..hi] == events[..hi - 1] + [events[hi - 1]];
      OwedAppend(events[..hi - 1], events[hi - 1], h);
    }
  }

  lemma OwedAfter(events: seq<Happening>, i: nat, h: nat)
    requires i < |events|
    ensures events[..i + 1] == events[..i] + [events[i]]
    ensures events[i].Exported? && events[i].h == h ==> events[i].peer in Owed(events[..i + 1], h)
    ensures events[i].Released? && events[i].h == h ==> events[i].peer !in Owed(events[..i + 1], h)
  {
    assert events[..i + 1] == events[..i] + [events[i]];
    OwedAppend(events[..i], events[i], h);
  }

  /** Every peer a registration was exported to is told to release it before it is deregistered, unless told to skip. */
  lemma ReleasedBeforeDeregistered(events: seq<Happening>, h: nat, peer: nat, exported: nat, gone: nat)
    requires Proper(events) && exported < gone < |events|
    requires events[exported] == Exported(h, peer) && events[gone] == Deregistered(h)
    requires forall k | exported < k < gone :: events[k] != Dropped(h)
    ensures exists k :: exported < k < gone && events[k] == Released(h, peer)
  {
    OwedAfter(events, exported, h);
    assert Fits(events[..gone], events[gone]);
    if (forall k | exported < k < gone :: events[k] != Released(h, peer)) {
      OwedStays(events, h, peer, exported + 1, gone);
    }
  }

  /** One release per export set: between two releases to the same peer there is a new export. */
  lemma ReleasedOncePerExport(events: seq<Happening>, h: nat, peer: nat, first: nat, second: nat)
    requires Proper(events) && first < second < |events|
    requires events[first] == Released(h, peer) == events[second]
    ensures exists k :: first < k < second && events[k] == Exported(h, peer)
  {
    OwedAfter(events, first, h);
    assert Fits(events[..second], events[second]);
    if (forall k | first < k < second :: events[k] != Exported(h, peer)) {
      NotOwedStays(events, h, peer, first + 1, second);
    }
  }

  /** The release messages among what happened. */
  ghost function Messages(events: seq<Happening>): seq<(nat, nat)> {
    if events == [] then []
    else
      var last := events[|events| - 1];
      Messages(events[..|events| - 1]) + if last.Released? then [(last.h, last.peer)] else []
  }

  lemma MessagesAppend(events: seq<Happening>, next: Happening)
    ensures Messages(events + [next]) == Messages(events) + if next.Released? then [(next.h, next.peer)] else []
  {
    assert (events + [next])[..|events|] == events;
  }

  /** Since `before`, these registrations were released to peers, or dropped, and nothing else happened. */
  ghost predicate Only(before: seq<Happening>, after: seq<Happening>, dropped: bool, hs: seq<nat>) {
    && before <= after
    && forall k | |before| <= k < |after| :: after[k].h in hs && if dropped then after[k].Dropped? else after[k].Released?
  }

  /**
   * The messages posted since `before` are one for each peer that one of these registrations was exported to,
   * and no others.
   */
  ghost predicate Told(before: seq<(nat, nat)>, after: seq<(nat, nat)>, map_: map<nat, set<nat>>, hs: seq<nat>) {
    && before <= after
    && (forall h, peer :: (h, peer) in after[|before|..] <==> h in hs && h in map_ && peer in map_[h])
    && forall j, k | |before| <= j < k < |after| :: after[j] != after[k]
  }

  ghost function Gone(hs: seq<nat>): seq<Happening> { seq(|hs|, i requires 0 <= i < |hs| => Deregistered(hs[i])) }

  // ---------------------------------------------------------------- the export cache

  /** ExportRegCache::map_ read at one registration. */
  ghost function Exports(map_: map<nat, set<nat>>, h: nat): set<nat> { if h in map_ then map_[h] else {} }

  /** The export cache is exactly what is owed, and the messages posted are those that happened. */
  ghost predicate Ledger(map_: map<nat, set<nat>>, posted: seq<(nat, nat)>, events: seq<Happening>) {
    && Proper(events) && posted == Messages(events)
    && forall h: nat :: Owed(events, h) == Exports(map_, h)
  }

  /** Only live registrations are in the export cache, and those deregistered are not live. */
  ghost predicate Live(map_: map<nat, set<nat>>, events: seq<Happening>, regs: set<nat>, nextReg: nat) {
    && map_.Keys <= regs
    && (forall h: nat | Deregistered(h) in events :: h !in regs && h < nextReg)
  }

  lemma LedgerStep(map_: map<nat, set<nat>>, map': map<nat, set<nat>>, posted: seq<(nat, nat)>, events: seq<Happening>, next: Happening)
    requires Ledger(map_, posted, events) && Fits(events, next)
    requires forall h: nat :: Exports(map', h) == OwedThen(Exports(map_, h), next, h)
    ensures Ledger(map', posted + (if next.Released? then [(next.h, next.peer)] else []), events + [next])
  {
    ProperAppend(events, next);
    MessagesAppend(events, next);
    forall h: nat ensures Owed(events + [next], h) == Exports(map', h) { OwedAppend(events, next, h); }
  }

  lemma LedgerSame(map_: map<nat, set<nat>>, map': map<nat, set<nat>>, posted: seq<(nat, nat)>, events: seq<Happening>)
    requires Ledger(map_, posted, events) && forall h: nat :: Exports(map', h) == Exports(map_, h)
    ensures Ledger(map', posted, events)
  {
  }

  lemma LedgerGone(map_: map<nat, set<nat>>, posted: seq<(nat, nat)>, events: seq<Happening>, h: nat)
    requires Ledger(map_, posted, events) && h !in map_ && Deregistered(h) !in events
    ensures Ledger(map_, posted, events + [Deregistered(h)])
  {
    LedgerStep(map_, map_, posted, events, Deregistered(h));
    assert posted + [] == posted;
  }

  lemma {:induction false} GoneLedger(map_: map<nat, set<nat>>, posted: seq<(nat, nat)>, events: seq<Happening>, hs: seq<nat>)
    requires Ledger(map_, posted, events) && (forall h | h in hs :: h !in map_ && Deregistered(h) !in events)
    requires forall i, j | 0 <= i < j < |hs| :: hs[i] != hs[j]
    ensures Ledger(map_, posted, events + Gone(hs))
  {
    if hs == [] {
      assert events + Gone(hs) == events;
    } else {
      var n := |hs| - 1;
      var mid := events + Gone(hs[..n]);
      GoneLedger(map_, posted, events, hs[..n]);
      assert mid + [Deregistered(hs[n])] == events + Gone(hs);
      LedgerGone(map_, posted, mid, hs[n]);
    }
  }

  /** Of the peers of h, those not in `left` have been told, once each, and nobody else. */
  ghost predicate Telling(before: seq<(nat, nat)>, posted: seq<(nat, nat)>, h: nat, peers: set<nat>, left: set<nat>) {
    && before <= posted && left <= peers
    && (forall g, p :: (g, p) in posted[|before|..] <==> g == h && p in peers && p !in left)
    && forall j, k | |before| <= j < k < |posted| :: posted[j] != posted[k]
  }

  lemma TellOne(before: seq<(nat, nat)>, posted: seq<(nat, nat)>, h: nat, peers: set<nat>, left: set<nat>, peer: nat)
    requires Telling(before, posted, h, peers, left) && peer in left
    ensures Telling(before, posted + [(h, peer)], h, peers, left - {peer})
  {
    var posted' := posted + [(h, peer)];
    assert posted'[|before|..] == posted[|before|..] + [(h, peer)];
    forall j, k | |before| <= j < k < |posted'| ensures posted'[j] != posted'[k] {
      assert posted[j] in posted[|before|..] by { assert posted[j] == posted[|before|..][j - |before|]; }
    }
  }

  /** Telling the peers of one more registration. */
  lemma ToldMore(before: seq<(nat, nat)>, mid: seq<(nat, nat)>, after: seq<(nat, nat)>, map_: map<nat, set<nat>>, hs: seq<nat>, h: nat)
    requires Told(before, mid, map_, hs) && Told(mid, after, map_ - SetOf(hs), [h])
    ensures Told(before, after, map_, hs + [h])
  {
    assert after[|before|..] == mid[|before|..] + after[|mid|..];
    forall j, k | |before| <= j < k < |after| ensures after[j] != after[k] {
      if j < |mid| <= k {
        assert after[j] == mid[|before|..][j - |before|] && after[k] == after[|mid|..][k - |mid|];
        var (g, p) := after[j];
        assert (g, p) in mid[|before|..];
        var (g', p') := after[k];
        assert (g', p') in after[|mid|..];
      }
    }
  }

  /** First the registrations are released to their peers, or dropped; then those that go are deregistered. */
  ghost predicate ReleasedThenGone(before: seq<Happening>, after: seq<Happening>, dropped: bool, hs: seq<nat>, gone: seq<nat>) {
    exists mid: seq<Happening> :: Only(before, mid, dropped, hs) && after == mid + Gone(gone)
  }

  /**
   * When releasing has left nothing of h in the export cache, every peer that was recorded has been sent
   * exactly one release message, and nobody else has been sent any.
   */
  lemma EveryPeerToldOnce(map_: map<nat, set<nat>>, map': map<nat, set<nat>>, posted: seq<(nat, nat)>, posted': seq<(nat, nat)>,
                          events: seq<Happening>, events': seq<Happening>, hs: seq<nat>, h: nat, peer: nat)
    requires Ledger(map_, posted, events) && Ledger(map', posted', events') && Only(events, events', false, hs) && h !in map'
    ensures peer in Exports(map_, h) <==> exists k :: |events| <= k < |events'| && events'[k] == Released(h, peer)
    ensures forall j, k | |events| <= j < k < |events'| && events'[j] == Released(h, peer) :: events'[k] != Released(h, peer)
  {
    var n := |events|;
    assert events'[..n] == events && events'[..|events'|] == events';
    if peer in Exports(map_, h) {
      if (forall k | n <= k < |events'| :: events'[k] != Released(h, peer)) { OwedStays(events', h, peer, n, |events'|); }
    } else {
      forall k | n <= k < |events'| ensures events'[k] != Released(h, peer) {
        NotOwedStays(events', h, peer, n, k);
        assert Fits(events'[..k], events'[k]);
      }
    }
    forall j, k | n <= j < k < |events'| && events'[j] == Released(h, peer) ensures events'[k] != Released(h, peer) {
      if events'[k] == Released(h, peer) { ReleasedOncePerExport(events', h, peer, j, k); }
    }
  }

  /** Deregistering live registrations that have no export left. */
  lemma GoneKeeps(map_: map<nat, set<nat>>, posted: seq<(nat, nat)>, events: seq<Happening>, hs: seq<nat>, regs: set<nat>, nextReg: nat)
    requires Ledger(map_, posted, events) && Live(map_, events, regs, nextReg)
    requires forall h | h in hs :: h in regs && h !in map_ && h < nextReg
    requires forall i, j | 0 <= i < j < |hs| :: hs[i] != hs[j]
    ensures Ledger(map_, posted, events + Gone(hs)) && Live(map_, events + Gone(hs), regs - SetOf(hs), nextReg)
  {
    GoneLedger(map_, posted, events, hs);
  }

  class CtranMapper {
    const regCache: CtranMapperRegCache
    var exportRegCache: map<nat, set<nat>>
    var postedCbCtrlReqs: seq<(nat, nat)>
    ghost var events: seq<Happening>

    ghost predicate Valid(allocs: seq<Range>)
      reads this, regCache
    {
      && regCache.Valid(allocs) && Ledger(exportRegCache, postedCbCtrlReqs, events)
      && Live(exportRegCache, events, regCache.regHdlToElemMap.Keys, regCache.nextRegHdl)
    }

    constructor (allocs: seq<Range>, regCache: CtranMapperRegCache)
      requires regCache.Valid(allocs)
      ensures Valid(allocs) && this.regCache == regCache && exportRegCache == map[] && events == []
    {
      this.regCache, exportRegCache, postedCbCtrlReqs, events := regCache, map[], [], [];
    }

    /** ExportRegCache::record */
    method Record(h: nat, rank: nat)
      requires Ledger(exportRegCache, postedCbCtrlReqs, events) && Deregistered(h) !in events
      modifies `exportRegCache, `events
      ensures Ledger(exportRegCache, postedCbCtrlReqs, events)
      ensures events == old(events) + [Exported(h, rank)]
      ensures exportRegCache == old(exportRegCache)[h := Exports(old(exportRegCache), h) + {rank}]
    {
      ghost var map_ := exportRegCache;
      exportRegCache := exportRegCache[h := (if h in exportRegCache then exportRegCache[h] else {}) + {rank}];
      LedgerStep(map_, exportRegCache, postedCbCtrlReqs, events, Exported(h, rank));
      assert postedCbCtrlReqs + [] == postedCbCtrlReqs;
      events := events + [Exported(h, rank)];
    }

    /** exportMem, as far as the export cache goes; `query` is what queryPeerBackend answers */
    method ExportMem(allocs: seq<Range>, rank: nat, h: nat, backend: Backend, query: Backend) returns (r: Result<()>)
      requires Valid(allocs) && h in regCache.regHdlToElemMap
      modifies `exportRegCache, `events
      ensures Valid(allocs)
      ensures var chosen := if backend.Unset? then query else backend;
              && (r == if chosen.Unset? then Err(InvalidArgument) else Ok(()))
              && events == old(events) + (if chosen.Nvl? then [Exported(h, rank)] else [])
              && exportRegCache == if chosen.Nvl? then old(exportRegCache)[h := Exports(old(exportRegCache), h) + {rank}]
                                   else old(exportRegCache)
    {
      var chosen := if backend.Unset? then query else backend;
      match chosen {
        case Nvl =>
          Record(h, rank);
          return Ok(());
        case Ib | TcpDm => return Ok(());
        case Unset => return Err(InvalidArgument);
      }
    }

    /** ExportRegCache::remove, and the loop of remReleaseMem: one release message for each peer in the set */
    method RemReleaseMem(h: nat)
      requires Ledger(exportRegCache, postedCbCtrlReqs, events) && (h in exportRegCache ==> Deregistered(h) !in events)
      modifies `exportRegCache, `events, `postedCbCtrlReqs
      ensures Ledger(exportRegCache, postedCbCtrlReqs, events) && exportRegCache == old(exportRegCache) - {h}
      ensures Only(old(events), events, false, [h]) && Told(old(postedCbCtrlReqs), postedCbCtrlReqs, old(exportRegCache), [h])
    {
      var peers: set<nat> := {};
      if h in exportRegCache {
        peers := exportRegCache[h];
      }
      LedgerSame(exportRegCache, exportRegCache[h := peers], postedCbCtrlReqs, events);
      while peers != {}
        invariant Ledger(exportRegCache[h := peers], postedCbCtrlReqs, events) && exportRegCache == old(exportRegCache)
        invariant Only(old(events), events, false, [h])
        invariant peers != {} ==> h in exportRegCache
        invariant Telling(old(postedCbCtrlReqs), postedCbCtrlReqs, h, Exports(exportRegCache, h), peers)
      {
        var peer :| peer in peers;
        LedgerStep(exportRegCache[h := peers], exportRegCache[h := peers - {peer}], postedCbCtrlReqs, events, Released(h, peer));
        TellOne(old(postedCbCtrlReqs), postedCbCtrlReqs, h, Exports(exportRegCache, h), peers, peer);
        postedCbCtrlReqs := postedCbCtrlReqs + [(h, peer)];
        events := events + [Released(h, peer)];
        peers := peers - {peer};
      }
      LedgerSame(exportRegCache[h := peers], exportRegCache - {h}, postedCbCtrlReqs, events);
      exportRegCache := exportRegCache - {h};
    }

    /**
     * regMem: cache the segment, and register it at once when asked to. `eager` is the registration mode or
     * the caller's force flag.
     */
    method RegMem(allocs: seq<Range>, buf: nat, len: nat, ncclManaged: bool, eager: bool) returns (segHdl: Result<nat>, regHdl: Option<nat>)
      requires Disjoint(allocs) && Valid(allocs)
      requires AddressRange(allocs, buf).Err? ==> forall a: nat | buf <= a < buf + len :: !Mapped(allocs, a)
      modifies regCache
      ensures Valid(allocs) && exportRegCache == old(exportRegCache) && events == old(events)
      ensures segHdl.Ok? ==> segHdl.value in regCache.segmentsAvl
      ensures segHdl.Ok? ==> var seg := regCache.segmentsAvl[segHdl.value].range; seg.buf <= buf && buf + len <= End(seg)
      ensures segHdl.Err? ==>
        regCache.View() == old(regCache.View()) && CtranMapperRegCache.NotCached(allocs, regCache.View(), Range(buf, len), segHdl.error)
      ensures regHdl.Some? <==> eager && segHdl.Ok?
      ensures regHdl.Some? ==>
        segHdl.value in regCache.segmentsAvl && regHdl.value in regCache.regHdlToElemMap
        && var seg, e := regCache.segmentsAvl[segHdl.value].range, regCache.regHdlToElemMap[regHdl.value];
           !e.isDynamic && e.range.buf <= seg.buf && End(seg) <= End(e.range)
      ensures segHdl.Ok? ==> exists c: Cache :: CachedThen(allocs, old(regCache.View()), c, regCache.View(), buf, len, ncclManaged, segHdl.value, eager)
    {
      regHdl := None;
      segHdl := regCache.CacheSegment(allocs, buf, len, ncclManaged);
      if segHdl.Err? {
        return;
      }
      CachedContains(allocs, buf, len);
      ghost var c := regCache.View();
      assert CachedThen(allocs, old(regCache.View()), c, c, buf, len, ncclManaged, segHdl.value, false);
      if eager {
        var range := regCache.segmentsAvl[segHdl.value].range;
        assert SegOk(allocs, regCache.View(), segHdl.value);
        CachedAgain(allocs, range);
        var found, didRegister := regCache.RegRange(allocs, range.buf, range.len);
        regHdl := found.value;
        assert CachedThen(allocs, old(regCache.View()), c, regCache.View(), buf, len, ncclManaged, segHdl.value, true);
      }
    }

    /** The segment is cached in the step from `before` to `c`, and then at most the registrations change. */
    static ghost predicate CachedThen(allocs: seq<Range>, before: Cache, c: Cache, after: Cache, buf: nat, len: nat, ncclManaged: bool, s: nat, eager: bool)
      requires Disjoint(allocs)
    {
      && CtranMapperRegCache.CachedAs(allocs, before, c, Range(buf, len), ncclManaged, s)
      && after == if eager then c.(regs := after.regs, listed := after.listed, nextReg := after.nextReg) else c
    }

    /** A cached segment is what the walk finds behind it, so registering it at once cannot fail. */
    lemma CachedAgain(allocs: seq<Range>, r: Range)
      requires Disjoint(allocs) && RangeOk(allocs, r)
      ensures Ranges(allocs, r.buf, r.len) == Ok([r])
    {
      AddressFound(allocs, r.buf);
      if r in allocs {
        var i :| 0 <= i < |allocs| && allocs[i] == r;
        assert allocs[i].Has(r.buf);
      }
    }

    /** The range pinned for a buffer behind a single allocation, or in other memory, contains the buffer. */
    lemma CachedContains(allocs: seq<Range>, buf: nat, len: nat)
      requires Disjoint(allocs)
      ensures Ranges(allocs, buf, len).Ok? && |Ranges(allocs, buf, len).value| == 1 ==>
        Ranges(allocs, buf, len).value[0].Contains(Range(buf, len))
    {
      if AddressRange(allocs, buf).Ok? && Ranges(allocs, buf, len).Ok? {
        PinCovers(allocs, buf, len);
        var rs := Ranges(allocs, buf, len).value;
        if |rs| == 1 { assert rs[..|rs| - 1] == [] && TotalLen(rs) == rs[0].len; }
      }
    }

    /**
     * deregMem: tell the peers of everything listed under the segment to release it, then free the segment.
     * With skipRemRelease the caller releases the peers by other means.
     */
    method DeregMem(allocs: seq<Range>, segHdl: Option<nat>, skipRemRelease: bool) returns (r: Result<bool>)
      requires Valid(allocs)
      modifies this, regCache
      ensures Valid(allocs)
      ensures if segHdl.Some? && segHdl.value !in old(regCache.segmentsAvl) then r == Err(InvalidArgument) else r.Ok?
      ensures segHdl.None? ==> r == Ok(false)
      ensures segHdl.None? || r.Err? ==>
        regCache.View() == old(regCache.View()) && events == old(events) && exportRegCache == old(exportRegCache)
      ensures segHdl.Some? && r.Ok? ==>
        var c, s := old(regCache.View()), segHdl.value;
        && s in c.segs && (r.value <==> c.segs[s].refCount == 1)
        && regCache.View() == (if r.value then Release(c, s) else DropRef(c, s))
        && exportRegCache == old(exportRegCache) - SetOf(ListedUnder(c, s))
        && ReleasedThenGone(old(events), events, skipRemRelease, ListedUnder(c, s), if r.value then TakenOut(c, s) else [])
        && if skipRemRelease then postedCbCtrlReqs == old(postedCbCtrlReqs)
           else Told(old(postedCbCtrlReqs), postedCbCtrlReqs, old(exportRegCache), ListedUnder(c, s))
    {
      if segHdl.None? {
        return Ok(false);
      }
      r := DeregSegment(allocs, segHdl.value, skipRemRelease);
    }

    method DeregSegment(allocs: seq<Range>, s: nat, skipRemRelease: bool) returns (r: Result<bool>)
      requires Valid(allocs)
      modifies this, regCache
      ensures Valid(allocs)
      ensures if s !in old(regCache.segmentsAvl) then r == Err(InvalidArgument) else r.Ok?
      ensures r.Err? ==> regCache.View() == old(regCache.View()) && events == old(events) && exportRegCache == old(exportRegCache)
      ensures r.Ok? ==>
        var c := old(regCache.View());
        && s in c.segs && (r.value <==> c.segs[s].refCount == 1)
        && regCache.View() == (if r.value then Release(c, s) else DropRef(c, s))
        && exportRegCache == old(exportRegCache) - SetOf(ListedUnder(c, s))
        && ReleasedThenGone(old(events), events, skipRemRelease, ListedUnder(c, s), if r.value then TakenOut(c, s) else [])
        && if skipRemRelease then postedCbCtrlReqs == old(postedCbCtrlReqs)
           else Told(old(postedCbCtrlReqs), postedCbCtrlReqs, old(exportRegCache), ListedUnder(c, s))
    {
      var regElems := regCache.GetRegElems(s);
      ReleaseAll(regElems, skipRemRelease);
      ghost var mid := events;
      r := FreeSegment(allocs, s, regElems);
      assert r.Err? ==> regElems == [];
      assert r.Ok? ==> events == mid + Gone(if r.value then TakenOut(old(regCache.View()), s) else []);
    }

    /** The loop over the registrations listed under the segment; those that are gone have nothing exported. */
    method ReleaseAll(hs: seq<nat>, skipRemRelease: bool)
      requires Ledger(exportRegCache, postedCbCtrlReqs, events)
      requires forall h | h in exportRegCache :: Deregistered(h) !in events
      modifies `exportRegCache, `events, `postedCbCtrlReqs
      ensures Ledger(exportRegCache, postedCbCtrlReqs, events) && exportRegCache == old(exportRegCache) - SetOf(hs)
      ensures Only(old(events), events, skipRemRelease, hs)
      ensures if skipRemRelease then postedCbCtrlReqs == old(postedCbCtrlReqs)
              else Told(old(postedCbCtrlReqs), postedCbCtrlReqs, old(exportRegCache), hs)
      ensures hs == [] ==> events == old(events) && exportRegCache == old(exportRegCache)
    {
      for i := 0 to |hs|
        invariant i == 0 ==> events == old(events) && exportRegCache == old(exportRegCache)
        invariant Ledger(exportRegCache, postedCbCtrlReqs, events) && exportRegCache == old(exportRegCache) - SetOf(hs[..i])
        invariant Only(old(events), events, skipRemRelease, hs)
        invariant if skipRemRelease then postedCbCtrlReqs == old(postedCbCtrlReqs)
                  else Told(old(postedCbCtrlReqs), postedCbCtrlReqs, old(exportRegCache), hs[..i])
      {
        assert hs[..i + 1] == hs[..i] + [hs[i]];
        ghost var mid := postedCbCtrlReqs;
        ReleaseOne(hs[i], skipRemRelease);
        MoreReleased(old(exportRegCache), hs[..i], hs[i]);
        if !skipRemRelease { ToldMore(old(postedCbCtrlReqs), mid, postedCbCtrlReqs, old(exportRegCache), hs[..i], hs[i]); }
      }
      assert hs[..|hs|] == hs;
    }

    static lemma MoreReleased(map_: map<nat, set<nat>>, hs: seq<nat>, h: nat)
      ensures map_ - SetOf(hs) - {h} == map_ - SetOf(hs + [h])
    {
      assert SetOf(hs + [h]) == SetOf(hs) + {h};
    }

    method ReleaseOne(h: nat, skipRemRelease: bool)
      requires Ledger(exportRegCache, postedCbCtrlReqs, events) && (h in exportRegCache ==> Deregistered(h) !in events)
      modifies `exportRegCache, `events, `postedCbCtrlReqs
      ensures Ledger(exportRegCache, postedCbCtrlReqs, events) && exportRegCache == old(exportRegCache) - {h}
      ensures Only(old(events), events, skipRemRelease, [h])
      ensures if skipRemRelease then postedCbCtrlReqs == old(postedCbCtrlReqs)
              else Told(old(postedCbCtrlReqs), postedCbCtrlReqs, old(exportRegCache), [h])
    {
      if skipRemRelease {
        Drop(h);
      } else {
        RemReleaseMem(h);
      }
    }

    /** The removal that skips the remote release. */
    method Drop(h: nat)
      requires Ledger(exportRegCache, postedCbCtrlReqs, events)
      modifies `exportRegCache, `events
      ensures Ledger(exportRegCache, postedCbCtrlReqs, events) && exportRegCache == old(exportRegCache) - {h}
      ensures events == old(events) + [Dropped(h)]
    {
      LedgerStep(exportRegCache, exportRegCache - {h}, postedCbCtrlReqs, events, Dropped(h));
      assert postedCbCtrlReqs + [] == postedCbCtrlReqs;
      exportRegCache := exportRegCache - {h};
      events := events + [Dropped(h)];
    }

    static lemma TakenOutOnce(allocs: seq<Range>, c: Cache, s: nat)
      requires CacheInv(allocs, c)
      ensures forall h | h in TakenOut(c, s) :: h in c.regs && h in ListedUnder(c, s)
      ensures forall i, j | 0 <= i < j < |TakenOut(c, s)| :: TakenOut(c, s)[i] != TakenOut(c, s)[j]
      ensures forall h | h in c.regs :: h < c.nextReg
    {
      forall h | h in TakenOut(c, s) ensures h in c.regs && h in ListedUnder(c, s) { StillThereIs(c.regs.Keys, ListedUnder(c, s), h); }
      StillThereIs(c.regs.Keys, ListedUnder(c, s), 0);
      assert forall h | h in c.regs :: RegOk(c, h);
    }

    /** freeSegment on the cache; what it deregisters has no export left. */
    method FreeSegment(allocs: seq<Range>, s: nat, ghost listed: seq<nat>) returns (r: Result<bool>)
      requires Valid(allocs) && listed == (if s in regCache.segmentsAvl then ListedUnder(regCache.View(), s) else [])
      requires forall h | h in listed :: h !in exportRegCache
      modifies this, regCache
      ensures Valid(allocs) && exportRegCache == old(exportRegCache) && postedCbCtrlReqs == old(postedCbCtrlReqs)
      ensures if s !in old(regCache.segmentsAvl) then r == Err(InvalidArgument) else r.Ok?
      ensures r.Err? ==> regCache.View() == old(regCache.View()) && events == old(events)
      ensures r.Ok? ==>
        var c := old(regCache.View());
        && s in c.segs && (r.value <==> c.segs[s].refCount == 1)
        && regCache.View() == (if r.value then Release(c, s) else DropRef(c, s))
        && events == old(events) + Gone(if r.value then TakenOut(c, s) else [])
    {
      ghost var c := regCache.View();
      var freed := regCache.FreeSegment(allocs, s);
      if freed.Err? {
        return Err(freed.error);
      }
      if freed.value.0 {
        TakenOutOnce(allocs, c, s);
        GoneKeeps(exportRegCache, postedCbCtrlReqs, events, freed.value.1, c.regs.Keys, c.nextReg);
        events := events + Gone(freed.value.1);
      }
      return Ok(freed.value.0);
    }

    /** deregDynamic: the peers are told to release before the registration goes */
    method DeregDynamic(allocs: seq<Range>, h: nat) returns (r: Result<()>)
      requires Valid(allocs)
      modifies this, regCache
      ensures Valid(allocs) && exportRegCache == old(exportRegCache) - {h}
      ensures r == if h in old(regCache.regHdlToElemMap) then Ok(()) else Err(InvalidArgument)
      ensures regCache.View() == old(regCache.View()).(regs := old(regCache.View()).regs - {h})
      ensures ReleasedThenGone(old(events), events, false, [h], if r.Ok? then [h] else [])
      ensures Told(old(postedCbCtrlReqs), postedCbCtrlReqs, old(exportRegCache), [h])
    {
      RemReleaseMem(h);
      assert h in regCache.regHdlToElemMap ==> RegOk(regCache.View(), h);
      ghost var regs := regCache.regHdlToElemMap.Keys;
      r := regCache.DeregDynamic(allocs, h);
      if r.Ok? {
        GoneKeeps(exportRegCache, postedCbCtrlReqs, events, [h], regs, regCache.nextRegHdl);
        events := events + Gone([h]);
      }
    }
  }
}
