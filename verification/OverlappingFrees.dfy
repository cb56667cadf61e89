/** Two freeSegment calls that overlap: the second reports its segment freed while the backend still holds a registration on it. */
module OverlappingFrees {
  import opened Verbs
  import opened SegmentRanges
  import opened RegCache
  import opened RegThreads

  /** Two adjoining allocations, and the buffer that spans them. */
  const LOW := Range(0, 10)
  const HIGH := Range(10, 10)
  const BOTH := Range(0, 20)
  const ALLOCATIONS := [LOW, HIGH]

  lemma AllocationsDisjoint()
    ensures Disjoint(ALLOCATIONS)
  {
  }

  lemma RangesFound()
    ensures Disjoint(ALLOCATIONS)
    ensures Ranges(ALLOCATIONS, 0, 10) == Ok([LOW]) && Ranges(ALLOCATIONS, 10, 10) == Ok([HIGH])
    ensures Ranges(ALLOCATIONS, 0, 20) == Ok([LOW, HIGH])
    ensures AddressRange(ALLOCATIONS, 0).Ok? && AddressRange(ALLOCATIONS, 10).Ok?
  {
    AllocationsDisjoint();
    assert ALLOCATIONS[1..] == [HIGH];
    assert AddressRange(ALLOCATIONS, 0) == Ok(LOW) && AddressRange(ALLOCATIONS, 10) == Ok(HIGH);
    assert Walk(ALLOCATIONS, 10, 20) == Ok([HIGH]);
    assert [LOW] + [HIGH] == [LOW, HIGH];
  }

  /** The registration that spans both segments. */
  const ELEM := RegElem(BOTH, false, [0, 1])

  /** The cache after both segments were cached; with the registration; and after the first segment was freed. */
  const CACHED := Cache(map[0 := Segment(LOW, false, 1), 1 := Segment(HIGH, false, 1)], map[], map[], 2, 0)
  const REGISTERED := Cache(CACHED.segs, map[0 := ELEM], map[0 := [0], 1 := [0]], 2, 1)
  const FIRST_FREED := Cache(REGISTERED.segs - {0}, REGISTERED.regs - {0}, REGISTERED.listed - {0}, 2, 1)

  const NOTHING_CACHED := Cache(FIRST_FREED.segs - {1}, FIRST_FREED.regs - {}, FIRST_FREED.listed - {1}, 2, 1)

  ghost function AfterCaching(): World {
    World(CACHED, map[], {}, {}, map[], None, multiset{0, 1}, multiset{})
  }

  lemma CacheBoth() returns (w1: World)
    ensures Disjoint(ALLOCATIONS) && Next(ALLOCATIONS, EMPTY_WORLD, w1) && Next(ALLOCATIONS, w1, AfterCaching())
  {
    RangesFound();
    var empty := EMPTY_WORLD;
    w1 := empty.(c := AddSegment(empty.c, LOW, false), granted := multiset{0});
    assert multiset{} + multiset{0} == multiset{0} && multiset{0} + multiset{1} == multiset{0, 1};
    assert Caches(ALLOCATIONS, empty, w1, 1, 0, 10, false, None);
    assert Acts(ALLOCATIONS, empty, w1, 1, CacheSegment(0, 10, false, None));
    assert AddSegment(w1.c, HIGH, false) == CACHED;
    assert Caches(ALLOCATIONS, w1, AfterCaching(), 1, 10, 10, false, None);
    assert Acts(ALLOCATIONS, w1, AfterCaching(), 1, CacheSegment(10, 10, false, None));
  }

  lemma SpanComputed()
    ensures forall s | s in [0, 1] :: s in CACHED.segs
    ensures SumLen(CACHED.segs, [0, 1]) == 20 && NewElem(CACHED, [0, 1]) == ELEM
  {
    assert [0, 1][..1] == [0] && [0][..0] == [];
    assert SumLen(CACHED.segs, [0]) == 10;
  }

  lemma ListsComputed()
    ensures ListUnder(map[], [0, 1], 0) == map[0 := [0], 1 := [0]]
  {
    assert [0, 1][..1] == [0] && [0][..0] == [];
    assert ListUnder(map[], [], 0) == map[];
    var empty: map<nat, seq<nat>> := map[];
    assert Append(empty, 0, 0) == map[0 := [0]] by { assert [] + [0] == [0]; }
    assert Append(map[0 := [0]], 1, 0) == map[0 := [0], 1 := [0]] by { assert [] + [0] == [0]; }
    assert ListUnder(empty, [0], 0) == map[0 := [0]];
  }

  lemma FirstTaken()
    ensures TakenOut(REGISTERED, 0) == [0]
  {
    assert [0][..0] == [];
    assert StillThere({0}, []) == [];
    assert REGISTERED.regs.Keys == {0};
  }

  lemma SecondTaken()
    ensures TakenOut(FIRST_FREED, 1) == []
  {
    assert [0][..0] == [];
    assert StillThere({}, []) == [];
    assert FIRST_FREED.regs.Keys == {};
  }

  lemma SetOfOne(h: nat)
    ensures SetOf([h]) == {h}
  {
    assert forall g :: g in SetOf([h]) <==> g == h;
  }

  lemma FirstReleased()
    ensures Release(REGISTERED, 0) == FIRST_FREED
  {
    FirstTaken();
    SetOfOne(0);
  }

  lemma SecondReleased()
    ensures Release(FIRST_FREED, 1) == NOTHING_CACHED
  {
    SecondTaken();
    assert SetOf([]) == {};
  }

  ghost function AfterMissing(): World { AfterCaching().(threads := map[1 := Missed(BOTH)]) }

  /** The backend is registering, and thread 1 holds the segment lock. */
  ghost function WhileRegistering(): World {
    var w := AfterMissing();
    Registered(w, ELEM).(threads := Moved(w, 1, Registering(0, BOTH)), lock := Some(1))
  }

  ghost function AfterRegistering(): World {
    var w := WhileRegistering();
    w.(c := REGISTERED, threads := Moved(w, 1, Idle), lock := None)
  }

  lemma MissFirst()
    ensures Disjoint(ALLOCATIONS) && Next(ALLOCATIONS, AfterCaching(), AfterMissing())
  {
    AllocationsDisjoint();
    assert Acts(ALLOCATIONS, AfterCaching(), AfterMissing(), 1, FastPath(BOTH, None));
  }

  lemma RegisterSpan()
    ensures Disjoint(ALLOCATIONS) && Next(ALLOCATIONS, AfterMissing(), WhileRegistering())
  {
    RangesFound();
    SpanComputed();
    assert Acts(ALLOCATIONS, AfterMissing(), WhileRegistering(), 1, SlowCheck(None, Some([0, 1])));
  }

  lemma PublishSpan()
    ensures Disjoint(ALLOCATIONS) && Next(ALLOCATIONS, WhileRegistering(), AfterRegistering())
  {
    AllocationsDisjoint();
    ListsComputed();
    assert Insert(WhileRegistering().c, 0, ELEM) == REGISTERED;
    assert Acts(ALLOCATIONS, WhileRegistering(), AfterRegistering(), 1, Publish);
  }

  ghost function AfterFirstFree(): World {
    var w := AfterRegistering();
    w.(returned := w.returned + multiset{0}, c := FIRST_FREED, threads := Moved(w, 1, Freeing(0, [0])))
  }

  /** Thread 1 has freed segment 0 and has still to deregister; thread 2 has freed segment 1 and returned. */
  ghost function AfterFrees(): World {
    var w := AfterFirstFree();
    w.(returned := w.returned + multiset{1}, c := NOTHING_CACHED, threads := Moved(w, 2, Idle))
  }

  lemma FirstFrees()
    ensures Releases(AfterRegistering(), AfterFirstFree(), 1, 0)
  {
    FirstReleased();
    FirstTaken();
  }

  lemma FreeFirst()
    ensures Disjoint(ALLOCATIONS) && Next(ALLOCATIONS, AfterRegistering(), AfterFirstFree())
  {
    AllocationsDisjoint();
    FirstFrees();
    assert Acts(ALLOCATIONS, AfterRegistering(), AfterFirstFree(), 1, FreeSegment(0));
  }

  lemma SecondFrees()
    ensures Releases(AfterFirstFree(), AfterFrees(), 2, 1)
  {
    SecondReleased();
    SecondTaken();
  }

  lemma FreeSecond()
    ensures Disjoint(ALLOCATIONS) && Next(ALLOCATIONS, AfterFirstFree(), AfterFrees())
    ensures ReturnsFreed(AfterFirstFree(), AfterFrees(), 2, 1)
  {
    AllocationsDisjoint();
    SecondFrees();
    assert Acts(ALLOCATIONS, AfterFirstFree(), AfterFrees(), 2, FreeSegment(1));
  }

  lemma StillInUse()
    ensures 1 !in AfterFrees().c.segs && InUse(AfterFrees(), 1)
  {
    assert Uses(AfterFrees(), 0, 1);
  }

  /**
   * Two threads free the two segments of one registration. Thread 1 takes the registration out of the maps;
   * thread 2 finds it gone, and reports segment 1 freed, before thread 1 has deregistered it.
   */
  lemma FreedButInUse() returns (run: seq<World>)
    ensures Disjoint(ALLOCATIONS) && IsRun(ALLOCATIONS, run) && |run| == 8
    ensures ReturnsFreed(run[6], run[7], 2, 1)
    ensures 1 !in run[7].c.segs && InUse(run[7], 1)
  {
    var w1 := CacheBoth();
    MissFirst();
    RegisterSpan();
    PublishSpan();
    FreeFirst();
    FreeSecond();
    StillInUse();
    run := [EMPTY_WORLD, w1, AfterCaching(), AfterMissing(), WhileRegistering(), AfterRegistering(), AfterFirstFree(), AfterFrees()];
  }
}
