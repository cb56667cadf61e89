/** CtranMapperSegmentRange::pinRange: the walk over the physical allocations behind a buffer. */
module SegmentRanges {
  import opened Verbs

  datatype Range = Range(buf: nat, len: nat) {
    ghost predicate Has(a: nat) { buf <= a < buf + len }

    ghost predicate Contains(r: Range) { buf <= r.buf && r.buf + r.len <= buf + len }
  }

  /** The cuMem allocations: disjoint and non-empty. They do not change while memory is cached. */
  ghost predicate Disjoint(allocs: seq<Range>) {
    && (forall i | 0 <= i < |allocs| :: allocs[i].len > 0)
    && forall i, j, a: nat | 0 <= i < j < |allocs| && allocs[i].Has(a) :: !allocs[j].Has(a)
  }

  ghost predicate Mapped(allocs: seq<Range>, a: nat) { exists i :: 0 <= i < |allocs| && allocs[i].Has(a) }

  /** cuMemGetAddressRange: the allocation that holds address a, if there is one. */
  function AddressRange(allocs: seq<Range>, a: nat): (r: Result<Range>)
    ensures r.Ok? ==> r.value in allocs && r.value.Has(a)
  {
    if allocs == [] then Err(InvalidArgument)
    else if allocs[0].buf <= a < allocs[0].buf + allocs[0].len then Ok(allocs[0])
    else AddressRange(allocs[1..], a)
  }

  lemma {:induction false} AddressFound(allocs: seq<Range>, a: nat)
    ensures AddressRange(allocs, a).Ok? <==> Mapped(allocs, a)
  {
    if allocs != [] && !allocs[0].Has(a) {
      AddressFound(allocs[1..], a);
      if Mapped(allocs, a) {
        var i :| 0 <= i < |allocs| && allocs[i].Has(a);
        assert allocs[1..][i - 1].Has(a);
      }
      if Mapped(allocs[1..], a) {
        var i :| 0 <= i < |allocs[1..]| && allocs[1..][i].Has(a);
        assert allocs[i + 1].Has(a);
      }
    }
  }

  /** The allocations met on the way from `a` to `end`. */
  function Walk(allocs: seq<Range>, a: nat, end: nat): Result<seq<Range>>
    requires Disjoint(allocs)
    decreases end - a
  {
    match AddressRange(allocs, a)
    case Err(error) => Err(error)
    case Ok(r) =>
      if r.buf + r.len >= end then Ok([r])
      else
        match Walk(allocs, r.buf + r.len, end)
        case Err(error) => Err(error)
        case Ok(rest) => Ok([r] + rest)
  }

  /** Only cuMem memory is walked; any other buffer is one range as it stands. */
  function Pin(allocs: seq<Range>, cumem: bool, ptr: nat, len: nat): Result<seq<Range>>
    requires Disjoint(allocs)
  {
    if cumem then Walk(allocs, ptr, ptr + len) else Ok([Range(ptr, len)])
  }

  method PinRange(allocs: seq<Range>, cumem: bool, ptr: nat, len: nat) returns (r: Result<seq<Range>>)
    requires Disjoint(allocs)
    ensures r == Pin(allocs, cumem, ptr, len)
    ensures !cumem ==> r == Ok([Range(ptr, len)])
  {
    if !cumem {
      return Ok([Range(ptr, len)]);
    }
    WalkOnIs(allocs, [], ptr, ptr + len);
    var first := AddressRange(allocs, ptr);
    if first.Err? {
      return Err(first.error);
    }
    var segRangs := [first.value];
    var curOffset := first.value.buf + first.value.len - ptr;
    assert [] + [first.value] == segRangs;
    ghost var all := WalkOn(allocs, [], ptr, ptr + len);
    while curOffset < len
      invariant curOffset > 0
      invariant all == if curOffset >= len then Ok(segRangs) else WalkOn(allocs, segRangs, ptr + curOffset, ptr + len)
    {
      var next := AddressRange(allocs, ptr + curOffset);
      if next.Err? {
        return Err(next.error);
      }
      segRangs := segRangs + [next.value];
      curOffset := next.value.buf + next.value.len - ptr;
    }
    return Ok(segRangs);
  }

  /** The walk with what it has found so far. */
  ghost function WalkOn(allocs: seq<Range>, some: seq<Range>, a: nat, end: nat): Result<seq<Range>>
    requires Disjoint(allocs)
    decreases end - a
  {
    match AddressRange(allocs, a)
    case Err(error) => Err(error)
    case Ok(r) => if r.buf + r.len >= end then Ok(some + [r]) else WalkOn(allocs, some + [r], r.buf + r.len, end)
  }

  lemma {:induction false} WalkOnIs(allocs: seq<Range>, some: seq<Range>, a: nat, end: nat)
    requires Disjoint(allocs)
    ensures var rest := Walk(allocs, a, end);
            WalkOn(allocs, some, a, end) == if rest.Ok? then Ok(some + rest.value) else rest
    ensures some == [] ==> WalkOn(allocs, some, a, end) == Walk(allocs, a, end)
    decreases end - a
  {
    var next := AddressRange(allocs, a);
    if next.Ok? && next.value.buf + next.value.len < end {
      var rest := Walk(allocs, next.value.buf + next.value.len, end);
      WalkOnIs(allocs, some + [next.value], next.value.buf + next.value.len, end);
      if rest.Ok? { assert some + ([next.value] + rest.value) == some + [next.value] + rest.value; }
    }
    var all := Walk(allocs, a, end);
    if all.Ok? { assert [] + all.value == all.value; }
  }

  // ---------------------------------------------------------------- what the walk finds

  ghost predicate Adjoin(ranges: seq<Range>) {
    forall i | 0 <= i < |ranges| - 1 :: ranges[i].buf + ranges[i].len == ranges[i + 1].buf
  }

  function TotalLen(ranges: seq<Range>): nat {
    if ranges == [] then 0 else TotalLen(ranges[..|ranges| - 1]) + ranges[|ranges| - 1].len
  }

  ghost predicate Reaches(ranges: seq<Range>, a: nat) { exists i :: 0 <= i < |ranges| && ranges[i].Has(a) }

  lemma {:induction false} TotalLenCons(r: Range, ranges: seq<Range>)
    ensures TotalLen([r] + ranges) == r.len + TotalLen(ranges)
  {
    if ranges != [] {
      assert ([r] + ranges)[..|ranges|] == [r] + ranges[..|ranges| - 1];
      TotalLenCons(r, ranges[..|ranges| - 1]);
    } else {
      assert [r] + ranges == [r];
      assert [r][..0] == [];
    }
  }

  lemma ConsAdjoin(r: Range, rest: seq<Range>)
    requires rest != [] && Adjoin(rest) && r.buf + r.len == rest[0].buf
    ensures Adjoin([r] + rest)
  {
    assert forall i | 0 < i < |rest| :: ([r] + rest)[i] == rest[i - 1] && ([r] + rest)[i + 1] == rest[i];
  }

  /** Addresses that start an adjoining allocation are its base. */
  lemma NextBase(allocs: seq<Range>, r: Range, next: Range)
    requires Disjoint(allocs) && r in allocs && next in allocs && next.Has(r.buf + r.len)
    ensures next.buf == r.buf + r.len
  {
    var i :| 0 <= i < |allocs| && allocs[i] == r;
    var j :| 0 <= j < |allocs| && allocs[j] == next;
    assert i != j;
    assert !(r.Has(r.buf + r.len - 1) && next.Has(r.buf + r.len - 1)) by {
      if i < j { assert allocs[i].Has(r.buf + r.len - 1) ==> !allocs[j].Has(r.buf + r.len - 1); }
    }
  }

  /** Adjoining allocations from the one that holds `a` to the first that reaches `end`; `TotalLen` is their span. */
  ghost predicate Spans(allocs: seq<Range>, rs: seq<Range>, a: nat, end: nat) {
    && rs != [] && (forall i | 0 <= i < |rs| :: rs[i] in allocs) && Adjoin(rs) && rs[0].Has(a)
    && end <= rs[|rs| - 1].buf + rs[|rs| - 1].len && (|rs| > 1 ==> rs[|rs| - 1].buf < end)
    && TotalLen(rs) == rs[|rs| - 1].buf + rs[|rs| - 1].len - rs[0].buf
  }

  lemma SpansCons(allocs: seq<Range>, r: Range, rest: seq<Range>, a: nat, end: nat)
    requires Disjoint(allocs) && r in allocs && r.Has(a) && r.buf + r.len < end
    requires Spans(allocs, rest, r.buf + r.len, end)
    ensures Spans(allocs, [r] + rest, a, end)
  {
    NextBase(allocs, r, rest[0]);
    TotalLenCons(r, rest);
    ConsAdjoin(r, rest);
  }

  /**
   * When the walk succeeds it returns adjoining allocations from the one that holds `a`, ending with the
   * first that reaches `end`; their lengths add up to the exact span from the first base.
   */
  lemma {:induction false} WalkFinds(allocs: seq<Range>, a: nat, end: nat)
    requires Disjoint(allocs) && Walk(allocs, a, end).Ok?
    ensures Spans(allocs, Walk(allocs, a, end).value, a, end)
    decreases end - a
  {
    var r := AddressRange(allocs, a).value;
    if r.buf + r.len < end {
      WalkFinds(allocs, r.buf + r.len, end);
      SpansCons(allocs, r, Walk(allocs, r.buf + r.len, end).value, a, end);
    } else {
      assert [r][..0] == [];
    }
  }

  /** The walk succeeds exactly when every address of the buffer, and the first one in any case, is mapped. */
  lemma {:induction false} WalkSucceeds(allocs: seq<Range>, a: nat, end: nat)
    requires Disjoint(allocs)
    ensures Walk(allocs, a, end).Ok? <==> Mapped(allocs, a) && forall b: nat | a <= b < end :: Mapped(allocs, b)
    decreases end - a
  {
    AddressFound(allocs, a);
    if AddressRange(allocs, a).Ok? {
      var r := AddressRange(allocs, a).value;
      var i :| 0 <= i < |allocs| && allocs[i] == r;
      assert forall b: nat | a <= b < r.buf + r.len :: allocs[i].Has(b);
      if r.buf + r.len < end { WalkSucceeds(allocs, r.buf + r.len, end); }
    }
  }

  lemma {:induction false} AdjoinCover(ranges: seq<Range>, a: nat)
    requires ranges != [] && Adjoin(ranges)
    requires ranges[0].buf <= a < ranges[|ranges| - 1].buf + ranges[|ranges| - 1].len
    ensures Reaches(ranges, a)
  {
    var n := |ranges| - 1;
    if ranges[n].buf <= a {
      assert ranges[n].Has(a);
    } else {
      AdjoinCover(ranges[..n], a);
      var i :| 0 <= i < n && ranges[..n][i].Has(a);
      assert ranges[i].Has(a);
    }
  }

  /**
   * pinRange over cuMem memory: adjoining allocations, the first holding ptr, whose union covers the whole
   * buffer; and it fails only when some address of the buffer is not mapped.
   */
  lemma PinCovers(allocs: seq<Range>, ptr: nat, len: nat)
    requires Disjoint(allocs)
    ensures Pin(allocs, true, ptr, len).Ok? <==> Mapped(allocs, ptr) && forall b: nat | ptr <= b < ptr + len :: Mapped(allocs, b)
    ensures Pin(allocs, true, ptr, len).Ok? ==>
      var rs := Pin(allocs, true, ptr, len).value;
      && rs != [] && rs[0].Has(ptr) && Adjoin(rs) && (forall i | 0 <= i < |rs| :: rs[i] in allocs)
      && (forall b: nat | ptr <= b < ptr + len :: Reaches(rs, b))
      && Range(rs[0].buf, TotalLen(rs)).Contains(Range(ptr, len))
  {
    WalkSucceeds(allocs, ptr, ptr + len);
    if Walk(allocs, ptr, ptr + len).Ok? {
      WalkFinds(allocs, ptr, ptr + len);
      var rs := Walk(allocs, ptr, ptr + len).value;
      forall b: nat | ptr <= b < ptr + len ensures Reaches(rs, b) { AdjoinCover(rs, b); }
    }
  }
}
