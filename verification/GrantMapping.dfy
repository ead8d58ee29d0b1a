/**
 Mapping and unmapping in an address space (src/context/memory.rs): `munmap_inner`, `mmap` and the
 page-table side of `Grant::unmap`.
 */
module GrantMapping {
  import opened Common
  import opened GrantInfos
  import opened GrantMap
  import opened GrantHoles
  import opened GrantSpace
  import opened GrantUnmap

  /** `EBUSY`, or the assertion in `extract`. `EINVAL` cannot occur, see `NeverInvalid`. */
  datatype MunmapResult = Done | Busy | Panicked

  datatype MapMode = FixedNoReplace | Fixed | Hint

  /** What the callback that creates the mapping made: the grant and the pages it made present. */
  datatype Made = Made(info: GrantInfo, present: map<nat, nat>)

  datatype MmapResult = Mapped(base: nat) | Exists | Refused | NoMemory | Failed

  predicate MadeOk(made: Made, base: nat, count: nat) {
    && made.info.count == count
    && (forall p :: p in made.present ==> base <= p < base + count)
    && (IsContiguous(made.info) ==>
          forall p: nat | base <= p < base + count ::
            p in made.present && base in made.present && made.present[p] == made.present[base] + (p - base))
  }

  /** The span that ends up cleared: up to the grant that stops the loop, if one does. */
  ghost predicate ClearedBy(m: Inner, span: PageSpan, unpin: bool, r: MunmapResult, cleared: PageSpan) {
    match r
    case Done => NothingBlocks(m, span, unpin) && cleared == SpanBetween(span.base, span.End())
    case Busy => !unpin && exists b: nat :: StopsAt(m, span, unpin, b) && cleared == SpanBetween(span.base, Max(b, span.base))
    case Panicked => unpin && exists b: nat :: StopsAt(m, span, unpin, b)
  }

  // ----- pins, page by page -----

  /** What is behind the page is pinned. */
  predicate PagePinned(m: Inner, p: nat) {
    AttrOf(m, p).Some? &&
    match AttrOf(m, p).value.backing
    case SharedMemory(pinned) => pinned
    case Borrowed(_, _, pinned) => pinned
    case SharedFile(_, _, pins) => pins > 0
    case _ => false
  }

  /** It is pinned by a count, which unpinning does not clear. */
  predicate FilePinned(m: Inner, p: nat) {
    AttrOf(m, p).Some? && AttrOf(m, p).value.backing.SharedFile? && AttrOf(m, p).value.backing.pins > 0
  }

  predicate PageStops(m: Inner, unpin: bool, p: nat) {
    if unpin then FilePinned(m, p) else PagePinned(m, p)
  }

  lemma PageOfGrantStops(m: Inner, b: nat, unpin: bool, p: nat)
    requires GrantsOk(m) && Holds(m, b, p)
    ensures PageStops(m, unpin, p) <==> Blocks(m[b], unpin)
  {
    AttrFrom(m, b, p);
  }

  lemma HitHasPage(m: Inner, b: nat, span: PageSpan) returns (p: nat)
    requires GrantsOk(m) && Hit(m, b, span)
    ensures p == Max(b, span.base) && span.Has(p) && Holds(m, b, p)
  {
    p := Max(b, span.base);
  }

  lemma PageHasGrant(m: Inner, unpin: bool, span: PageSpan, p: nat) returns (b: nat)
    requires GrantsOk(m) && span.Has(p) && PageStops(m, unpin, p)
    ensures Holds(m, b, p) && Hit(m, b, span) && Blocks(m[b], unpin)
  {
    ContainsIff(m, p);
    b := Contains(m, p).value;
    assert Holds(m, b, p);
    PageOfGrantStops(m, b, unpin, p);
    assert Intersection(SpanOf(m, b), span).Has(p);
  }

  /** A grant stops the loop exactly when a page of the span does. */
  lemma StopsByPage(m: Inner, span: PageSpan, unpin: bool)
    requires GrantsOk(m)
    ensures NothingBlocks(m, span, unpin) <==> forall p: nat :: span.Has(p) ==> !PageStops(m, unpin, p)
  {
    hide GrantsOk, PageStops, Blocks, Intersects;
    if b :| Hit(m, b, span) && Blocks(m[b], unpin) {
      var p := HitHasPage(m, b, span);
      PageOfGrantStops(m, b, unpin, p);
    }
    if p: nat :| span.Has(p) && PageStops(m, unpin, p) {
      var b := PageHasGrant(m, unpin, span, p);
    }
  }

  lemma PinnedByPage(m: Inner, span: PageSpan)
    requires GrantsOk(m)
    ensures NothingBlocks(m, span, false) <==> !exists p: nat :: span.Has(p) && PagePinned(m, p)
  {
    StopsByPage(m, span, false);
    hide NothingBlocks, PagePinned;
    assert forall p: nat :: PageStops(m, false, p) == PagePinned(m, p);
  }

  lemma HitByPage(m: Inner, span: PageSpan)
    requires GrantsOk(m)
    ensures (exists b :: Hit(m, b, span)) <==> exists p: nat :: span.Has(p) && AttrOf(m, p).Some?
  {
    if b :| Hit(m, b, span) {
      var p := HitHasPage(m, b, span);
      AttrFrom(m, b, p);
    }
    if p: nat :| span.Has(p) && AttrOf(m, p).Some? {
      ContainsIff(m, p);
      var b := Contains(m, p).value;
      assert Holds(m, b, p) && Intersection(SpanOf(m, b), span).Has(p);
      assert Hit(m, b, span);
    }
  }

  /** The pages up to the first that stops it. */
  ghost predicate BeforeStop(m: Inner, span: PageSpan, unpin: bool, p: nat) {
    span.Has(p) && forall q: nat :: span.Has(q) && q <= p ==> !PageStops(m, unpin, q)
  }

  lemma ClearedBefore(m: Inner, span: PageSpan, b: nat, p: nat)
    requires GrantsOk(m) && StopsAt(m, span, false, b)
    ensures SpanBetween(span.base, Max(b, span.base)).Has(p) <==> BeforeStop(m, span, false, p)
  {
    hide GrantsOk, PageStops, Blocks, Intersects;
    var first := HitHasPage(m, b, span);
    PageOfGrantStops(m, b, false, first);
    if p < first && span.Has(p) {
      forall q: nat | span.Has(q) && q <= p
        ensures !PageStops(m, false, q)
      {
        if PageStops(m, false, q) {
          var c := PageHasGrant(m, false, span, q);
        }
      }
    }
  }

  /** Unmapping in terms of pages: refused with `EBUSY` exactly when a page of the span is pinned, and
      then what comes before the first such page is cleared; with `unpin` it panics exactly when a page
      is pinned by a count. */
  lemma ClearedByPages(m: Inner, span: PageSpan, unpin: bool, r: MunmapResult, cleared: PageSpan)
    requires GrantsOk(m) && ClearedBy(m, span, unpin, r, cleared)
    ensures r.Busy? <==> !unpin && exists p: nat :: span.Has(p) && PagePinned(m, p)
    ensures r.Panicked? <==> unpin && exists p: nat :: span.Has(p) && FilePinned(m, p)
    ensures !r.Panicked? ==> forall p: nat :: cleared.Has(p) <==> BeforeStop(m, span, unpin, p)
  {
    StopsByPage(m, span, unpin);
    hide GrantsOk, PagePinned, FilePinned, Blocks, Intersects;
    match r
    case Done =>
      assert !unpin ==> forall p: nat :: span.Has(p) ==> PagePinned(m, p) == PageStops(m, unpin, p);
      assert unpin ==> forall p: nat :: span.Has(p) ==> FilePinned(m, p) == PageStops(m, unpin, p);
    case Busy =>
      var b: nat :| StopsAt(m, span, unpin, b) && cleared == SpanBetween(span.base, Max(b, span.base));
      var p := HitHasPage(m, b, span);
      PageOfGrantStops(m, b, unpin, p);
      forall p: nat
        ensures cleared.Has(p) <==> BeforeStop(m, span, unpin, p)
      {
        ClearedBefore(m, span, b, p);
      }
    case Panicked =>
      var b: nat :| StopsAt(m, span, unpin, b);
      var p := HitHasPage(m, b, span);
      PageOfGrantStops(m, b, unpin, p);
  }

  // ----- the first conflict -----

  /** The first conflict stops the loop. */
  lemma Stopped(m0: Inner, m: Inner, base: nat, cur: nat, end: nat, unpin: bool, b: nat)
    requires SoFar(m0, m, base, cur, end, unpin) && cur < end
    requires Hit(m, b, SpanBetween(cur, end)) && (forall c :: Hit(m, c, SpanBetween(cur, end)) ==> b <= c)
    requires Blocks(m[b], unpin)
    ensures StopsAt(m0, SpanBetween(base, end), unpin, b)
    ensures base <= cur <= Max(b, base) && (forall c :: c in m0 ==> !Intersects(SpanOf(m0, c), SpanBetween(cur, Max(b, base))))
  {
    hide AttrsSoFar, RestSame, NoStraddle, RunsFrom, Blocks;
    GapIsEmpty(m0, m, base, cur, end, unpin, b);
    assert Intersects(SpanOf(m0, b), SpanBetween(base, end));
    forall c | Hit(m0, c, SpanBetween(base, end)) && Blocks(m0[c], unpin)
      ensures b <= c
    {
      if c != b {
        assert !Hit(m0, c, SpanBetween(base, cur));
      }
    }
    StopNotBefore(m0, base, cur, end, unpin, b);
  }

  lemma StopNotBefore(m0: Inner, base: nat, cur: nat, end: nat, unpin: bool, b: nat)
    requires base <= cur < end && b in m0 && Intersects(SpanOf(m0, b), SpanBetween(cur, end)) && Blocks(m0[b], unpin)
    requires NothingBlocks(m0, SpanBetween(base, cur), unpin)
    ensures cur <= Max(b, base)
  {
    assert !Hit(m0, b, SpanBetween(base, cur));
  }

  // ----- facts for the loop -----

  lemma StartFacts(m: Inner, h: Holes, t: Table, q: seq<QueueEntry>, base: nat, end: nat, unpin: bool)
    requires GrantsValid(m, h) && base <= end
    ensures SoFar(m, m, base, base, end, unpin) && TableSoFar(t, q, t, q, base, base)
  {
    SoFarStart(m, base, end, unpin);
    assert WithoutPages(t, base, base) == t;
  }

  /** An empty span conflicts with nothing. */
  lemma SomethingLeft(m: Inner, b: nat, requested: PageSpan)
    requires b in m && Intersects(SpanOf(m, b), requested)
    ensures requested.count > 0
  {
  }

  lemma OnlyWhenUnpinning(info: GrantInfo, unpin: bool)
    requires !(IsPinned(info) && !unpin) && !CanExtract(Prepared(info, unpin), false)
    ensures unpin
  {
  }

  lemma IsRound(m0: Inner, m: Inner, base: nat, cur: nat, end: nat, unpin: bool, b: nat)
    requires SoFar(m0, m, base, cur, end, unpin) && cur < end && b in m && Intersects(SpanOf(m, b), SpanBetween(cur, end))
    requires forall c :: c in m && Intersects(SpanOf(m, c), SpanBetween(cur, end)) ==> b <= c
    ensures Hit(m, b, SpanBetween(cur, end)) && (forall c :: Hit(m, c, SpanBetween(cur, end)) ==> b <= c)
    ensures !Blocks(m[b], unpin) ==> Round(m0, m, base, cur, end, unpin, b)
  {
  }

  lemma BusyFacts(m0: Inner, m: Inner, t0: Table, q0: seq<QueueEntry>, t: Table, q: seq<QueueEntry>, base: nat, cur: nat, end: nat, b: nat)
    requires SoFar(m0, m, base, cur, end, false) && cur < end && TableSoFar(t0, q0, t, q, base, cur) && TableOk(t0, m0)
    requires Hit(m, b, SpanBetween(cur, end)) && (forall c :: Hit(m, c, SpanBetween(cur, end)) ==> b <= c)
    requires IsPinned(m[b])
    ensures StopsAt(m0, SpanBetween(base, end), false, b)
    ensures AttrsSoFar(m0, m, base, Max(b, base), false) && RunsFrom(m0, m, SpanBetween(base, Max(b, base)))
    ensures TableSoFar(t0, q0, t, q, base, Max(b, base))
  {
    hide AttrsSoFar, RunsFrom, TableSoFar, TableOk, StopsAt, NothingBlocks, RestSame, NoStraddle;
    Stopped(m0, m, base, cur, end, false, b);
    Widen(m0, m, base, cur, Max(b, base), end, false);
    GapNotPresent(m0, t0, cur, Max(b, base));
    TableGap(t0, q0, t, q, base, cur, Max(b, base));
  }

  lemma DoneFacts(m0: Inner, m: Inner, t0: Table, q0: seq<QueueEntry>, t: Table, q: seq<QueueEntry>, base: nat, cur: nat, end: nat, unpin: bool)
    requires SoFar(m0, m, base, end, end, unpin) && base <= cur <= end && TableSoFar(t0, q0, t, q, base, cur) && TableOk(t0, m0)
    requires forall c :: c in m0 ==> !Intersects(SpanOf(m0, c), SpanBetween(cur, end))
    ensures TableSoFar(t0, q0, t, q, base, end)
  {
    hide AttrsSoFar, RunsFrom, TableSoFar, TableOk, NothingBlocks, RestSame, NoStraddle;
    GapNotPresent(m0, t0, cur, end);
    TableGap(t0, q0, t, q, base, cur, end);
  }

  /** The middle of a contiguous grant is still a present run. */
  lemma MiddleRun(m0: Inner, m: Inner, t0: Table, t: Table, base: nat, cur: nat, end: nat, unpin: bool, b: nat)
    requires Round(m0, m, base, cur, end, unpin, b) && RunsOk(t0, m0) && t == WithoutPages(t0, base, cur)
    ensures b in m && Inside(CutSpan(m, b, cur, end), Grant(b, m[b])) && CanExtract(Prepared(m[b], unpin), false)
    ensures var g := Extract(Grant(b, Prepared(m[b], unpin)), CutSpan(m, b, cur, end)).middle;
            && g.Span() == CutSpan(m, b, cur, end) && g.info.count > 0
            && (IsContiguous(g.info) ==>
                  forall p | g.base <= p < g.base + g.info.count :: g.base in t && p in t && t[p] == t[g.base] + (p - g.base))
  {
    hide SoFar;
    RoundFacts(m0, m, base, cur, end, unpin, b);
    PreparedKeeps(m[b], unpin);
    GapIsEmpty(m0, m, base, cur, end, unpin, b);
    var cut := CutSpan(m, b, cur, end);
    var g := Extract(Grant(b, Prepared(m[b], unpin)), cut).middle;
    if IsContiguous(g.info) {
      assert IsContiguous(m0[b]);
      assert ContiguousAt(t0, m0, b);
      forall p | cut.base <= p < cut.End()
        ensures p in t && t[p] == t0[b] + (p - b)
      {
        assert SpanOf(m0, b).Has(p);
      }
    }
  }

  lemma RoundTable(m0: Inner, m: Inner, t0: Table, q0: seq<QueueEntry>, t: Table, q: seq<QueueEntry>, t1: Table, q1: seq<QueueEntry>,
                   base: nat, cur: nat, end: nat, unpin: bool, b: nat)
    requires Round(m0, m, base, cur, end, unpin, b) && TableSoFar(t0, q0, t, q, base, cur) && TableOk(t0, m0) && b in m
    requires t1 == WithoutPages(t, CutSpan(m, b, cur, end).base, CutSpan(m, b, cur, end).End())
    requires Flat(q1) == Flat(q) + PresentFrames(t, CutSpan(m, b, cur, end).base, CutSpan(m, b, cur, end).End())
    ensures TableSoFar(t0, q0, t1, q1, base, NextCur(m, b, end))
  {
    hide AttrsSoFar, RunsFrom, TableSoFar, TableOk, NothingBlocks, RestSame, NoStraddle, Flat, PresentFrames, WithoutPages, CutSpan, NextCur;
    RoundFacts(m0, m, base, cur, end, unpin, b);
    GapIsEmpty(m0, m, base, cur, end, unpin, b);
    var lo := CutSpan(m, b, cur, end).base;
    GapNotPresent(m0, t0, cur, lo);
    TableRound(t0, q0, t, q, t1, q1, base, cur, lo, NextCur(m, b, end));
  }

  lemma AttrsAre(m0: Inner, m: Inner, base: nat, cur: nat, unpin: bool)
    requires AttrsSoFar(m0, m, base, cur, unpin)
    ensures forall p: nat :: AttrOf(m, p) == AttrAfter(m0, SpanBetween(base, cur), unpin, p)
  {
  }

  lemma TableParts(t0: Table, q0: seq<QueueEntry>, t: Table, q: seq<QueueEntry>, base: nat, cur: nat)
    requires TableSoFar(t0, q0, t, q, base, cur)
    ensures t == WithoutPages(t0, base, cur) && Flat(q) == Flat(q0) + PresentFrames(t0, base, cur)
  {
  }

  // ----- facts for `mmap` -----

  lemma NothingCleared(m: Inner)
    requires GrantsOk(m)
    ensures forall p: nat :: AttrAfter(m, EMPTY, false, p) == AttrOf(m, p)
  {
    hide AttrAfter, AttrOf, GrantsOk;
    forall p: nat
      ensures AttrAfter(m, EMPTY, false, p) == AttrOf(m, p)
    {
      NothingClearedAt(m, p);
    }
  }

  lemma NothingClearedAt(m: Inner, p: nat)
    ensures AttrAfter(m, EMPTY, false, p) == AttrOf(m, p)
  {
    hide Contains, CutBacking;
  }

  ghost predicate NothingFits(h: Holes, min: nat, count: nat) {
    forall start: nat :: !Fits(h, start, min, count * PAGE_SIZE)
  }

  /** The span that `mmap` picks begins at `base`: as asked, or the lowest that fits. */
  ghost predicate IsChoice(h: Holes, requested: Option<nat>, mode: MapMode, min: nat, count: nat, base: nat) {
    if requested.Some? && !mode.Hint? then base == requested.value
    else
      && Fits(h, base * PAGE_SIZE, min, count * PAGE_SIZE)
      && (forall start: nat :: Fits(h, start, min, count * PAGE_SIZE) ==> base * PAGE_SIZE <= start)
  }

  /** There is one such span at most, so the outcome is determined. */
  lemma ChoiceIsUnique(h: Holes, requested: Option<nat>, mode: MapMode, min: nat, count: nat, a: nat, b: nat)
    requires IsChoice(h, requested, mode, min, count, a) && IsChoice(h, requested, mode, min, count, b)
    ensures a == b
  {
    hide Fits;
  }

  /** What is cleared on the way: nothing, or in fixed mode what unmapping the span clears. */
  ghost predicate MayClear(m: Inner, requested: Option<nat>, mode: MapMode, count: nat, refused: bool, cleared: PageSpan) {
    if requested.Some? && mode.Fixed?
    then ClearedBy(m, PageSpan(requested.value, count), false, if refused then Busy else Done, cleared)
    else cleared == EMPTY
  }

  lemma NothingUnmapped(t: Table, q: seq<QueueEntry>)
    ensures WithoutPages(t, EMPTY.base, EMPTY.End()) == t
    ensures Flat(q) + PresentFrames(t, EMPTY.base, EMPTY.End()) == Flat(q)
  {
  }

  ghost predicate SpanFits(m: Inner, base: nat, count: nat) {
    base + count <= USER_PAGES && forall b :: b in m ==> !Intersects(SpanOf(m, b), PageSpan(base, count))
  }

  lemma FreeSpanFits(m: Inner, base: nat, count: nat)
    requires base + count <= USER_PAGES && forall b :: b in m ==> !Intersects(SpanOf(m, b), PageSpan(base, count))
    ensures SpanFits(m, base, count)
    ensures !exists b :: Hit(m, b, PageSpan(base, count))
  {
  }

  lemma SameSpanFits(m: Inner, base: nat, count: nat, g: Grant)
    requires SpanFits(m, base, count) && g.base == base && g.info.count == count > 0
    ensures CanInsert(m, g)
  {
  }

  lemma MadeCount(made: Made, base: nat, count: nat)
    requires MadeOk(made, base, count)
    ensures made.info.count == count
  {
  }

  lemma ValidHoles(m: Inner, h: Holes)
    requires GrantsValid(m, h)
    ensures HolesOk(h) && PageHoles(h)
  {
  }

  lemma FoundFits(m: Inner, h: Holes, min: nat, count: nat)
    requires GrantsValid(m, h) && OnPage(min) && count > 0
    ensures var r := FindFree(h, min, count); r.Some? ==> SpanFits(m, r.value.base, count)
  {
    FindFreeCanInsert(m, h, min, GrantInfo(count, 0, true, AllocatedShared(false)));
  }

  lemma ClearedFacts(m: Inner, span: PageSpan, u: MunmapResult, cleared: PageSpan)
    requires ClearedBy(m, span, false, u, cleared)
    ensures !u.Panicked?
    ensures u.Busy? <==> !NothingBlocks(m, span, false)
    ensures u.Done? ==> cleared == span
    ensures forall p: nat :: cleared.Has(p) ==> span.Has(p)
  {
    if u.Busy? {
      var b: nat :| StopsAt(m, span, false, b) && cleared == SpanBetween(span.base, Max(b, span.base));
      StopInside(m, span, b);
    }
  }

  lemma StopInside(m: Inner, span: PageSpan, b: nat)
    requires StopsAt(m, span, false, b)
    ensures Max(b, span.base) <= span.End() && !NothingBlocks(m, span, false)
  {
  }

  /** After clearing, nothing conflicts with the span. */
  lemma ClearedFits(m0: Inner, m: Inner, base: nat, count: nat)
    requires GrantsOk(m) && base + count <= USER_PAGES
    requires forall p: nat :: AttrOf(m, p) == AttrAfter(m0, PageSpan(base, count), false, p)
    ensures SpanFits(m, base, count)
  {
    hide AttrOf, AttrAfter;
    forall b | b in m
      ensures !Intersects(SpanOf(m, b), PageSpan(base, count))
    {
      var i := Intersection(SpanOf(m, b), PageSpan(base, count));
      if i.count != 0 {
        assert i.Has(i.base);
        AttrFrom(m, b, i.base);
        ClearedIsNone(m0, PageSpan(base, count), false, i.base);
        assert false;
      }
    }
  }

  /** The new pages belong to the new grant. */
  lemma MadeTable(m: Inner, t: Table, g: Grant, made: Made)
    requires GrantsOk(m) && CanInsert(m, g) && MadeOk(made, g.base, g.info.count) && made.info == g.info
    requires TableOk(t, m) && RunsOk(t, m)
    ensures TableOk(t + made.present, InsertInner(m, g)) && RunsOk(t + made.present, InsertInner(m, g))
  {
    hide AttrOf, InsertInner;
    var t1, m1 := t + made.present, InsertInner(m, g);
    forall p | p in t1
      ensures AttrOf(m1, p).Some?
    {
      InsertAttr(m, g, p);
    }
    forall b | b in m1 && IsContiguous(m1[b])
      ensures ContiguousAt(t1, m1, b)
    {
      InsertedRun(m, g, b);
      if b != g.base {
        assert ContiguousAt(t, m, b);
        forall p: nat | SpanOf(m, b).Has(p)
          ensures !g.Span().Has(p) && !g.Span().Has(b)
        {
          Apart(m, g, b);
        }
      }
    }
  }

  /** A contiguous grant never merges. */
  lemma InsertedRun(m: Inner, g: Grant, b: nat)
    requires GrantsOk(m) && CanInsert(m, g) && b in InsertInner(m, g) && IsContiguous(InsertInner(m, g)[b])
    ensures b == g.base ==> InsertInner(m, g)[b] == g.info
    ensures b != g.base ==> b in m && InsertInner(m, g)[b] == m[b]
  {
    NeighbourFacts(m, g);
    MergedEnds(m, g);
  }

  class AddrSpace {
    const grants: UserGrants
    var table: Table
    var queue: seq<QueueEntry>
    /** `mmap_min`, which is only ever set to a page boundary. */
    var mmapMin: nat

    ghost predicate Valid()
      reads this, grants
    {
      grants.Valid() && OnPage(mmapMin) && TableOk(table, grants.inner) && RunsOk(table, grants.inner)
    }

    constructor ()
      ensures Valid() && fresh(grants) && grants.inner == map[] && table == map[] && queue == []
    {
      grants := new UserGrants();
      table, queue, mmapMin := map[], [], PAGE_SIZE;
    }

    /** `Grant::unmap`: present pages leave the table and their frames are queued. */
    method UnmapGrant(g: Grant)
      requires IsContiguous(g.info) ==> g.info.count > 0
      requires IsContiguous(g.info) ==> forall p | g.base <= p < g.base + g.info.count :: g.base in table && p in table && table[p] == table[g.base] + (p - g.base)
      modifies this`table, this`queue
      ensures table == WithoutPages(old(table), g.base, g.Span().End())
      ensures Flat(queue) == Flat(old(queue)) + PresentFrames(old(table), g.base, g.Span().End())
      // a contiguous run is queued as one entry, anything else page by page
      ensures IsContiguous(g.info) ==> queue == old(queue) + [Run(old(table)[g.base], g.info.count)]
      ensures !IsContiguous(g.info) ==>
                |old(queue)| <= |queue| && queue[..|old(queue)|] == old(queue) && forall j | |old(queue)| <= j < |queue| :: queue[j].One?
    {
      hide Flat;
      ghost var t0, q0 := table, queue;
      assert WithoutPages(t0, g.base, g.base) == t0;
      if IsContiguous(g.info) {
        var baseFrame := table[g.base];
        var i := 0;
        while i < g.info.count
          invariant 0 <= i <= g.info.count && table == WithoutPages(t0, g.base, g.base + i)
          invariant queue == q0
        {
          assert g.base + i in table && table[g.base + i] == baseFrame + i;
          table := table - {g.base + i};
          i := i + 1;
        }
        PresentRun(t0, baseFrame, g.base, g.info.count);
        FlatPush(queue, Run(baseFrame, g.info.count));
        queue := queue + [Run(baseFrame, g.info.count)];
      } else {
        var p := g.base;
        assert PresentFrames(t0, g.base, g.base) == [];
        while p < g.base + g.info.count
          invariant g.base <= p <= g.base + g.info.count && table == WithoutPages(t0, g.base, p)
          invariant Flat(queue) == Flat(q0) + PresentFrames(t0, g.base, p)
          invariant |q0| <= |queue| && queue[..|q0|] == q0 && forall j | |q0| <= j < |queue| :: queue[j].One?
        {
          if p in table {
            var frame := table[p];
            table := table - {p};
            FlatPush(queue, One(frame));
            queue := queue + [One(frame)];
          }
          p := p + 1;
        }
      }
    }

    /** One round of the loop: takes out the grant at `b` and puts back what lies outside the cut. */
    method CutGrant(b: nat, info: GrantInfo, cut: PageSpan, unpin: bool) returns (middle: Grant)
      requires grants.Valid() && b in grants.inner && grants.inner[b] == info && !Blocks(info, unpin)
      requires cut.count > 0 && Inside(cut, Grant(b, info)) && CanExtract(Prepared(info, unpin), false)
      modifies grants
      ensures grants.Valid() && grants.inner == CutOut(old(grants.inner), b, cut, unpin)
      ensures middle == Extract(Grant(b, Prepared(info, unpin)), cut).middle
    {
      hide GrantsValid, CanInsert, InsertInner, Extract, AttrOf, Blocks;
      ghost var m := grants.inner;
      ValidGrants(grants.inner, grants.holes);
      RoundFits(m, b, cut, unpin);
      PreparedKeeps(info, unpin);
      var removed := grants.Remove(b);
      var g := removed.value;
      if unpin {
        g := g.(info := Unpin(g.info));
      }
      var parts := Extract(g, cut);
      if parts.before.Some? {
        grants.Insert(parts.before.value);
      }
      if parts.after.Some? {
        grants.Insert(parts.after.value);
      }
      middle := parts.middle;
    }

    /** The rest of one round: what lies outside the cut goes back, what lies inside is unmapped. */
    method ClearGrant(b: nat, info: GrantInfo, cut: PageSpan, unpin: bool,
                      ghost m0: Inner, ghost t0: Table, ghost q0: seq<QueueEntry>, ghost base: nat, ghost cur: nat, ghost end: nat)
      requires grants.Valid() && Round(m0, grants.inner, base, cur, end, unpin, b)
      requires b in grants.inner && info == grants.inner[b] && cut == CutSpan(grants.inner, b, cur, end)
      requires TableSoFar(t0, q0, table, queue, base, cur) && TableOk(t0, m0) && RunsOk(t0, m0)
      modifies this`table, this`queue, grants
      ensures grants.Valid()
      ensures SoFar(m0, grants.inner, base, NextCur(old(grants.inner), b, end), end, unpin)
      ensures TableSoFar(t0, q0, table, queue, base, NextCur(old(grants.inner), b, end))
    {
      hide GrantsValid, CutOut, AttrOf, Blocks, Flat, PresentFrames, WithoutPages, TableOk, RunsOk, SoFar, TableSoFar, Extract, CanExtract, Prepared, CutSpan, Hit, NextCur;
      ghost var m, t, q := grants.inner, table, queue;
      RoundFacts(m0, m, base, cur, end, unpin, b);
      var middle := CutGrant(b, info, cut, unpin);
      ValidGrants(grants.inner, grants.holes);
      RoundKeeps(m0, m, base, cur, end, unpin, b);
      TableParts(t0, q0, t, q, base, cur);
      MiddleRun(m0, m, t0, t, base, cur, end, unpin, b);
      UnmapGrant(middle);
      RoundTable(m0, m, t0, q0, t, q, table, queue, base, cur, end, unpin, b);
    }

    method MunmapInner(span: PageSpan, unpin: bool) returns (r: MunmapResult, ghost cleared: PageSpan)
      requires Valid()
      modifies this`table, this`queue, grants
      ensures ClearedBy(old(grants.inner), span, unpin, r, cleared)
      // both failures, and what was cleared before them, by the pages of the span
      ensures r.Busy? <==> !unpin && exists p: nat :: span.Has(p) && PagePinned(old(grants.inner), p)
      ensures r.Panicked? <==> unpin && exists p: nat :: span.Has(p) && FilePinned(old(grants.inner), p)
      ensures !r.Panicked? ==> forall p: nat :: cleared.Has(p) <==> BeforeStop(old(grants.inner), span, unpin, p)
      ensures !r.Panicked? ==>
                && Valid() && mmapMin == old(mmapMin)
                // what each page looks like afterwards, inside and outside the span
                && (forall p: nat :: AttrOf(grants.inner, p) == AttrAfter(old(grants.inner), cleared, unpin, p))
                // present pages leave the table, and each frame is queued once, in order
                && table == WithoutPages(old(table), cleared.base, cleared.End())
                && Flat(queue) == Flat(old(queue)) + PresentFrames(old(table), cleared.base, cleared.End())
    {
      hide GrantsValid, CutOut, AttrOf, AttrAfter, Blocks, Flat, PresentFrames, WithoutPages, TableOk, RunsOk, RunsFrom, NothingBlocks, AttrsSoFar, RestSame, NoStraddle, StopsAt, SoFar, Round, TableSoFar, Hit, Intersects, Extract, CanExtract, IsPinned, Unpin, Prepared, CutSpan, Conflicts, PagePinned, FilePinned, BeforeStop;
      ghost var m0, t0, q0 := grants.inner, table, queue;
      ValidGrants(m0, grants.holes);
      ghost var base, end, cur := span.base, span.End(), span.base;
      var requested := span;
      StartFacts(m0, grants.holes, t0, q0, base, end, unpin);
      while true
        invariant grants.Valid() && SoFar(m0, grants.inner, base, cur, end, unpin)
        invariant cur < end ==> requested == SpanBetween(cur, end)
        invariant cur == end ==> requested.count == 0
        invariant TableSoFar(t0, q0, table, queue, base, cur)
        invariant base <= cur <= end
        decreases end - cur
      {
        ValidGrants(grants.inner, grants.holes);
        FirstConflict(grants.inner, requested);
        var conflicts := Conflicts(grants.inner, requested);
        if conflicts == [] {
          break;
        }
        var b := conflicts[0];
        var info := grants.inner[b];
        SomethingLeft(grants.inner, b, requested);
        IsRound(m0, grants.inner, base, cur, end, unpin, b);
        if IsPinned(info) && !unpin {
          BusyFacts(m0, grants.inner, t0, q0, table, queue, base, cur, end, b);
          r, cleared := Busy, SpanBetween(base, Max(b, base));
          AttrsAre(m0, grants.inner, base, Max(b, base), unpin);
          TableParts(t0, q0, table, queue, base, Max(b, base));
          TablesStayOk(m0, grants.inner, t0, table, base, Max(b, base), unpin);
          ClearedByPages(m0, span, unpin, r, cleared);
          return;
        }
        NeverInvalid(info, unpin);
        PreparedKeeps(info, unpin);
        var conflicting := PageSpan(b, info.count);
        var intersection := Intersection(conflicting, requested);
        requested := if conflicting.End() < requested.End()
                     then PageSpan(conflicting.End(), requested.End() - conflicting.End()) else EMPTY;
        if !CanExtract(Prepared(info, unpin), false) {
          OnlyWhenUnpinning(info, unpin);
          Stopped(m0, grants.inner, base, cur, end, unpin, b);
          r, cleared := Panicked, EMPTY;
          ClearedByPages(m0, span, unpin, r, cleared);
          return;
        }
        ghost var m := grants.inner;
        RoundFacts(m0, m, base, cur, end, unpin, b);
        ClearGrant(b, info, intersection, unpin, m0, t0, q0, base, cur, end);
        cur := NextCur(m, b, end);
      }
      SoFarEnd(m0, grants.inner, base, cur, end, unpin);
      DoneFacts(m0, grants.inner, t0, q0, table, queue, base, cur, end, unpin);
      AttrsAre(m0, grants.inner, base, end, unpin);
      TableParts(t0, q0, table, queue, base, end);
      TablesStayOk(m0, grants.inner, t0, table, base, end, unpin);
      r, cleared := Done, SpanBetween(base, end);
      ClearedByPages(m0, span, unpin, r, cleared);
    }

    /** The first half of `mmap`: `Mapped` stands for a span that was found or made free. */
    method ChooseSpan(requested: Option<nat>, count: nat, mode: MapMode) returns (r: MmapResult, ghost cleared: PageSpan)
      requires Valid() && count > 0
      requires requested.Some? ==> requested.value + count <= USER_PAGES
      modifies this`table, this`queue, grants
      ensures Valid() && mmapMin == old(mmapMin) && !r.Failed?
      ensures MayClear(old(grants.inner), requested, mode, count, r.Refused?, cleared)
      ensures forall p: nat :: AttrOf(grants.inner, p) == AttrAfter(old(grants.inner), cleared, false, p)
      ensures table == WithoutPages(old(table), cleared.base, cleared.End())
      ensures Flat(queue) == Flat(old(queue)) + PresentFrames(old(table), cleared.base, cleared.End())
      ensures r.NoMemory? <==> (requested.None? || mode.Hint?) && NothingFits(old(grants.holes), mmapMin, count)
      ensures r.Exists? <==> requested.Some? && mode.FixedNoReplace? && exists b :: Hit(old(grants.inner), b, PageSpan(requested.value, count))
      ensures r.Refused? <==> requested.Some? && mode.Fixed? && !NothingBlocks(old(grants.inner), PageSpan(requested.value, count), false)
      ensures r.Mapped? ==> SpanFits(grants.inner, r.base, count) && IsChoice(old(grants.holes), requested, mode, mmapMin, count, r.base)
    {
      hide GrantsValid, AttrOf, AttrAfter, Fits, TableOk, RunsOk, NothingBlocks, StopsAt, FindFree, WithoutPages, Flat, PresentFrames;
      cleared := EMPTY;
      ghost var m0 := grants.inner;
      ValidGrants(grants.inner, grants.holes);
      NothingCleared(m0);
      NothingUnmapped(table, queue);
      if requested.Some? && mode.FixedNoReplace? {
        var base := requested.value;
        FirstConflict(grants.inner, PageSpan(base, count));
        if Conflicts(grants.inner, PageSpan(base, count)) != [] {
          assert Hit(m0, Conflicts(grants.inner, PageSpan(base, count))[0], PageSpan(base, count));
          return Exists, EMPTY;
        }
        FreeSpanFits(grants.inner, base, count);
        r := Mapped(base);
      } else if requested.Some? && mode.Fixed? {
        var base := requested.value;
        var u;
        u, cleared := MunmapInner(PageSpan(base, count), false);
        ClearedFacts(m0, PageSpan(base, count), u, cleared);
        if u.Busy? {
          return MmapResult.Refused, cleared;
        }
        ValidGrants(grants.inner, grants.holes);
        ClearedFits(m0, grants.inner, base, count);
        r := Mapped(base);
      } else {
        FindFreeExact(grants.holes, mmapMin, count) by { ValidHoles(grants.inner, grants.holes); }
        var found := FindFree(grants.holes, mmapMin, count);
        if found.None? {
          return NoMemory, EMPTY;
        }
        FoundFits(grants.inner, grants.holes, mmapMin, count);
        r := Mapped(found.value.base);
      }
    }

    /** `mmap`: the callback `make` creates the mapping at the span that was chosen. Whatever was
        chosen, the assertion in `insert` holds. */
    method Mmap(requested: Option<nat>, count: nat, mode: MapMode, make: nat -> Option<Made>) returns (r: MmapResult, ghost cleared: PageSpan)
      requires Valid() && count > 0
      requires requested.Some? ==> requested.value + count <= USER_PAGES
      requires forall b: nat :: make(b).Some? ==> MadeOk(make(b).value, b, count)
      modifies this`table, this`queue, grants
      ensures Valid() && mmapMin == old(mmapMin)
      // each error exactly when its cause holds, tried in this order
      ensures r.NoMemory? <==> (requested.None? || mode.Hint?) && NothingFits(old(grants.holes), mmapMin, count)
      ensures r.Exists? <==>
              requested.Some? && mode.FixedNoReplace? &&
              exists p: nat :: PageSpan(requested.value, count).Has(p) && AttrOf(old(grants.inner), p).Some?
      ensures r.Refused? <==>
              requested.Some? && mode.Fixed? &&
              exists p: nat :: PageSpan(requested.value, count).Has(p) && PagePinned(old(grants.inner), p)
      // otherwise the span is the one asked for or the lowest that fits, and the callback decides
      ensures !r.NoMemory? && !r.Exists? && !r.Refused? ==>
                exists b: nat :: IsChoice(old(grants.holes), requested, mode, mmapMin, count, b) && r == if make(b).None? then Failed else Mapped(b)
      // only a fixed mapping that may replace clears anything
      ensures MayClear(old(grants.inner), requested, mode, count, r.Refused?, cleared)
      // every page is the new grant's, or is as the clearing leaves it
      ensures r.Mapped? ==>
                && make(r.base).Some? && make(r.base).value.info.count == count
                && (forall p: nat :: AttrOf(grants.inner, p) ==
                      if PageSpan(r.base, count).Has(p) then Some(AttrAt(Grant(r.base, make(r.base).value.info), p))
                      else AttrAfter(old(grants.inner), cleared, false, p))
      ensures !r.Mapped? ==> forall p: nat :: AttrOf(grants.inner, p) == AttrAfter(old(grants.inner), cleared, false, p)
      // the page table loses the cleared pages, whose frames are queued, and gains those of the callback
      ensures table == WithoutPages(old(table), cleared.base, cleared.End()) + (if r.Mapped? then make(r.base).value.present else map[])
      ensures Flat(queue) == Flat(old(queue)) + PresentFrames(old(table), cleared.base, cleared.End())
    {
      hide GrantsValid, AttrOf, AttrAfter, TableOk, RunsOk, MadeOk, CanInsert, NothingBlocks, NothingFits, InsertInner, WithoutPages, Flat, PresentFrames, SpanFits, IsChoice, MayClear, Hit, PagePinned, GrantsOk;
      ghost var m0 := grants.inner;
      ValidGrants(m0, grants.holes);
      if requested.Some? {
        PinnedByPage(m0, PageSpan(requested.value, count));
        HitByPage(m0, PageSpan(requested.value, count));
      }
      r, cleared := ChooseSpan(requested, count, mode);
      if !r.Mapped? {
        return;
      }
      var base := r.base;
      var made := make(base);
      if made.None? {
        return Failed, cleared;
      }
      var g := Grant(base, made.value.info);
      MadeCount(made.value, base, count);
      ValidGrants(grants.inner, grants.holes);
      SameSpanFits(grants.inner, base, count, g);
      MadeTable(grants.inner, table, g, made.value);
      grants.Insert(g);
      table := table + made.value.present;
    }
  }
}
