/**
 What `munmap_inner` (src/context/memory.rs) does, page by page: the specification of the loop and
 the lemmas about one round of it.
 */
module GrantUnmap {
  import opened Common
  import opened GrantInfos
  import opened GrantMap
  import opened GrantHoles
  import opened GrantSpace

  /** The grant stops the loop: with `EBUSY`, or when unpinning with a failed assertion. */
  predicate Blocks(info: GrantInfo, unpin: bool) {
    if unpin then info.provider.FmapBorrowed? && info.provider.pinRefcount >= 1 else IsPinned(info)
  }

  predicate Hit(m: Inner, b: nat, span: PageSpan) {
    b in m && Intersects(SpanOf(m, b), span)
  }

  function Prepared(info: GrantInfo, unpin: bool): GrantInfo {
    if unpin then Unpin(info) else info
  }

  /** What page `p` looks like once the span `cleared` has been unmapped. */
  function AttrAfter(m: Inner, cleared: PageSpan, unpin: bool, p: nat): Option<Attr> {
    if cleared.Has(p) then None
    else
      var r := Contains(m, p);
      if r.None? then None
      else
        var g := Grant(r.value, Prepared(m[r.value], unpin));
        var cut := Intersection(g.Span(), cleared);
        if cut.count == 0 then AttrOf(m, p)
        else Some(Attr(g.info.flags, g.info.mapped, CutBacking(g, cut, p)))
  }

  /** Clearing the span leaves page `p` of grant `g` as it is: the span does not meet the grant; or no
      pin is dropped, and the cut is clean or `p` lies before the cut of a borrowed grant. */
  predicate PageKept(g: Grant, cleared: PageSpan, unpin: bool, p: nat) {
    var cut := Intersection(g.Span(), cleared);
    || cut.count == 0
    || (&& !(unpin && IsPinned(g.info) && !g.info.provider.FmapBorrowed?)
        && (CutsCleanly(g, cut) || (g.info.provider.External? && p < cut.base)))
  }

  /** A page outside the span keeps its attributes exactly then, pinned or not. */
  lemma OutsideKeptIff(m: Inner, cleared: PageSpan, unpin: bool, b: nat, p: nat)
    requires GrantsOk(m) && Holds(m, b, p) && !cleared.Has(p)
    ensures AttrAfter(m, cleared, unpin, p) == AttrOf(m, p) <==> PageKept(Grant(b, m[b]), cleared, unpin, p)
  {
    ContainsIff(m, p);
    AttrFrom(m, b, p);
    hide GrantsOk, Contains;
    var g := Grant(b, Prepared(m[b], unpin));
    var cut := Intersection(g.Span(), cleared);
    if cut.count != 0 {
      CutKeptIff(Grant(b, m[b]), cut, unpin, p);
    }
  }

  lemma CutKeptIff(g: Grant, cut: PageSpan, unpin: bool, p: nat)
    requires g.Span().Has(p) && Inside(cut, g) && cut.count > 0 && !cut.Has(p)
    ensures var g1 := Grant(g.base, Prepared(g.info, unpin));
            && g1.Span() == g.Span()
            && (CutBacking(g1, cut, p) == BackingAt(g.info.provider, p - g.base) <==>
                && !(unpin && IsPinned(g.info) && !g.info.provider.FmapBorrowed?)
                && (CutsCleanly(g, cut) || (g.info.provider.External? && p < cut.base)))
  {
  }

  /** Two cleared spans that cut the page's grant alike. */
  lemma AttrAfterSame(m: Inner, c1: PageSpan, c2: PageSpan, unpin: bool, p: nat)
    requires GrantsOk(m) && (c1.Has(p) <==> c2.Has(p))
    requires forall b: nat :: Holds(m, b, p) ==>
               Intersection(SpanOf(m, b), c1) == Intersection(SpanOf(m, b), c2)
               || (!Intersects(SpanOf(m, b), c1) && !Intersects(SpanOf(m, b), c2))
    ensures AttrAfter(m, c1, unpin, p) == AttrAfter(m, c2, unpin, p)
  {
    ContainsIff(m, p);
  }

  /** Clearing further, over pages that no grant has, changes nothing. */
  lemma AttrAfterGap(m: Inner, base: nat, cur: nat, next: nat, unpin: bool, p: nat)
    requires GrantsOk(m) && base <= cur <= next
    requires forall b :: b in m ==> !Intersects(SpanOf(m, b), SpanBetween(cur, next))
    ensures AttrAfter(m, SpanBetween(base, cur), unpin, p) == AttrAfter(m, SpanBetween(base, next), unpin, p)
  {
    ContainsIff(m, p);
    var r := Contains(m, p);
    if r.Some? {
      GapSides(m, r.value, cur, next);
      AttrAfterSame(m, SpanBetween(base, cur), SpanBetween(base, next), unpin, p);
    }
  }

  lemma GapSides(m: Inner, b: nat, cur: nat, next: nat)
    requires GrantsOk(m) && b in m && cur <= next && !Intersects(SpanOf(m, b), SpanBetween(cur, next))
    ensures cur == next || b + m[b].count <= cur || next <= b
  {
  }

  // ----- the first grant that stops the loop -----

  ghost predicate StopsAt(m: Inner, span: PageSpan, unpin: bool, b: nat) {
    Hit(m, b, span) && Blocks(m[b], unpin) && forall c :: Hit(m, c, span) && Blocks(m[c], unpin) ==> b <= c
  }

  ghost predicate NothingBlocks(m: Inner, span: PageSpan, unpin: bool) {
    forall b :: Hit(m, b, span) ==> !Blocks(m[b], unpin)
  }

  // ----- page tables and the queue -----

  type Table = map<nat, nat>

  /** `PageQueueEntry::Free`: one frame, or a contiguous run of them. */
  datatype QueueEntry = One(frame: nat) | Run(frame: nat, count: nat)

  function EntryFrames(e: QueueEntry): seq<nat> {
    match e
    case One(f) => [f]
    case Run(f, n) => seq(n, i requires 0 <= i => f + i)
  }

  /** All queued frames in order. */
  function Flat(q: seq<QueueEntry>): seq<nat> {
    if q == [] then [] else Flat(q[..|q| - 1]) + EntryFrames(q[|q| - 1])
  }

  lemma FlatPush(q: seq<QueueEntry>, e: QueueEntry)
    ensures Flat(q + [e]) == Flat(q) + EntryFrames(e)
  {
    assert (q + [e])[..|q|] == q;
  }

  /** The frames of the present pages of [lo, hi), in ascending order. */
  function PresentFrames(t: Table, lo: nat, hi: nat): seq<nat>
    decreases hi - lo
  {
    if hi <= lo then [] else PresentFrames(t, lo, hi - 1) + (if hi - 1 in t then [t[hi - 1]] else [])
  }

  function WithoutPages(t: Table, lo: nat, hi: nat): Table {
    map p | p in t && !(lo <= p < hi) :: t[p]
  }

  lemma {:induction false} PresentSplit(t: Table, lo: nat, mid: nat, hi: nat)
    requires lo <= mid <= hi
    ensures PresentFrames(t, lo, hi) == PresentFrames(t, lo, mid) + PresentFrames(t, mid, hi)
    decreases hi - mid
  {
    if mid < hi {
      PresentSplit(t, lo, mid, hi - 1);
    }
  }

  lemma {:induction false} PresentSame(t: Table, t1: Table, lo: nat, hi: nat)
    requires forall p | lo <= p < hi :: (p in t <==> p in t1) && (p in t ==> t[p] == t1[p])
    ensures PresentFrames(t, lo, hi) == PresentFrames(t1, lo, hi)
    decreases hi - lo
  {
    if lo < hi {
      PresentSame(t, t1, lo, hi - 1);
    }
  }

  lemma {:induction false} PresentNone(t: Table, lo: nat, hi: nat)
    requires forall p | lo <= p < hi :: p !in t
    ensures PresentFrames(t, lo, hi) == []
    decreases hi - lo
  {
    if lo < hi {
      PresentNone(t, lo, hi - 1);
    }
  }

  lemma {:induction false} PresentRun(t: Table, f: nat, lo: nat, n: nat)
    requires forall p | lo <= p < lo + n :: p in t && t[p] == f + (p - lo)
    ensures PresentFrames(t, lo, lo + n) == EntryFrames(Run(f, n))
    decreases n
  {
    if n > 0 {
      PresentRun(t, f, lo, n - 1);
    }
  }

  /** Only pages of grants are present. */
  ghost predicate TableOk(t: Table, m: Inner) {
    forall p :: p in t ==> AttrOf(m, p).Some?
  }

  ghost predicate ContiguousAt(t: Table, m: Inner, b: nat)
    requires b in m
  {
    forall p: nat :: SpanOf(m, b).Has(p) ==> p in t && b in t && t[p] == t[b] + (p - b)
  }

  /** Physically contiguous grants are fully present, on consecutive frames. */
  ghost predicate RunsOk(t: Table, m: Inner) {
    forall b :: b in m && IsContiguous(m[b]) ==> ContiguousAt(t, m, b)
  }

  // ----- one round -----

  /** The map after one grant has been taken out and its outer parts put back. */
  function InsertOpt(m: Inner, g: Option<Grant>): Inner {
    if g.Some? then InsertInner(m, g.value) else m
  }

  function CutOut(m: Inner, b: nat, span: PageSpan, unpin: bool): Inner
    requires b in m && Inside(span, Grant(b, m[b])) && CanExtract(Prepared(m[b], unpin), false)
  {
    var parts := Extract(Grant(b, Prepared(m[b], unpin)), span);
    InsertOpt(InsertOpt(m - {b}, parts.before), parts.after)
  }

  lemma PreparedKeeps(info: GrantInfo, unpin: bool)
    ensures Prepared(info, unpin).count == info.count && Prepared(info, unpin).flags == info.flags && Prepared(info, unpin).mapped == info.mapped
    ensures Blocks(info, unpin) <==> !CanExtract(Prepared(info, unpin), false)
    ensures IsContiguous(Prepared(info, unpin)) <==> IsContiguous(info)
  {
  }

  /** A part of a removed grant conflicts with none of the others. */
  lemma PartFits(m: Inner, b: nat, g: Grant)
    requires GrantsOk(m) && b in m && 0 < g.info.count && b <= g.base && g.Span().End() <= b + m[b].count
    ensures CanInsert(m - {b}, g)
  {
    forall c | c in m - {b}
      ensures !Intersects(SpanOf(m - {b}, c), g.Span())
    {
    }
  }

  /** The second part fits after the first has been put back and merged. */
  lemma SecondFits(m: Inner, first: Grant, second: Grant)
    requires GrantsOk(m) && CanInsert(m, first) && CanInsert(m, second) && first.Span().End() < second.base
    ensures CanInsert(InsertInner(m, first), second)
  {
    hide CanMerge, Neighbours;
    NeighbourFacts(m, first);
    MergedEnds(m, first);
    var m1 := InsertInner(m, first);
    forall c | c in m1
      ensures !Intersects(SpanOf(m1, c), second.Span())
    {
      if c == MergedGrant(m, first).base {
        if MergedGrant(m, first).Span().End() > first.Span().End() {
          Apart(m, second, first.Span().End());
        }
      } else {
        Apart(m, second, c);
      }
    }
  }

  /** The steps of one round, and that each insertion is allowed. */
  lemma RoundFits(m: Inner, b: nat, span: PageSpan, unpin: bool)
    requires GrantsOk(m) && b in m && Inside(span, Grant(b, m[b])) && span.count > 0 && !Blocks(m[b], unpin)
    ensures CanExtract(Prepared(m[b], unpin), false)
    ensures var parts := Extract(Grant(b, Prepared(m[b], unpin)), span);
            && (parts.before.Some? ==> CanInsert(m - {b}, parts.before.value))
            && (parts.after.Some? ==> CanInsert(InsertOpt(m - {b}, parts.before), parts.after.value))
  {
    hide CanInsert, InsertInner, GrantsOk, Extract;
    PreparedKeeps(m[b], unpin);
    var g := Grant(b, Prepared(m[b], unpin));
    ExtractSpans(g, span);
    RemoveKeeps(m, b);
    var parts := Extract(g, span);
    if parts.before.Some? {
      PartFits(m, b, parts.before.value);
    }
    if parts.after.Some? {
      PartFits(m, b, parts.after.value);
      if parts.before.Some? {
        SecondFits(m - {b}, parts.before.value, parts.after.value);
      }
    }
  }

  lemma InsertOptAttr(m: Inner, g: Option<Grant>, p: nat)
    requires GrantsOk(m) && (g.Some? ==> CanInsert(m, g.value))
    ensures GrantsOk(InsertOpt(m, g))
    ensures AttrOf(InsertOpt(m, g), p) == if g.Some? && g.value.Span().Has(p) then Some(AttrAt(g.value, p)) else AttrOf(m, p)
  {
    hide CanInsert, InsertInner, GrantsOk, AttrOf;
    if g.Some? {
      InsertGrantsOk(m, g.value);
      InsertAttr(m, g.value, p);
    }
  }

  /** One round, page by page. */
  lemma CutOutAttr(m: Inner, b: nat, span: PageSpan, unpin: bool, p: nat)
    requires GrantsOk(m) && b in m && Inside(span, Grant(b, m[b])) && span.count > 0 && !Blocks(m[b], unpin)
    ensures CanExtract(Prepared(m[b], unpin), false) && Prepared(m[b], unpin).count == m[b].count
    ensures var g := Grant(b, Prepared(m[b], unpin));
            AttrOf(CutOut(m, b, span, unpin), p) ==
            if span.Has(p) then None
            else if g.Span().Has(p) then Some(Attr(g.info.flags, g.info.mapped, CutBacking(g, span, p)))
            else AttrOf(m, p)
  {
    hide CanInsert, InsertOpt, GrantsOk, AttrOf, Extract, CutBacking;
    PreparedKeeps(m[b], unpin);
    RoundFits(m, b, span, unpin);
    RemoveKeeps(m, b);
    var g := Grant(b, Prepared(m[b], unpin));
    var parts := Extract(g, span);
    ExtractSpans(g, span);
    InsertOptAttr(m - {b}, parts.before, p);
    InsertOptAttr(InsertOpt(m - {b}, parts.before), parts.after, p);
    if g.Span().Has(p) {
      ExtractAt(g, span, p);
    }
  }

  /** Grants beyond a cut that reaches the end of its grant stay as they are. */
  lemma CutOutBeyond(m: Inner, b: nat, span: PageSpan, unpin: bool, c: nat)
    requires GrantsOk(m) && b in m && Inside(span, Grant(b, m[b])) && span.count > 0 && !Blocks(m[b], unpin)
    requires span.End() == b + m[b].count && span.End() <= c
    ensures CanExtract(Prepared(m[b], unpin), false)
    ensures c in CutOut(m, b, span, unpin) <==> c in m
    ensures c in m ==> CutOut(m, b, span, unpin)[c] == m[c]
  {
    hide CanInsert, InsertInner, GrantsOk, Extract;
    PreparedKeeps(m[b], unpin);
    RoundFits(m, b, span, unpin);
    RemoveKeeps(m, b);
    var g := Grant(b, Prepared(m[b], unpin));
    var parts := Extract(g, span);
    ExtractSpans(g, span);
    if parts.before.Some? {
      InsertKeepsBeyond(m - {b}, parts.before.value, c);
    }
  }

  lemma InsertKeepsRuns(m: Inner, g: Option<Grant>, c: nat)
    requires c in InsertOpt(m, g) && IsContiguous(InsertOpt(m, g)[c]) && (g.Some? ==> !IsContiguous(g.value.info))
    ensures c in m && InsertOpt(m, g)[c] == m[c]
  {
  }

  lemma CutOutRuns(m: Inner, b: nat, span: PageSpan, unpin: bool, c: nat)
    requires b in m && Inside(span, Grant(b, m[b])) && CanExtract(Prepared(m[b], unpin), false)
    requires c in CutOut(m, b, span, unpin) && IsContiguous(CutOut(m, b, span, unpin)[c])
    ensures c in m && c != b && CutOut(m, b, span, unpin)[c] == m[c]
  {
    hide InsertOpt;
    var parts := Extract(Grant(b, Prepared(m[b], unpin)), span);
    InsertKeepsRuns(InsertOpt(m - {b}, parts.before), parts.after, c);
    InsertKeepsRuns(m - {b}, parts.before, c);
  }

  // ----- the loop -----

  ghost predicate AttrsSoFar(m0: Inner, m: Inner, base: nat, cur: nat, unpin: bool) {
    forall p: nat :: AttrOf(m, p) == AttrAfter(m0, SpanBetween(base, cur), unpin, p)
  }

  ghost predicate RestSame(m0: Inner, m: Inner, base: nat, cur: nat) {
    forall c: nat :: cur <= c || cur == base ==> (c in m <==> c in m0) && (c in m ==> m[c] == m0[c])
  }

  ghost predicate NoStraddle(m0: Inner, base: nat, cur: nat) {
    cur > base ==> forall c :: c in m0 ==> c + m0[c].count <= cur || cur <= c
  }

  ghost predicate RunsFrom(m0: Inner, m: Inner, cleared: PageSpan) {
    forall c :: c in m && IsContiguous(m[c]) ==> c in m0 && m0[c] == m[c] && !Intersects(SpanOf(m0, c), cleared)
  }

  /** What is known when [base, cur) has been cleared. */
  ghost predicate SoFar(m0: Inner, m: Inner, base: nat, cur: nat, end: nat, unpin: bool) {
    && GrantsOk(m0) && GrantsOk(m) && base <= cur <= end
    && AttrsSoFar(m0, m, base, cur, unpin)
    && (cur < end ==> RestSame(m0, m, base, cur) && NoStraddle(m0, base, cur))
    && NothingBlocks(m0, SpanBetween(base, cur), unpin)
    && RunsFrom(m0, m, SpanBetween(base, cur))
  }

  lemma SoFarStart(m: Inner, base: nat, end: nat, unpin: bool)
    requires GrantsOk(m) && base <= end
    ensures SoFar(m, m, base, base, end, unpin)
  {
    forall p: nat
      ensures AttrOf(m, p) == AttrAfter(m, SpanBetween(base, base), unpin, p)
    {
      ContainsIff(m, p);
    }
  }

  /** The grants that conflict with the rest are the original ones. */
  lemma SameConflicts(m0: Inner, m: Inner, base: nat, cur: nat, end: nat, unpin: bool, c: nat)
    requires SoFar(m0, m, base, cur, end, unpin) && cur < end
    ensures Hit(m, c, SpanBetween(cur, end)) <==> Hit(m0, c, SpanBetween(cur, end))
    ensures Hit(m, c, SpanBetween(cur, end)) ==> m[c] == m0[c] && (cur > base ==> cur <= c)
  {
    hide AttrOf, AttrAfter, NothingBlocks, RunsFrom, GrantsOk;
    if cur > base && c < cur && c in m && cur < c + m[c].count {
      assert Holds(m, c, cur - 1);
      AttrFrom(m, c, cur - 1);
      ClearedIsNone(m0, SpanBetween(base, cur), unpin, cur - 1);
      assert false;
    }
  }

  lemma ClearedIsNone(m: Inner, cleared: PageSpan, unpin: bool, p: nat)
    requires cleared.Has(p)
    ensures AttrAfter(m, cleared, unpin, p).None?
  {
  }

  /** No original grant lies between the cleared part and the first conflict. */
  lemma GapIsEmpty(m0: Inner, m: Inner, base: nat, cur: nat, end: nat, unpin: bool, b: nat)
    requires SoFar(m0, m, base, cur, end, unpin) && cur < end
    requires Hit(m, b, SpanBetween(cur, end)) && (forall c :: Hit(m, c, SpanBetween(cur, end)) ==> b <= c)
    ensures b in m0 && m0[b] == m[b] && (cur > base ==> cur <= b)
    ensures forall c :: c in m0 ==> !Intersects(SpanOf(m0, c), SpanBetween(cur, Max(cur, b)))
    ensures forall c :: c in m0 && c != b ==> c + m0[c].count <= cur || Min(b + m0[b].count, end) <= c
  {
    hide AttrsSoFar, RestSame, NoStraddle, NothingBlocks, RunsFrom;
    SameConflicts(m0, m, base, cur, end, unpin, b);
    forall c | c in m0 && c != b
      ensures c + m0[c].count <= cur || Min(b + m0[b].count, end) <= c
    {
      SameConflicts(m0, m, base, cur, end, unpin, c);
    }
  }

  /** The situation of one round: `b` is the first conflict and does not stop the loop. */
  ghost predicate Round(m0: Inner, m: Inner, base: nat, cur: nat, end: nat, unpin: bool, b: nat) {
    && SoFar(m0, m, base, cur, end, unpin) && cur < end
    && Hit(m, b, SpanBetween(cur, end)) && (forall c :: Hit(m, c, SpanBetween(cur, end)) ==> b <= c)
    && !Blocks(m[b], unpin)
  }

  function CutSpan(m: Inner, b: nat, cur: nat, end: nat): PageSpan
    requires b in m
  {
    Intersection(SpanOf(m, b), SpanBetween(cur, end))
  }

  function NextCur(m: Inner, b: nat, end: nat): nat
    requires b in m
  {
    Min(b + m[b].count, end)
  }

  lemma RoundFacts(m0: Inner, m: Inner, base: nat, cur: nat, end: nat, unpin: bool, b: nat)
    requires Round(m0, m, base, cur, end, unpin, b)
    ensures b in m && Inside(CutSpan(m, b, cur, end), Grant(b, m[b])) && CutSpan(m, b, cur, end).count > 0
    ensures CanExtract(Prepared(m[b], unpin), false)
    ensures CutSpan(m, b, cur, end).base == Max(b, cur) && CutSpan(m, b, cur, end).End() == NextCur(m, b, end)
    ensures cur < NextCur(m, b, end) <= end
  {
    PreparedKeeps(m[b], unpin);
  }

  /** A page of the grant that this round cuts. */
  lemma RoundAttrOwn(m: Inner, base: nat, cur: nat, end: nat, unpin: bool, b: nat, p: nat)
    requires GrantsOk(m) && b in m && base <= cur < end && Intersects(SpanOf(m, b), SpanBetween(cur, end)) && (cur > base ==> cur <= b)
    requires SpanOf(m, b).Has(p)
    ensures var g := Grant(b, Prepared(m[b], unpin));
            var cut := CutSpan(m, b, cur, end);
            AttrAfter(m, SpanBetween(base, NextCur(m, b, end)), unpin, p) ==
            if cut.Has(p) then None else Some(Attr(g.info.flags, g.info.mapped, CutBacking(g, cut, p)))
  {
    hide AttrOf, CutBacking;
    ContainsIff(m, p);
    PreparedKeeps(m[b], unpin);
    RoundAttrCut(m, b, cur, end, base, p);
    CutSpanIs(m, b, cur, end, base);
  }

  lemma RoundAttr(m0: Inner, m: Inner, base: nat, cur: nat, end: nat, unpin: bool, b: nat, p: nat)
    requires Round(m0, m, base, cur, end, unpin, b)
    ensures b in m && Inside(CutSpan(m, b, cur, end), Grant(b, m[b])) && CanExtract(Prepared(m[b], unpin), false)
    ensures AttrOf(CutOut(m, b, CutSpan(m, b, cur, end), unpin), p) ==
            AttrAfter(m0, SpanBetween(base, NextCur(m, b, end)), unpin, p)
  {
    hide RestSame, NoStraddle, NothingBlocks, RunsFrom, AttrOf, CutOut, CutBacking, GrantsOk, NextCur, CutSpan, Blocks, AttrAfter;
    RoundFacts(m0, m, base, cur, end, unpin, b);
    GapIsEmpty(m0, m, base, cur, end, unpin, b);
    CutOutAttr(m, b, CutSpan(m, b, cur, end), unpin, p);
    SpanAgrees(m0, m, b, cur, end);
    if SpanOf(m0, b).Has(p) {
      RoundAttrOwn(m0, base, cur, end, unpin, b, p);
    } else {
      AttrAfterOther(m0, base, cur, NextCur(m, b, end), unpin, b, p);
    }
  }

  lemma SpanAgrees(m0: Inner, m: Inner, b: nat, cur: nat, end: nat)
    requires b in m0 && b in m && m0[b] == m[b]
    ensures SpanOf(m0, b) == SpanOf(m, b) && CutSpan(m0, b, cur, end) == CutSpan(m, b, cur, end)
    ensures NextCur(m0, b, end) == NextCur(m, b, end) == Min(b + m[b].count, end)
  {
  }

  /** The cleared part cuts the grant `b` just as this round does. */
  lemma CutSpanIs(m: Inner, b: nat, cur: nat, end: nat, base: nat)
    requires b in m && base <= cur < end && Intersects(SpanOf(m, b), SpanBetween(cur, end)) && (cur > base ==> cur <= b)
    ensures Intersection(SpanOf(m, b), SpanBetween(base, NextCur(m, b, end))) == CutSpan(m, b, cur, end)
  {
  }

  lemma RoundAttrCut(m: Inner, b: nat, cur: nat, end: nat, base: nat, p: nat)
    requires b in m && base <= cur < end && Intersects(SpanOf(m, b), SpanBetween(cur, end)) && (cur > base ==> cur <= b)
    requires SpanOf(m, b).Has(p)
    ensures SpanBetween(base, NextCur(m, b, end)).Has(p) <==> CutSpan(m, b, cur, end).Has(p)
  {
  }

  /** Pages of other grants, and of none. */
  lemma AttrAfterOther(m: Inner, base: nat, cur: nat, next: nat, unpin: bool, b: nat, p: nat)
    requires GrantsOk(m) && base <= cur <= next && b in m && !SpanOf(m, b).Has(p)
    requires forall c :: c in m && c != b ==> c + m[c].count <= cur || next <= c
    ensures AttrAfter(m, SpanBetween(base, cur), unpin, p) == AttrAfter(m, SpanBetween(base, next), unpin, p)
  {
    ContainsIff(m, p);
    var r := Contains(m, p);
    if r.Some? {
      AttrAfterSame(m, SpanBetween(base, cur), SpanBetween(base, next), unpin, p);
    }
  }

  lemma RoundRest(m0: Inner, m: Inner, base: nat, cur: nat, end: nat, unpin: bool, b: nat)
    requires Round(m0, m, base, cur, end, unpin, b)
    requires b in m && Inside(CutSpan(m, b, cur, end), Grant(b, m[b])) && CanExtract(Prepared(m[b], unpin), false)
    requires NextCur(m, b, end) < end
    ensures RestSame(m0, CutOut(m, b, CutSpan(m, b, cur, end), unpin), base, NextCur(m, b, end))
    ensures NoStraddle(m0, base, NextCur(m, b, end))
  {
    RoundFacts(m0, m, base, cur, end, unpin, b);
    GapIsEmpty(m0, m, base, cur, end, unpin, b);
    var next, cut := NextCur(m, b, end), CutSpan(m, b, cur, end);
    forall c: nat | next <= c
      ensures (c in CutOut(m, b, cut, unpin) <==> c in m0) && (c in m0 ==> CutOut(m, b, cut, unpin)[c] == m0[c])
    {
      hide CutOut, AttrsSoFar, NoStraddle, NothingBlocks, RunsFrom;
      CutOutBeyond(m, b, cut, unpin, c);
    }
  }

  lemma RoundBlocks(m0: Inner, m: Inner, base: nat, cur: nat, end: nat, unpin: bool, b: nat)
    requires Round(m0, m, base, cur, end, unpin, b)
    ensures NothingBlocks(m0, SpanBetween(base, NextCur(m, b, end)), unpin)
  {
    hide AttrsSoFar, RestSame, NoStraddle, RunsFrom, Blocks;
    RoundFacts(m0, m, base, cur, end, unpin, b);
    GapIsEmpty(m0, m, base, cur, end, unpin, b);
    forall c | Hit(m0, c, SpanBetween(base, NextCur(m, b, end)))
      ensures !Blocks(m0[c], unpin)
    {
      if c != b {
        assert Hit(m0, c, SpanBetween(base, cur));
      }
    }
  }

  lemma RoundRuns(m0: Inner, m: Inner, base: nat, cur: nat, end: nat, unpin: bool, b: nat)
    requires Round(m0, m, base, cur, end, unpin, b)
    requires b in m && Inside(CutSpan(m, b, cur, end), Grant(b, m[b])) && CanExtract(Prepared(m[b], unpin), false)
    ensures RunsFrom(m0, CutOut(m, b, CutSpan(m, b, cur, end), unpin), SpanBetween(base, NextCur(m, b, end)))
  {
    hide AttrsSoFar, RestSame, NoStraddle, Blocks, CutOut, NothingBlocks;
    RoundFacts(m0, m, base, cur, end, unpin, b);
    GapIsEmpty(m0, m, base, cur, end, unpin, b);
    var next, cut := NextCur(m, b, end), CutSpan(m, b, cur, end);
    var m1 := CutOut(m, b, cut, unpin);
    forall c | c in m1 && IsContiguous(m1[c])
      ensures c in m0 && m0[c] == m1[c] && !Intersects(SpanOf(m0, c), SpanBetween(base, next))
    {
      CutOutRuns(m, b, cut, unpin, c);
    }
  }

  /** One round clears the first conflicting grant and everything up to its end. */
  lemma RoundKeeps(m0: Inner, m: Inner, base: nat, cur: nat, end: nat, unpin: bool, b: nat)
    requires Round(m0, m, base, cur, end, unpin, b)
    requires b in m && Inside(CutSpan(m, b, cur, end), Grant(b, m[b])) && CanExtract(Prepared(m[b], unpin), false)
    requires GrantsOk(CutOut(m, b, CutSpan(m, b, cur, end), unpin))
    ensures SoFar(m0, CutOut(m, b, CutSpan(m, b, cur, end), unpin), base, NextCur(m, b, end), end, unpin)
  {
    hide CutOut, CutSpan, AttrOf, AttrAfter, RestSame, NoStraddle, NothingBlocks, RunsFrom;
    RoundFacts(m0, m, base, cur, end, unpin, b);
    forall p: nat
      ensures AttrOf(CutOut(m, b, CutSpan(m, b, cur, end), unpin), p) == AttrAfter(m0, SpanBetween(base, NextCur(m, b, end)), unpin, p)
    {
      RoundAttr(m0, m, base, cur, end, unpin, b, p);
    }
    if NextCur(m, b, end) < end {
      RoundRest(m0, m, base, cur, end, unpin, b);
    }
    RoundBlocks(m0, m, base, cur, end, unpin, b);
    RoundRuns(m0, m, base, cur, end, unpin, b);
  }

  /** When nothing conflicts with the rest, the whole span is clear. */
  lemma SoFarEnd(m0: Inner, m: Inner, base: nat, cur: nat, end: nat, unpin: bool)
    requires SoFar(m0, m, base, cur, end, unpin)
    requires cur < end ==> forall c :: c in m ==> !Intersects(SpanOf(m, c), SpanBetween(cur, end))
    ensures SoFar(m0, m, base, end, end, unpin)
    ensures forall c :: c in m0 ==> !Intersects(SpanOf(m0, c), SpanBetween(cur, end))
  {
    if cur < end {
      forall c: nat | c in m0
        ensures !Intersects(SpanOf(m0, c), SpanBetween(cur, end))
      {
        SameConflicts(m0, m, base, cur, end, unpin, c);
      }
      Widen(m0, m, base, cur, end, end, unpin);
    }
  }

  /** The cleared part may be read as reaching to the next grant. */
  lemma Widen(m0: Inner, m: Inner, base: nat, cur: nat, next: nat, end: nat, unpin: bool)
    requires SoFar(m0, m, base, cur, end, unpin) && cur <= next
    requires forall c :: c in m0 ==> !Intersects(SpanOf(m0, c), SpanBetween(cur, next))
    ensures AttrsSoFar(m0, m, base, next, unpin) && NothingBlocks(m0, SpanBetween(base, next), unpin)
    ensures RunsFrom(m0, m, SpanBetween(base, next))
  {
    hide AttrOf, AttrAfter, RestSame, NoStraddle;
    forall p: nat
      ensures AttrOf(m, p) == AttrAfter(m0, SpanBetween(base, next), unpin, p)
    {
      AttrAfterGap(m0, base, cur, next, unpin, p);
    }
    forall c | c in m0
      ensures Intersects(SpanOf(m0, c), SpanBetween(base, next)) ==> Intersects(SpanOf(m0, c), SpanBetween(base, cur))
    {
      GapSides(m0, c, cur, next);
    }
    forall c | Hit(m0, c, SpanBetween(base, next))
      ensures !Blocks(m0[c], unpin)
    {
      assert Hit(m0, c, SpanBetween(base, cur));
    }
  }

  // ----- the page table during the loop -----

  /** The table and the queue after [base, cur) has been cleared. */
  ghost predicate TableSoFar(t0: Table, q0: seq<QueueEntry>, t: Table, q: seq<QueueEntry>, base: nat, cur: nat) {
    t == WithoutPages(t0, base, cur) && Flat(q) == Flat(q0) + PresentFrames(t0, base, cur)
  }

  /** Unmapping the cut after a gap without present pages. */
  lemma TableRound(t0: Table, q0: seq<QueueEntry>, t: Table, q: seq<QueueEntry>, t1: Table, q1: seq<QueueEntry>,
                   base: nat, cur: nat, lo: nat, next: nat)
    requires TableSoFar(t0, q0, t, q, base, cur) && base <= cur <= lo <= next
    requires forall p | cur <= p < lo :: p !in t0
    requires t1 == WithoutPages(t, lo, next) && Flat(q1) == Flat(q) + PresentFrames(t, lo, next)
    ensures TableSoFar(t0, q0, t1, q1, base, next)
  {
    hide PresentFrames, Flat, WithoutPages;
    WithoutTwice(t0, base, cur, lo, next);
    FramesRound(t0, base, cur, lo, next);
    assert Flat(q0) + PresentFrames(t0, base, cur) + PresentFrames(t, lo, next) ==
           Flat(q0) + (PresentFrames(t0, base, cur) + PresentFrames(t, lo, next));
  }

  lemma FramesRound(t: Table, base: nat, cur: nat, lo: nat, next: nat)
    requires base <= cur <= lo <= next && (forall p | cur <= p < lo :: p !in t)
    ensures PresentFrames(t, base, next) == PresentFrames(t, base, cur) + PresentFrames(WithoutPages(t, base, cur), lo, next)
  {
    hide PresentFrames;
    PresentSplit(t, base, cur, next);
    PresentSplit(t, cur, lo, next);
    PresentNone(t, cur, lo);
    PresentSame(WithoutPages(t, base, cur), t, lo, next);
  }

  lemma WithoutTwice(t: Table, base: nat, cur: nat, lo: nat, next: nat)
    requires base <= cur <= lo <= next && (forall p | cur <= p < lo :: p !in t)
    ensures WithoutPages(WithoutPages(t, base, cur), lo, next) == WithoutPages(t, base, next)
  {
  }

  lemma GapNotPresent(m: Inner, t: Table, cur: nat, next: nat)
    requires GrantsOk(m) && TableOk(t, m) && cur <= next
    requires forall c :: c in m ==> !Intersects(SpanOf(m, c), SpanBetween(cur, next))
    ensures forall p | cur <= p < next :: p !in t
  {
    hide AttrOf;
    forall p | cur <= p < next
      ensures p !in t
    {
      forall b: nat
        ensures !Holds(m, b, p)
      {
        if b in m {
          GapSides(m, b, cur, next);
        }
      }
      NoAttr(m, p);
    }
  }

  lemma TableGap(t0: Table, q0: seq<QueueEntry>, t: Table, q: seq<QueueEntry>, base: nat, cur: nat, next: nat)
    requires TableSoFar(t0, q0, t, q, base, cur) && base <= cur <= next && (forall p | cur <= p < next :: p !in t0)
    ensures TableSoFar(t0, q0, t, q, base, next)
  {
    PresentSplit(t0, base, cur, next);
    PresentNone(t0, cur, next);
    assert WithoutPages(t0, base, next) == WithoutPages(t0, base, cur);
  }

  /** What is left present belongs to what is left granted, runs included. */
  lemma TablesStayOk(m0: Inner, m: Inner, t0: Table, t: Table, base: nat, cur: nat, unpin: bool)
    requires AttrsSoFar(m0, m, base, cur, unpin) && RunsFrom(m0, m, SpanBetween(base, cur)) && base <= cur
    requires TableOk(t0, m0) && RunsOk(t0, m0) && t == WithoutPages(t0, base, cur)
    ensures TableOk(t, m) && RunsOk(t, m)
  {
    hide AttrOf;
    forall p | p in t
      ensures AttrOf(m, p).Some?
    {
      KeptIsSome(m0, SpanBetween(base, cur), unpin, p);
    }
    forall b | b in m && IsContiguous(m[b])
      ensures ContiguousAt(t, m, b)
    {
      assert ContiguousAt(t0, m0, b);
      forall p: nat | SpanOf(m, b).Has(p)
        ensures !SpanBetween(base, cur).Has(p) && !SpanBetween(base, cur).Has(b)
      {
      }
    }
  }

  lemma KeptIsSome(m: Inner, cleared: PageSpan, unpin: bool, p: nat)
    requires !cleared.Has(p) && AttrOf(m, p).Some?
    ensures AttrAfter(m, cleared, unpin, p).Some?
  {
  }
}
