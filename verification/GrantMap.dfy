/**
 The ordered map of grants in `UserGrants` (src/context/memory.rs): lookups, insertion with merging
 and removal, and what they mean page by page.
 */
module GrantMap {
  import opened Common
  import opened GrantInfos

  /** The pages below `USER_END_OFFSET` (x86_64). */
  const USER_PAGES: nat := 0x8_0000_0000

  type Inner = map<nat, GrantInfo>

  // ----- ordered lookups -----

  /** `range(..=p).next_back()` */
  function Floor<T>(m: map<nat, T>, p: nat): (r: Option<nat>)
    ensures r.None? ==> forall k :: k in m ==> p < k
    ensures r.Some? ==> r.value in m && r.value <= p && forall k :: k in m && k <= p ==> k <= r.value
  {
    if p in m then Some(p) else if p == 0 then None else Floor(m, p - 1)
  }

  /** `range(..p).next_back()` */
  function Below<T>(m: map<nat, T>, p: nat): (r: Option<nat>)
    ensures r.None? ==> forall k :: k in m ==> p <= k
    ensures r.Some? ==> r.value in m && r.value < p && forall k :: k in m && k < p ==> k <= r.value
  {
    if p == 0 then None else Floor(m, p - 1)
  }

  /** `range(p..).next()`, for keys below `limit` */
  function Ceil<T>(m: map<nat, T>, p: nat, limit: nat): (r: Option<nat>)
    ensures r.None? ==> forall k :: k in m && p <= k ==> limit <= k
    ensures r.Some? ==> r.value in m && p <= r.value < limit && forall k :: k in m && p <= k ==> r.value <= k
    decreases limit - p
  {
    if limit <= p then None else if p in m then Some(p) else Ceil(m, p + 1, limit)
  }

  // ----- the invariant -----

  ghost predicate GrantsOk(m: Inner) {
    && (forall b :: b in m ==> 0 < m[b].count && b + m[b].count <= USER_PAGES)
    && (forall b, c :: b in m && c in m && b < c ==> b + m[b].count <= c)
  }

  /** No two adjacent grants could be merged. */
  ghost predicate Merged(m: Inner) {
    forall b :: b in m && b + m[b].count in m ==> !CanMerge(m[b], m[b + m[b].count])
  }

  predicate Holds(m: Inner, b: nat, p: nat) {
    b in m && b <= p < b + m[b].count
  }

  // ----- contains -----

  function Contains(m: Inner, p: nat): Option<nat> {
    var r := Floor(m, p);
    if r.Some? && p < r.value + m[r.value].count then r else None
  }

  /** The lookup finds the grant that a page-by-page scan would find. */
  lemma ContainsIff(m: Inner, p: nat)
    requires GrantsOk(m)
    ensures Contains(m, p).None? <==> forall b :: !Holds(m, b, p)
    ensures forall b: nat :: Contains(m, p) == Some(b) <==> Holds(m, b, p)
  {
    var r := Floor(m, p);
    assert Contains(m, p).Some? ==> Holds(m, r.value, p);
    forall b: nat | Holds(m, b, p)
      ensures r == Some(b)
    {
      assert r.Some? && b <= r.value;
    }
  }

  function AttrOf(m: Inner, p: nat): Option<Attr> {
    var r := Contains(m, p);
    if r.Some? then Some(AttrAt(Grant(r.value, m[r.value]), p)) else None
  }

  lemma AttrFrom(m: Inner, b: nat, p: nat)
    requires GrantsOk(m) && Holds(m, b, p)
    ensures AttrOf(m, p) == Some(AttrAt(Grant(b, m[b]), p))
  {
    ContainsIff(m, p);
  }

  /** Maps with the same grants around a page agree on it. */
  lemma SameAttr(m: Inner, m1: Inner, p: nat)
    requires GrantsOk(m) && GrantsOk(m1)
    requires forall b :: Holds(m, b, p) <==> Holds(m1, b, p)
    requires forall b :: Holds(m, b, p) && b in m1 ==> m1[b] == m[b]
    ensures AttrOf(m1, p) == AttrOf(m, p)
  {
    ContainsIff(m, p);
    ContainsIff(m1, p);
  }

  lemma NoAttr(m: Inner, p: nat)
    requires GrantsOk(m)
    ensures AttrOf(m, p).None? <==> forall b :: !Holds(m, b, p)
  {
    ContainsIff(m, p);
  }

  // ----- conflicts -----

  function SpanOf(m: Inner, b: nat): PageSpan
    requires b in m
  {
    PageSpan(b, m[b].count)
  }

  function ConflictsFrom(m: Inner, from: nat, span: PageSpan): seq<nat>
    decreases USER_PAGES - from
  {
    var r := Ceil(m, from, USER_PAGES);
    if r.Some? && Intersects(SpanOf(m, r.value), span) then [r.value] + ConflictsFrom(m, r.value + 1, span) else []
  }

  predicate Ascending(cs: seq<nat>) {
    forall i, j | 0 <= i < j < |cs| :: cs[i] < cs[j]
  }

  /** Where the iteration over the conflicting grants starts. */
  function ConflictStart(m: Inner, span: PageSpan): nat {
    var start := Contains(m, span.base);
    if start.Some? then start.value else span.base
  }

  function Conflicts(m: Inner, span: PageSpan): seq<nat> {
    ConflictsFrom(m, ConflictStart(m, span), span)
  }

  /** From `from` on, the grants that meet the span come first. */
  ghost predicate HitsFirst(m: Inner, from: nat, span: PageSpan) {
    forall b, c :: b in m && c in m && from <= c <= b && Intersects(SpanOf(m, b), span) ==> Intersects(SpanOf(m, c), span)
  }

  lemma NoHits(m: Inner, from: nat, span: PageSpan, x: nat)
    requires HitsFirst(m, from, span) && x in m && from <= x && !Intersects(SpanOf(m, x), span)
    requires forall b :: b in m && from <= b ==> x <= b
    ensures forall b :: b in m && from <= b ==> !Intersects(SpanOf(m, b), span)
  {
    hide Intersects;
  }

  lemma HitsFirstNext(m: Inner, from: nat, span: PageSpan, x: nat)
    requires HitsFirst(m, from, span) && from <= x
    ensures HitsFirst(m, x + 1, span)
  {
    hide Intersects;
  }

  lemma KeyInRange(m: Inner, b: nat)
    requires GrantsOk(m)
    ensures b in m ==> b < USER_PAGES
  {
  }

  lemma {:induction false} ConflictsFromAt(m: Inner, from: nat, span: PageSpan, b: nat)
    requires GrantsOk(m) && HitsFirst(m, from, span)
    ensures b in ConflictsFrom(m, from, span) <==> b in m && from <= b && Intersects(SpanOf(m, b), span)
    decreases USER_PAGES - from
  {
    hide Intersects, HitsFirst, Ceil, GrantsOk, SpanOf;
    KeyInRange(m, b);
    var r := Ceil(m, from, USER_PAGES);
    if r.Some? && Intersects(SpanOf(m, r.value), span) {
      HitsFirstNext(m, from, span, r.value);
      ConflictsFromAt(m, r.value + 1, span, b);
      assert b in [r.value] + ConflictsFrom(m, r.value + 1, span) <==> b == r.value || b in ConflictsFrom(m, r.value + 1, span);
    } else if r.Some? {
      NoHits(m, from, span, r.value);
    }
  }

  lemma {:induction false} ConflictsFromAscend(m: Inner, from: nat, span: PageSpan)
    ensures Ascending(ConflictsFrom(m, from, span))
    ensures forall j | 0 <= j < |ConflictsFrom(m, from, span)| :: from <= ConflictsFrom(m, from, span)[j]
    decreases USER_PAGES - from
  {
    hide Intersects, Ceil;
    var r := Ceil(m, from, USER_PAGES);
    if r.Some? && Intersects(SpanOf(m, r.value), span) {
      ConflictsFromAscend(m, r.value + 1, span);
    }
  }

  /** The iterator yields exactly the grants that share a page with the span, in ascending order. */
  lemma ConflictsExact(m: Inner, span: PageSpan)
    requires GrantsOk(m)
    ensures forall b :: b in Conflicts(m, span) <==> b in m && Intersects(SpanOf(m, b), span)
    ensures Ascending(Conflicts(m, span))
  {
    hide GrantsOk, Intersects, HitsFirst, ConflictsFrom, ConflictStart;
    var from := ConflictStart(m, span);
    StartHitsFirst(m, span);
    ConflictsFromAscend(m, from, span);
    forall b: nat
      ensures b in Conflicts(m, span) <==> b in m && Intersects(SpanOf(m, b), span)
    {
      ConflictsFromAt(m, from, span, b);
      if b in m && b < from {
        EndsBefore(m, span, b);
        NoOverlap(SpanOf(m, b), span);
      }
    }
  }

  lemma StartHitsFirst(m: Inner, span: PageSpan)
    requires GrantsOk(m)
    ensures HitsFirst(m, ConflictStart(m, span), span)
  {
    ContainsIff(m, span.base);
  }

  lemma NoOverlap(a: PageSpan, b: PageSpan)
    requires a.End() <= b.base
    ensures !Intersects(a, b)
  {
  }

  lemma EndsBefore(m: Inner, span: PageSpan, b: nat)
    requires GrantsOk(m) && b in m && b < ConflictStart(m, span)
    ensures b + m[b].count <= span.base
  {
    ContainsIff(m, span.base);
    if Contains(m, span.base).None? {
      assert !Holds(m, b, span.base);
    }
  }

  /** What the first conflict is. */
  lemma FirstConflict(m: Inner, span: PageSpan)
    requires GrantsOk(m)
    ensures Conflicts(m, span) == [] <==> forall b :: b in m ==> !Intersects(SpanOf(m, b), span)
    ensures Conflicts(m, span) != [] ==>
              var b := Conflicts(m, span)[0];
              && b in m && Intersects(SpanOf(m, b), span)
              && forall c :: c in m && Intersects(SpanOf(m, c), span) ==> b <= c
  {
    ConflictsExact(m, span);
    var cs := Conflicts(m, span);
    if cs != [] {
      assert cs[0] in cs;
    }
  }

  // ----- insert -----

  /** The grant that ends where `g` begins and may be merged with it. */
  function MergeBefore(m: Inner, g: Grant): Option<nat> {
    var r := Below(m, g.base);
    if r.Some? && r.value + m[r.value].count == g.base && CanMerge(m[r.value], g.info) then r else None
  }

  function MergeAfter(m: Inner, g: Grant): Option<nat> {
    var r := Ceil(m, g.Span().End(), USER_PAGES);
    if r.Some? && r.value == g.Span().End() && CanMerge(m[r.value], g.info) then r else None
  }

  /** The grant that goes into the map, with its neighbours merged in. */
  function MergedGrant(m: Inner, g: Grant): Grant {
    var b, a := MergeBefore(m, g), MergeAfter(m, g);
    var nb := if b.Some? then m[b.value].count else 0;
    var na := if a.Some? then m[a.value].count else 0;
    Grant(if b.Some? then b.value else g.base, g.info.(count := g.info.count + nb + na))
  }

  function Neighbours(m: Inner, g: Grant): set<nat> {
    var b, a := MergeBefore(m, g), MergeAfter(m, g);
    (if b.Some? then {b.value} else {}) + (if a.Some? then {a.value} else {})
  }

  function InsertInner(m: Inner, g: Grant): Inner {
    var merged := MergedGrant(m, g);
    (m - Neighbours(m, g))[merged.base := merged.info]
  }

  ghost predicate CanInsert(m: Inner, g: Grant) {
    && 0 < g.info.count && g.Span().End() <= USER_PAGES
    && forall b :: b in m ==> !Intersects(SpanOf(m, b), g.Span())
  }

  lemma Apart(m: Inner, g: Grant, b: nat)
    requires GrantsOk(m) && CanInsert(m, g) && b in m
    ensures b + m[b].count <= g.base || g.Span().End() <= b
  {
    assert !Intersects(SpanOf(m, b), g.Span());
  }

  lemma BeforeIff(m: Inner, g: Grant, b: nat)
    requires GrantsOk(m) && CanInsert(m, g)
    ensures MergeBefore(m, g) == Some(b) <==> b in m && b + m[b].count == g.base && CanMerge(m[b], g.info)
  {
    hide CanMerge, CanInsert;
    if b in m && b + m[b].count == g.base {
      var r := Below(m, g.base);
      assert r.Some? && b <= r.value < g.base;
    }
  }

  lemma AfterIff(m: Inner, g: Grant, b: nat)
    requires GrantsOk(m) && CanInsert(m, g)
    ensures MergeAfter(m, g) == Some(b) <==> b in m && b == g.Span().End() && CanMerge(m[b], g.info)
  {
    hide CanMerge, CanInsert;
    if b in m && b == g.Span().End() {
      assert b + m[b].count <= USER_PAGES;
    }
  }

  /** The merged neighbours, as the map has them. */
  lemma NeighbourFacts(m: Inner, g: Grant)
    requires GrantsOk(m) && CanInsert(m, g)
    ensures forall b :: b in m ==> b + m[b].count <= g.base || g.Span().End() <= b
    ensures forall b :: b in Neighbours(m, g) <==>
              b in m && (b + m[b].count == g.base || b == g.Span().End()) && CanMerge(m[b], g.info)
  {
    hide CanMerge, CanInsert, MergeBefore, MergeAfter, GrantsOk;
    forall b | b in m
      ensures b + m[b].count <= g.base || g.Span().End() <= b
    {
      Apart(m, g, b);
    }
    forall b: nat
      ensures b in Neighbours(m, g) <==>
              b in m && (b + m[b].count == g.base || b == g.Span().End()) && CanMerge(m[b], g.info)
    {
      BeforeIff(m, g, b);
      AfterIff(m, g, b);
    }
  }

  lemma InsertGrantsOk(m: Inner, g: Grant)
    requires GrantsOk(m) && CanInsert(m, g)
    ensures GrantsOk(InsertInner(m, g))
  {
    hide Neighbours, CanMerge;
    NeighbourFacts(m, g);
    MergedEnds(m, g);
  }

  /** Where the merged grant begins and ends. */
  lemma MergedEnds(m: Inner, g: Grant)
    requires GrantsOk(m) && CanInsert(m, g)
    ensures var mg := MergedGrant(m, g);
            && mg.base <= g.base && g.Span().End() <= mg.Span().End() <= USER_PAGES
            && mg.info.(count := 0) == g.info.(count := 0)
            && (mg.base < g.base ==> mg.base in Neighbours(m, g) && mg.base + m[mg.base].count == g.base)
            && (mg.Span().End() > g.Span().End() ==>
                  g.Span().End() in Neighbours(m, g) && mg.Span().End() == g.Span().End() + m[g.Span().End()].count)
            && (forall b :: b in m && b !in Neighbours(m, g) ==> b + m[b].count <= mg.base || mg.Span().End() <= b)
  {
    NeighbourFacts(m, g);
  }

  /** Merging leaves no mergeable pair behind. */
  lemma InsertMerged(m: Inner, g: Grant)
    requires GrantsOk(m) && Merged(m) && CanInsert(m, g)
    ensures Merged(InsertInner(m, g))
  {
    hide GrantsOk, CanInsert, InsertInner, CanMerge;
    var m1 := InsertInner(m, g);
    forall b | b in m1 && b + m1[b].count in m1
      ensures !CanMerge(m1[b], m1[b + m1[b].count])
    {
      InsertMergedAt(m, g, b);
    }
  }

  // ----- merging, page by page -----

  /** The page is ordinary anonymous memory. */
  predicate IsAnonymous(m: Inner, p: nat) {
    AttrOf(m, p).Some? && AttrOf(m, p).value.backing == Anonymous(false)
  }

  /** Adjacent pages of anonymous memory with the same attributes are in one grant. */
  ghost predicate Together(m: Inner) {
    forall p: nat :: IsAnonymous(m, p) && AttrOf(m, p) == AttrOf(m, p + 1) ==> Contains(m, p) == Contains(m, p + 1)
  }

  lemma TogetherAt(m: Inner, p: nat)
    requires GrantsOk(m) && Merged(m) && IsAnonymous(m, p) && AttrOf(m, p) == AttrOf(m, p + 1)
    ensures Contains(m, p) == Contains(m, p + 1)
  {
    ContainsIff(m, p);
    ContainsIff(m, p + 1);
    var b, c := Contains(m, p).value, Contains(m, p + 1).value;
    assert Holds(m, b, p) && Holds(m, c, p + 1);
  }

  lemma MergedAt(m: Inner, b: nat)
    requires GrantsOk(m) && Together(m) && b in m && b + m[b].count in m
    ensures !CanMerge(m[b], m[b + m[b].count])
  {
    var p := b + m[b].count - 1;
    assert Holds(m, b, p) && Holds(m, p + 1, p + 1);
    AttrFrom(m, b, p);
    AttrFrom(m, p + 1, p + 1);
    ContainsIff(m, p);
    ContainsIff(m, p + 1);
  }

  /** Nothing is left to merge exactly when adjacent equal pages of anonymous memory are in one grant. */
  lemma MergedIffTogether(m: Inner)
    requires GrantsOk(m)
    ensures Merged(m) <==> Together(m)
  {
    hide GrantsOk, CanMerge, IsAnonymous;
    if Merged(m) {
      forall p: nat | IsAnonymous(m, p) && AttrOf(m, p) == AttrOf(m, p + 1)
        ensures Contains(m, p) == Contains(m, p + 1)
      {
        TogetherAt(m, p);
      }
    }
    if Together(m) {
      forall b | b in m && b + m[b].count in m
        ensures !CanMerge(m[b], m[b + m[b].count])
      {
        MergedAt(m, b);
      }
    }
  }

  /** A run of equal anonymous pages is in one grant. */
  lemma {:induction false} RunTogether(m: Inner, p: nat, q: nat)
    requires GrantsOk(m) && Together(m) && p <= q && IsAnonymous(m, p)
    requires forall x: nat | p <= x <= q :: AttrOf(m, x) == AttrOf(m, p)
    ensures Contains(m, p) == Contains(m, q)
    decreases q - p
  {
    if p < q {
      RunTogether(m, p, q - 1);
      assert AttrOf(m, q - 1) == AttrOf(m, p) && AttrOf(m, q) == AttrOf(m, p);
      assert IsAnonymous(m, q - 1);
    }
  }

  /** Pages of one grant have equal attributes if it is anonymous. */
  lemma OneGrantAlike(m: Inner, b: nat, x: nat, p: nat)
    requires GrantsOk(m) && Holds(m, b, x) && Holds(m, b, p) && IsAnonymous(m, p)
    ensures AttrOf(m, x) == AttrOf(m, p)
  {
    AttrFrom(m, b, x);
    AttrFrom(m, b, p);
  }

  lemma GrantWithin(m1: Inner, m2: Inner, p: nat, b: nat, c: nat)
    requires GrantsOk(m1) && GrantsOk(m2) && Together(m2) && (forall x: nat :: AttrOf(m1, x) == AttrOf(m2, x))
    requires Holds(m1, b, p) && Holds(m2, c, p) && IsAnonymous(m1, p)
    ensures c <= b && b + m1[b].count <= c + m2[c].count
  {
    var last := b + m1[b].count - 1;
    assert Holds(m1, b, b) && Holds(m1, b, last);
    forall x: nat | b <= x <= last
      ensures AttrOf(m2, x) == AttrOf(m1, p)
    {
      assert Holds(m1, b, x);
      OneGrantAlike(m1, b, x, p);
    }
    assert IsAnonymous(m2, b) && IsAnonymous(m2, p);
    RunTogether(m2, b, p);
    RunTogether(m2, p, last);
    ContainsIff(m2, p);
    ContainsIff(m2, b);
    ContainsIff(m2, last);
  }

  /** The anonymous grants are a function of the attributes of the pages: however they came about, equal
      pages are cut into equal grants. */
  lemma AnonymousIsCanonical(m1: Inner, m2: Inner, p: nat)
    requires GrantsOk(m1) && GrantsOk(m2) && Merged(m1) && Merged(m2)
    requires (forall x: nat :: AttrOf(m1, x) == AttrOf(m2, x)) && IsAnonymous(m1, p)
    ensures Contains(m1, p).Some? && Contains(m1, p) == Contains(m2, p)
    ensures m1[Contains(m1, p).value] == m2[Contains(m1, p).value]
  {
    MergedIffTogether(m1);
    MergedIffTogether(m2);
    hide Merged, Together;
    ContainsIff(m1, p);
    ContainsIff(m2, p);
    assert AttrOf(m1, p) == AttrOf(m2, p);
    var b, c := Contains(m1, p).value, Contains(m2, p).value;
    assert IsAnonymous(m2, p);
    GrantWithin(m1, m2, p, b, c);
    GrantWithin(m2, m1, p, c, b);
    AttrFrom(m1, b, p);
    AttrFrom(m2, b, p);
  }

  /** What the map holds at a key after the insertion. */
  lemma InsertedAt(m: Inner, g: Grant, b: nat)
    requires b in InsertInner(m, g)
    ensures b == MergedGrant(m, g).base ==> InsertInner(m, g)[b] == MergedGrant(m, g).info
    ensures b != MergedGrant(m, g).base ==> b in m && b !in Neighbours(m, g) && InsertInner(m, g)[b] == m[b]
  {
    hide MergedGrant, Neighbours;
  }

  lemma InsertMergedAt(m: Inner, g: Grant, b: nat)
    requires GrantsOk(m) && Merged(m) && CanInsert(m, g)
    requires b in InsertInner(m, g) && b + InsertInner(m, g)[b].count in InsertInner(m, g)
    ensures !CanMerge(InsertInner(m, g)[b], InsertInner(m, g)[b + InsertInner(m, g)[b].count])
  {
    MergedEnds(m, g);
    hide Neighbours, MergedGrant, CanMerge, InsertInner, GrantsOk;
    var m1, mg := InsertInner(m, g), MergedGrant(m, g);
    var e := b + m1[b].count;
    InsertedAt(m, g, b);
    InsertedAt(m, g, e);
    if b == mg.base {
      AfterMerged(m, g, e);
    } else if e == mg.base {
      BeforeMerged(m, g, b);
    }
  }

  /** The grant that now follows the merged one could not be merged with it. */
  lemma AfterMerged(m: Inner, g: Grant, e: nat)
    requires GrantsOk(m) && Merged(m) && CanInsert(m, g)
    requires e == MergedGrant(m, g).Span().End() && e in m && e !in Neighbours(m, g)
    ensures !CanMerge(MergedGrant(m, g).info, m[e])
  {
    NeighbourFacts(m, g);
    MergedEnds(m, g);
    hide Neighbours, MergedGrant, CanInsert, GrantsOk;
    var mg, end := MergedGrant(m, g), g.Span().End();
    if e != end {
      assert !CanMerge(m[end], m[e]);
    }
  }

  /** Nor could the one that now precedes it. */
  lemma BeforeMerged(m: Inner, g: Grant, b: nat)
    requires GrantsOk(m) && Merged(m) && CanInsert(m, g)
    requires b in m && b !in Neighbours(m, g) && b + m[b].count == MergedGrant(m, g).base
    ensures !CanMerge(m[b], MergedGrant(m, g).info)
  {
    NeighbourFacts(m, g);
    MergedEnds(m, g);
    hide Neighbours, MergedGrant, CanInsert, GrantsOk;
    var mg := MergedGrant(m, g);
    if mg.base != g.base {
      assert !CanMerge(m[b], m[mg.base]);
    }
  }

  /** A page of the merged grant looks as it did in the part it comes from. */
  lemma MergedAttr(m: Inner, g: Grant, p: nat)
    requires GrantsOk(m) && CanInsert(m, g) && MergedGrant(m, g).Span().Has(p)
    ensures Some(AttrAt(MergedGrant(m, g), p)) == if g.Span().Has(p) then Some(AttrAt(g, p)) else AttrOf(m, p)
  {
    MergedEnds(m, g);
    NeighbourFacts(m, g);
    hide Neighbours, MergedGrant, Intersects, AttrOf, GrantsOk, CanInsert;
    var mg := MergedGrant(m, g);
    if p < g.base {
      AttrFrom(m, mg.base, p);
    } else if g.Span().End() <= p {
      AttrFrom(m, g.Span().End(), p);
    }
  }

  lemma InsertElsewhere(m: Inner, g: Grant, p: nat)
    requires GrantsOk(m) && CanInsert(m, g) && !MergedGrant(m, g).Span().Has(p)
    ensures AttrOf(InsertInner(m, g), p) == AttrOf(m, p)
    ensures !g.Span().Has(p)
  {
    MergedEnds(m, g);
    NeighbourFacts(m, g);
    InsertGrantsOk(m, g);
    hide Neighbours, MergedGrant, Intersects, AttrOf, GrantsOk, CanInsert, CanMerge;
    SameAttr(m, InsertInner(m, g), p);
  }

  /** The new pages get the new grant's attributes; no other page changes. */
  lemma InsertAttr(m: Inner, g: Grant, p: nat)
    requires GrantsOk(m) && CanInsert(m, g)
    ensures AttrOf(InsertInner(m, g), p) == if g.Span().Has(p) then Some(AttrAt(g, p)) else AttrOf(m, p)
  {
    hide Neighbours, MergedGrant, AttrOf, GrantsOk, CanInsert;
    if MergedGrant(m, g).Span().Has(p) {
      InsertGrantsOk(m, g);
      MergedAttr(m, g, p);
      AttrFrom(InsertInner(m, g), MergedGrant(m, g).base, p);
    } else {
      InsertElsewhere(m, g, p);
    }
  }

  /** Grants beyond the inserted one stay as they are. */
  lemma InsertKeepsBeyond(m: Inner, g: Grant, b: nat)
    requires GrantsOk(m) && CanInsert(m, g) && g.Span().End() < b
    ensures b in InsertInner(m, g) <==> b in m
    ensures b in m ==> InsertInner(m, g)[b] == m[b]
  {
    NeighbourFacts(m, g);
    MergedEnds(m, g);
  }

  // ----- remove -----

  lemma RemoveKeeps(m: Inner, b: nat)
    requires GrantsOk(m) && b in m
    ensures GrantsOk(m - {b})
    ensures Merged(m) ==> Merged(m - {b})
    ensures forall p :: AttrOf(m - {b}, p) == if SpanOf(m, b).Has(p) then None else AttrOf(m, p)
  {
    var m1 := m - {b};
    forall p: nat
      ensures AttrOf(m1, p) == if SpanOf(m, b).Has(p) then None else AttrOf(m, p)
    {
      if SpanOf(m, b).Has(p) {
        NoAttr(m1, p);
      } else {
        SameAttr(m, m1, p);
      }
    }
  }
}
