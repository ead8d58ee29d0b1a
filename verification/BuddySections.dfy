/**
 Cutting the free areas of the boot memory map into sections (src/memory/mod.rs). Sizes are in
 frames; the areas come sorted by base.
 */
module BuddySections {
  import opened Common
  import opened BuddyMath
  import opened BuddyTiling
  import opened BuddyBoot

  const MAX_SECTION_PAGE_COUNT: nat := 32768

  /** Sorted areas that do not overlap. */
  ghost predicate Areas(areas: seq<Section>) {
    forall i, j | 0 <= i < j < |areas| :: areas[i].base + areas[i].len <= areas[j].base
  }

  /** All sections end before `bound`. */
  ghost predicate Before(ss: seq<Section>, bound: nat) {
    forall i | 0 <= i < |ss| :: ss[i].base + ss[i].len <= bound
  }

  /** All sections end before `bound`, with a gap. */
  ghost predicate WellBefore(ss: seq<Section>, bound: nat) {
    forall i | 0 <= i < |ss| :: ss[i].base + ss[i].len < bound
  }

  lemma SectionStart(f: nat)
    requires f % MAX_SECTION_PAGE_COUNT == 0
    ensures Aligned(f, MAX_ORDER)
  {
    AlignedIsRemainder(f, MAX_ORDER);
    assert Pow2(MAX_ORDER) == 1024 by {
      Pow2Ten();
    }
  }

  lemma Pow2Ten()
    ensures Pow2(10) == 1024
  {
    assert Pow2(4) == 16;
    assert Pow2(8) == 256;
  }

  lemma AppendSection(ss: seq<Section>, s: Section)
    requires Sections(ss) && Before(ss, s.base) && 0 < s.base
    requires WellBefore(ss, s.base) || Aligned(s.base, MAX_ORDER)
    ensures Sections(ss + [s])
    ensures forall p: nat :: InSection(ss + [s], p) <==> InSection(ss, p) || s.base <= p < s.base + s.len
  {
    hide Aligned;
    var all := ss + [s];
    forall p: nat
      ensures InSection(all, p) <==> InSection(ss, p) || s.base <= p < s.base + s.len
    {
      if InSection(ss, p) {
        var i :| 0 <= i < |ss| && ss[i].base <= p < ss[i].base + ss[i].len;
        assert all[i] == ss[i];
      }
      if s.base <= p < s.base + s.len {
        assert all[|ss|] == s;
      }
    }
  }

  lemma NextArea(areas: seq<Section>, i: nat, p: nat)
    requires i < |areas|
    ensures InSection(areas[..i + 1], p) <==> InSection(areas[..i], p) || areas[i].base <= p < areas[i].base + areas[i].len
  {
    if InSection(areas[..i], p) {
      var j :| 0 <= j < i && areas[..i][j].base <= p < areas[..i][j].base + areas[..i][j].len;
      assert areas[..i + 1][j] == areas[..i][j];
    }
    if InSection(areas[..i + 1], p) {
      var j :| 0 <= j < i + 1 && areas[..i + 1][j].base <= p < areas[..i + 1][j].base + areas[..i + 1][j].len;
      assert j < i ==> areas[..i][j] == areas[..i + 1][j];
    }
    if areas[i].base <= p < areas[i].base + areas[i].len {
      assert areas[..i + 1][i] == areas[i];
    }
  }

  lemma NextAreas(areas: seq<Section>, i: nat)
    requires i < |areas|
    ensures forall p: nat :: InSection(areas[..i + 1], p) <==> InSection(areas[..i], p) || areas[i].base <= p < areas[i].base + areas[i].len
  {
    hide InSection;
    forall p: nat
      ensures InSection(areas[..i + 1], p) <==> InSection(areas[..i], p) || areas[i].base <= p < areas[i].base + areas[i].len
    {
      NextArea(areas, i, p);
    }
  }

  // ----- which sections -----

  /** The part of [base, base + len) up to the next section boundary. */
  function Piece(base: nat, len: nat): nat {
    Min(Min(len, MAX_SECTION_PAGE_COUNT), MAX_SECTION_PAGE_COUNT - base % MAX_SECTION_PAGE_COUNT)
  }

  lemma PieceFacts(base: nat, len: nat)
    requires len > 0
    ensures 0 < Piece(base, len) <= len
    ensures Piece(base, len) < len ==> (base + Piece(base, len)) % MAX_SECTION_PAGE_COUNT == 0
  {
  }

  /** [base, base + len), cut at section boundaries. */
  function CutAt(base: nat, len: nat): seq<Section>
    decreases len
  {
    if len == 0 then []
    else
      var n := Piece(base, len);
      [Section(base, n)] + CutAt(base + n, len - n)
  }

  /** The areas, those that touch joined and empty ones left out, each cut at section boundaries. */
  function SectionsOf(areas: seq<Section>): seq<Section>
    decreases |areas|
  {
    if areas == [] then []
    else if areas[0].len == 0 then SectionsOf(areas[1..])
    else if |areas| > 1 && areas[1].base == areas[0].base + areas[0].len
    then SectionsOf([Section(areas[0].base, areas[0].len + areas[1].len)] + areas[2..])
    else CutAt(areas[0].base, areas[0].len) + SectionsOf(areas[1..])
  }

  /** The section boundaries that an area may need, as the section array is sized. */
  function SlotsFor(area: Section): nat {
    (area.base + area.len + MAX_SECTION_PAGE_COUNT - 1) / MAX_SECTION_PAGE_COUNT - area.base / MAX_SECTION_PAGE_COUNT
  }

  function MaxSections(areas: seq<Section>): nat {
    if areas == [] then 0 else SlotsFor(areas[0]) + MaxSections(areas[1..])
  }

  lemma {:induction false} CutFits(base: nat, len: nat)
    ensures len > 0 ==> |CutAt(base, len)| == SlotsFor(Section(base, len))
    decreases len
  {
    if len > 0 {
      CutFits(base + Piece(base, len), len - Piece(base, len));
    }
  }

  /** The section array always has a place for the next section. */
  lemma {:induction false} SectionsFit(areas: seq<Section>)
    ensures |SectionsOf(areas)| <= MaxSections(areas)
    decreases |areas|
  {
    if areas != [] {
      if areas[0].len == 0 {
        SectionsFit(areas[1..]);
      } else if |areas| > 1 && areas[1].base == areas[0].base + areas[0].len {
        var joined := [Section(areas[0].base, areas[0].len + areas[1].len)] + areas[2..];
        SectionsFit(joined);
        assert joined[1..] == areas[2..] == areas[1..][1..];
        assert MaxSections(areas) == SlotsFor(areas[0]) + SlotsFor(areas[1]) + MaxSections(areas[2..]);
        JoinedFits(areas[0], areas[1]);
      } else {
        SectionsFit(areas[1..]);
        CutFits(areas[0].base, areas[0].len);
      }
    }
  }

  lemma JoinedFits(a: Section, b: Section)
    requires b.base == a.base + a.len
    ensures SlotsFor(Section(a.base, a.len + b.len)) <= SlotsFor(a) + SlotsFor(b)
  {
  }

  // ----- cutting -----

  lemma CutStep(base: nat, len: nat)
    requires len > 0 && 0 < Piece(base, len) <= len
    ensures CutAt(base, len) == [Section(base, Piece(base, len))] + CutAt(base + Piece(base, len), len - Piece(base, len))
  {
  }

  lemma CutNothing(base: nat)
    ensures CutAt(base, 0) == []
  {
  }

  /** Cuts [base, base + len) at section boundaries, behind the sections there are. */
  method CutArea(ss0: seq<Section>, area: Section) returns (ss: seq<Section>)
    requires Sections(ss0) && 0 < area.base && WellBefore(ss0, area.base)
    ensures Sections(ss) && Before(ss, area.base + area.len) && ss == ss0 + CutAt(area.base, area.len)
    ensures forall p: nat :: InSection(ss, p) <==> InSection(ss0, p) || area.base <= p < area.base + area.len
  {
    hide InSection, Sections, Aligned, CutAt;
    ss := ss0;
    var base: nat, left: nat := area.base, area.len;
    while left > 0
      invariant base + left == area.base + area.len && area.base <= base
      invariant Sections(ss) && Before(ss, base) && ss + CutAt(base, left) == ss0 + CutAt(area.base, area.len)
      invariant WellBefore(ss, base) || left == 0 || Aligned(base, MAX_ORDER)
      invariant forall p: nat :: InSection(ss, p) <==> InSection(ss0, p) || area.base <= p < base
    {
      var toNext := MAX_SECTION_PAGE_COUNT - base % MAX_SECTION_PAGE_COUNT;
      var most := if left < MAX_SECTION_PAGE_COUNT then left else MAX_SECTION_PAGE_COUNT;
      var n := if most < toNext then most else toNext;
      assert n == Piece(base, left);
      hide Piece;
      PieceFacts(base, left);
      CutStep(base, left);
      AppendSection(ss, Section(base, n));
      ss := ss + [Section(base, n)];
      base, left := base + n, left - n;
      if left > 0 {
        SectionStart(base);
      }
    }
    CutNothing(base);
  }

  /** The next area with all that touch it. */
  method JoinTouching(areas: seq<Section>, first: nat, ghost ss: seq<Section>) returns (area: Section, i: nat)
    requires Areas(areas) && first < |areas| && areas[first].len > 0
    requires forall p: nat :: InSection(ss, p) <==> InSection(areas[..first], p)
    ensures first < i <= |areas| && area.base == areas[first].base && area.len > 0
    ensures forall j | i <= j < |areas| :: area.base + area.len < areas[j].base
    ensures CoversWith(areas[..i], ss, area)
    ensures SectionsOf(areas[first..]) == CutAt(area.base, area.len) + SectionsOf(areas[i..])
  {
    hide InSection, SectionsOf, CoversWith, CutAt;
    area, i := areas[first], first + 1;
    CoversFirst(areas, first, ss);
    assert [area] + areas[i..] == areas[first..];
    while i < |areas| && areas[i].base == area.base + area.len
      invariant first < i <= |areas| && area.base == areas[first].base && area.len > 0
      invariant forall j | i <= j < |areas| :: area.base + area.len <= areas[j].base
      invariant CoversWith(areas[..i], ss, area)
      invariant SectionsOf(areas[first..]) == SectionsOf([area] + areas[i..])
    {
      CoversNext(areas, i, ss, area);
      SectionsJoin(area, areas, i);
      area := Section(area.base, area.len + areas[i].len);
      i := i + 1;
    }
    SectionsCut(area, areas, i);
  }

  /** The sections cover exactly the areas, and touch only where the largest blocks begin. There are
      none exactly when frame 0 is in an area: `Frame::containing` panics on its address. */
  method BuildSections(areas: seq<Section>) returns (r: Option<seq<Section>>)
    requires Areas(areas)
    ensures r.None? <==> 0 in Pages(areas)
    ensures r.Some? ==> Sections(r.value) && Pages(r.value) == Pages(areas)
    // no more than the section array has room for
    ensures r.Some? ==> r.value == SectionsOf(areas) && |r.value| <= MaxSections(areas)
  {
    hide InSection, Sections, SectionsOf, MaxSections, CutAt;
    var ss: seq<Section> := [];
    NoSections();
    var i := 0;
    assert areas[..0] == [] && areas[0..] == areas;
    while i < |areas|
      invariant 0 <= i <= |areas| && Sections(ss)
      invariant forall j | i <= j < |areas| :: ss == [] || WellBefore(ss, areas[j].base)
      invariant forall p: nat :: InSection(ss, p) <==> InSection(areas[..i], p)
      invariant SectionsOf(areas) == ss + SectionsOf(areas[i..])
    {
      if areas[i].len == 0 {
        NextAreas(areas, i);
        SectionsSkip(areas, i);
        i := i + 1;
        continue;
      }
      var area, next := JoinTouching(areas, i, ss);
      if area.base == 0 {
        FrameZero(areas, i);
        return None;
      }
      ss := CutArea(ss, area);
      i := next;
    }
    assert areas[..i] == areas;
    NoneLeft(areas);
    SectionsMissZero(ss);
    SectionsFit(areas);
    r := Some(ss);
  }

  lemma NoneLeft(areas: seq<Section>)
    ensures SectionsOf(areas[|areas|..]) == []
  {
  }

  lemma SectionsSkip(areas: seq<Section>, i: nat)
    requires i < |areas| && areas[i].len == 0
    ensures SectionsOf(areas[i..]) == SectionsOf(areas[i + 1..])
  {
    assert areas[i..][0] == areas[i] && areas[i..][1..] == areas[i + 1..];
  }

  lemma SectionsJoin(area: Section, areas: seq<Section>, i: nat)
    requires i < |areas| && area.len > 0 && areas[i].base == area.base + area.len
    ensures SectionsOf([area] + areas[i..]) == SectionsOf([Section(area.base, area.len + areas[i].len)] + areas[i + 1..])
  {
    var all := [area] + areas[i..];
    assert all[1] == areas[i] && all[2..] == areas[i + 1..];
  }

  lemma SectionsCut(area: Section, areas: seq<Section>, i: nat)
    requires i <= |areas| && area.len > 0 && (i < |areas| ==> areas[i].base != area.base + area.len)
    ensures SectionsOf([area] + areas[i..]) == CutAt(area.base, area.len) + SectionsOf(areas[i..])
  {
    var all := [area] + areas[i..];
    assert all[1..] == areas[i..];
    assert |all| > 1 ==> all[1] == areas[i];
  }

  /** The areas cover the sections so far and the one being joined. */
  ghost predicate CoversWith(areas: seq<Section>, ss: seq<Section>, area: Section) {
    forall p: nat :: InSection(areas, p) <==> InSection(ss, p) || area.base <= p < area.base + area.len
  }

  lemma CoversFirst(areas: seq<Section>, i: nat, ss: seq<Section>)
    requires i < |areas| && forall p: nat :: InSection(ss, p) <==> InSection(areas[..i], p)
    ensures CoversWith(areas[..i + 1], ss, areas[i])
  {
    hide InSection;
    NextAreas(areas, i);
  }

  lemma CoversNext(areas: seq<Section>, i: nat, ss: seq<Section>, area: Section)
    requires i < |areas| && CoversWith(areas[..i], ss, area) && areas[i].base == area.base + area.len
    ensures CoversWith(areas[..i + 1], ss, Section(area.base, area.len + areas[i].len))
  {
    hide InSection;
    NextAreas(areas, i);
  }

  lemma FrameZero(areas: seq<Section>, i: nat)
    requires i < |areas| && areas[i].base == 0 && areas[i].len > 0
    ensures 0 in Pages(areas)
  {
  }

  lemma SectionsMissZero(ss: seq<Section>)
    requires Sections(ss)
    ensures !InSection(ss, 0)
  {
  }

  lemma NoSections()
    ensures Sections([]) && forall p: nat :: !InSection([], p)
  {
  }
}
