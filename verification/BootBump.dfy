/**
 The bump allocator during boot: `map_memory` (src/startup/memory.rs) takes the first page tables from
 it, `init_sections` (src/memory/mod.rs) the section array and the page-info arrays, from the same
 areas that the sections then describe.

 The allocator itself is the one of the rmm crate, which is not part of this model's source: it goes
 through the areas in order and gives up an area that is too small for a request. Sizes are in frames.
 */
module BootBump {
  import opened Common
  import opened BuddyMath
  import opened BuddyTiling
  import opened BuddyAllocator
  import opened BuddyBoot
  import opened BuddySections

  // the sizes on 64-bit machines
  const SECTION_SIZE: nat := 24
  const PAGE_INFO_SIZE: nat := 16

  function WholePagesFor(bytes: nat): nat {
    (bytes + PAGE_SIZE - 1) / PAGE_SIZE
  }

  // ----- serving requests -----

  /** The first area with room gives its first frames; those before it are given up. */
  function Take(free: seq<Section>, count: nat): Option<(nat, seq<Section>)>
    decreases |free|
  {
    if free == [] then None
    else if free[0].len < count then Take(free[1..], count)
    else Some((free[0].base, [Section(free[0].base + count, free[0].len - count)] + free[1..]))
  }

  /** One frame at a time. */
  function TakeEach(free: seq<Section>, n: nat): Option<seq<Section>>
    decreases n
  {
    if n == 0 then Some(free)
    else
      match Take(free, 1)
      case None => None
      case Some((_, rest)) => TakeEach(rest, n - 1)
  }

  function Serve(free: seq<Section>, requests: seq<nat>): Option<seq<Section>>
    decreases |requests|
  {
    if requests == [] then Some(free)
    else
      match Take(free, requests[0])
      case None => None
      case Some((_, rest)) => Serve(rest, requests[1..])
  }

  lemma {:induction false} TakeFails(free: seq<Section>, count: nat)
    ensures Take(free, count).None? <==> forall i | 0 <= i < |free| :: free[i].len < count
    decreases |free|
  {
    if free != [] && free[0].len < count {
      TakeFails(free[1..], count);
      assert forall i | 1 <= i < |free| :: free[i] == free[1..][i - 1];
    }
  }

  lemma InFirst(free: seq<Section>, p: nat)
    requires free != []
    ensures InSection(free, p) <==> free[0].base <= p < free[0].base + free[0].len || InSection(free[1..], p)
  {
    if InSection(free[1..], p) {
      var i :| 0 <= i < |free[1..]| && free[1..][i].base <= p < free[1..][i].base + free[1..][i].len;
      assert free[i + 1] == free[1..][i];
    }
    if i :| 1 <= i < |free| && free[i].base <= p < free[i].base + free[i].len {
      assert free[1..][i - 1] == free[i];
    }
  }

  lemma AreasRest(free: seq<Section>, p: nat)
    requires Areas(free) && free != []
    ensures Areas(free[1..]) && (InSection(free[1..], p) ==> free[0].base + free[0].len <= p)
  {
  }

  /** The pages left are those from the end of the block on. */
  ghost predicate Taken(free: seq<Section>, rest: seq<Section>, from: nat) {
    && Areas(rest) && rest != [] && rest[0].base == from && free != [] && free[0].base <= from
    && forall p: nat :: InSection(rest, p) <==> InSection(free, p) && from <= p
  }

  lemma TakeHere(free: seq<Section>, count: nat)
    requires Areas(free) && free != [] && count <= free[0].len
    ensures Taken(free, [Section(free[0].base + count, free[0].len - count)] + free[1..], free[0].base + count)
  {
    var rest := [Section(free[0].base + count, free[0].len - count)] + free[1..];
    assert rest[1..] == free[1..];
    hide InSection;
    forall p: nat
      ensures InSection(rest, p) <==> InSection(free, p) && free[0].base + count <= p
    {
      InFirst(free, p);
      InFirst(rest, p);
      AreasRest(free, p);
    }
  }

  /** The block lies in one area, and nothing below its end is given out again. */
  lemma {:induction false} TakeFacts(free: seq<Section>, count: nat)
    requires Areas(free) && Take(free, count).Some?
    ensures var (f, rest) := Take(free, count).value;
            Taken(free, rest, f + count) && forall p: nat :: f <= p < f + count ==> InSection(free, p)
    decreases |free|
  {
    if free[0].len < count {
      AreasRest(free, 0);
      TakeFacts(free[1..], count);
      var (f, rest) := Take(free[1..], count).value;
      FoundIn(free[1..], count);
      hide InSection, Take;
      forall p: nat
        ensures InSection(rest, p) <==> InSection(free, p) && f + count <= p
        ensures f <= p < f + count ==> InSection(free, p)
      {
        InFirst(free, p);
        AreasRest(free, p);
        AreasRest(free, f + count - 1);
      }
    } else {
      TakeHere(free, count);
      assert forall p: nat :: free[0].base <= p < free[0].base + count ==> InSection(free, p);
    }
  }

  lemma {:induction false} FoundIn(free: seq<Section>, count: nat)
    requires Take(free, count).Some? && count > 0
    ensures InSection(free, Take(free, count).value.0 + count - 1)
    decreases |free|
  {
    if free[0].len < count {
      FoundIn(free[1..], count);
      InFirst(free, Take(free, count).value.0 + count - 1);
    }
  }

  /** A single frame is the lowest there is, and there is none only when all are used. */
  lemma {:induction false} TakeLowest(free: seq<Section>)
    requires Areas(free)
    ensures Take(free, 1).None? <==> forall p: nat :: !InSection(free, p)
    ensures Take(free, 1).Some? ==>
              var f := Take(free, 1).value.0;
              InSection(free, f) && forall p: nat :: InSection(free, p) ==> f <= p
    decreases |free|
  {
    if free != [] {
      AreasRest(free, 0);
      if free[0].len < 1 {
        TakeLowest(free[1..]);
      } else {
        assert InSection(free, free[0].base);
      }
      hide InSection;
      forall p: nat
        ensures InSection(free, p) <==> free[0].base <= p < free[0].base + free[0].len || InSection(free[1..], p)
        ensures InSection(free[1..], p) ==> free[0].base + free[0].len <= p
      {
        InFirst(free, p);
        AreasRest(free, p);
      }
    }
  }

  /** `rest` is `all` without its `n` lowest elements. */
  ghost predicate WithoutLowest(all: set<nat>, rest: set<nat>, n: nat) {
    rest <= all && |all - rest| == n && forall u, p :: u in all - rest && p in rest ==> u < p
  }

  lemma LowestThen(all: set<nat>, f: nat, mid: set<nat>, rest: set<nat>, n: nat)
    requires f in all && (forall p :: p in all ==> f <= p) && mid == all - {f} && WithoutLowest(mid, rest, n)
    ensures WithoutLowest(all, rest, n + 1)
  {
    assert all - rest == (mid - rest) + {f};
  }

  lemma EachStep(free: seq<Section>, n: nat)
    requires n > 0
    ensures match Take(free, 1)
            case None => TakeEach(free, n).None?
            case Some((_, rest)) => TakeEach(free, n) == TakeEach(rest, n - 1)
  {
  }

  lemma EachNone(free: seq<Section>)
    ensures TakeEach(free, 0) == Some(free)
  {
  }

  lemma OneTaken(free: seq<Section>)
    requires Areas(free)
    ensures match Take(free, 1)
            case None => Pages(free) == {}
            case Some((f, rest)) =>
              Areas(rest) && f in Pages(free) && (forall p :: p in Pages(free) ==> f <= p) && Pages(rest) == Pages(free) - {f}
  {
    hide InSection, Take, Areas;
    TakeLowest(free);
    if Take(free, 1).Some? {
      TakeFacts(free, 1);
      var (f, rest) := Take(free, 1).value;
      assert forall p :: p in Pages(rest) <==> p in Pages(free) && p != f;
    } else {
      assert forall p :: p !in Pages(free);
    }
  }

  /** Frames taken one at a time are the lowest, and run out exactly when there are not enough. */
  lemma {:induction false} TakeEachFacts(free: seq<Section>, n: nat)
    requires Areas(free)
    ensures TakeEach(free, n).Some? <==> n <= |Pages(free)|
    ensures TakeEach(free, n).Some? ==>
              Areas(TakeEach(free, n).value) && WithoutLowest(Pages(free), Pages(TakeEach(free, n).value), n)
    decreases n
  {
    hide InSection, Take, Pages, Areas;
    if n > 0 {
      OneTaken(free);
      if Take(free, 1).Some? {
        var (f, rest) := Take(free, 1).value;
        TakeEachFacts(rest, n - 1);
        if TakeEach(rest, n - 1).Some? {
          hide WithoutLowest;
          LowestThen(Pages(free), f, Pages(rest), Pages(TakeEach(rest, n - 1).value), n - 1);
        }
      }
    }
  }

  lemma {:induction false} ServeFacts(free: seq<Section>, requests: seq<nat>)
    requires Areas(free) && requests != [] && Serve(free, requests).Some?
    ensures var rest := Serve(free, requests).value; rest != [] && Taken(free, rest, rest[0].base)
    decreases |requests|
  {
    TakeFacts(free, requests[0]);
    var rest := Take(free, requests[0]).value.1;
    if |requests| > 1 {
      ServeFacts(rest, requests[1..]);
    } else {
      assert requests[1..] == [];
    }
  }

  // ----- the allocator -----

  class BumpAllocator {
    /** The areas not used up, the used part of the first one cut off. */
    var free: seq<Section>

    constructor (areas: seq<Section>)
      ensures free == areas
    {
      free := areas;
    }

    method Allocate(count: nat) returns (r: Option<nat>)
      modifies this
      ensures match Take(old(free), count)
              case None => r.None?
              case Some((f, rest)) => r == Some(f) && free == rest
      ensures r.None? <==> forall i | 0 <= i < |old(free)| :: old(free)[i].len < count
    {
      TakeFails(free, count);
      while free != []
        invariant Take(free, count) == Take(old(free), count)
        decreases |free|
      {
        if free[0].len < count {
          free := free[1..];
          continue;
        }
        r := Some(free[0].base);
        free := [Section(free[0].base + count, free[0].len - count)] + free[1..];
        return;
      }
      r := None;
    }

    /** `map_memory`: page tables, one frame each. They are the lowest frames there are. */
    method TakeTables(tables: nat) returns (ok: bool)
      requires Areas(free)
      modifies this
      ensures ok <==> tables <= |Pages(old(free))|
      ensures ok ==> TakeEach(old(free), tables) == Some(free) && Areas(free) && WithoutLowest(Pages(old(free)), Pages(free), tables)
    {
      hide Areas, Pages, WithoutLowest, Take, TakeEach, InSection;
      TakeEachFacts(free, tables);
      for i := 0 to tables
        invariant TakeEach(free, tables - i) == TakeEach(old(free), tables)
      {
        EachStep(free, tables - i);
        var f := Allocate(1);
        if f.None? {
          return false;
        }
      }
      EachNone(free);
      ok := true;
    }
  }

  // ----- the arrays of `init_sections` -----

  function ArrayPages(areas: seq<Section>): nat {
    WholePagesFor(MaxSections(areas) * SECTION_SIZE)
  }

  function InfoPages(s: Section): nat {
    WholePagesFor(s.len * PAGE_INFO_SIZE)
  }

  function InfoRequests(ss: seq<Section>): seq<nat> {
    if ss == [] then [] else [InfoPages(ss[0])] + InfoRequests(ss[1..])
  }

  /** What `init_sections` asks for: the section array, then the page infos of each section. */
  function Requests(areas: seq<Section>): seq<nat> {
    [ArrayPages(areas)] + InfoRequests(SectionsOf(areas))
  }

  /** The arrays have room for what is put into them, and no page more than that. */
  lemma ArraysFit(areas: seq<Section>, s: Section)
    ensures |SectionsOf(areas)| * 24 <= ArrayPages(areas) * PAGE_SIZE
    ensures ArrayPages(areas) * PAGE_SIZE < MaxSections(areas) * 24 + PAGE_SIZE
    ensures s.len * 16 <= InfoPages(s) * PAGE_SIZE < s.len * 16 + PAGE_SIZE
  {
    SectionsFit(areas);
    hide SectionsOf, MaxSections;
  }

  datatype BootResult = Started(allocator: FrameAllocator) | NoMemory | ZeroFrame

  lemma FreeAbove(t: Tiling, owned: set<nat>, absOff: nat, p: nat)
    requires Tiled(t, owned) && Fresh(t, absOff) && p in PagesOf(t, Free)
    ensures p in owned && absOff <= p
  {
  }

  lemma FreeUnused(t: Tiling, free: seq<Section>, rest: seq<Section>)
    requires rest != [] && Taken(free, rest, rest[0].base) && Good(t, Pages(free)) && Fresh(t, rest[0].base)
    ensures PagesOf(t, Free) <= Pages(rest)
  {
    hide Tiled, PagesOf, Fresh, Maximal, InSection;
    forall p | p in PagesOf(t, Free)
      ensures p in Pages(rest)
    {
      FreeAbove(t, Pages(free), rest[0].base, p);
    }
  }

  /** `init_sections`, from whatever the bump allocator has left. The frame allocator owns exactly that.
      What it holds free is what the bump allocator has still not used at the end: no page table and
      no array of its own. It panics on frame 0 exactly when that frame is among those left and the
      section array fits; it fails for lack of memory otherwise exactly when a request does. */
  method InitFromBump(bump: BumpAllocator) returns (r: BootResult)
    requires Areas(bump.free)
    modifies bump
    ensures r.ZeroFrame? <==> 0 in Pages(old(bump.free)) && Take(old(bump.free), ArrayPages(old(bump.free))).Some?
    ensures r.Started? <==> 0 !in Pages(old(bump.free)) && Serve(old(bump.free), Requests(old(bump.free))).Some?
    ensures r.Started? ==>
              var a := r.allocator;
              && fresh(a) && a.Valid() && a.usedFrames == 0 && a.infos.Keys == Pages(old(bump.free))
              && Serve(old(bump.free), Requests(old(bump.free))) == Some(bump.free)
              && bump.free != [] && Fresh(a.tiling, bump.free[0].base)
              && PagesOf(a.tiling, Free) <= Pages(bump.free)
  {
    hide Sections, Pages, InSection, Fresh, PagesOf, Good, Areas, MaxSections, SectionsOf;
    var areas := bump.free;
    ghost var requests := Requests(areas);
    assert requests[1..] == InfoRequests(SectionsOf(areas));
    var table := bump.Allocate(ArrayPages(areas));
    if table.None? {
      return NoMemory;
    }
    var ss := BuildSections(areas);
    if ss.None? {
      return ZeroFrame;
    }
    for i := 0 to |ss.value|
      invariant Serve(bump.free, InfoRequests(ss.value[i..])) == Serve(areas, requests)
    {
      assert ss.value[i..][0] == ss.value[i] && ss.value[i..][1..] == ss.value[i + 1..];
      ghost var left := InfoRequests(ss.value[i..]);
      assert left[1..] == InfoRequests(ss.value[i + 1..]);
      var infos := bump.Allocate(InfoPages(ss.value[i]));
      if infos.None? {
        return NoMemory;
      }
    }
    ServeFacts(areas, requests);
    var a := InitSections(ss.value, bump.free[0].base);
    FreeUnused(a.tiling, areas, bump.free);
    r := Started(a);
  }
}
