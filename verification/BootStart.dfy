/**
 From the boot memory map to a running frame allocator: `init` (src/startup/memory.rs) sorts the
 areas, `map_memory` takes frames for page tables, and `init_sections` (src/memory/mod.rs) cuts the
 rest into sections and builds the free lists.
 */
module BootStart {
  import opened Common
  import opened BootMap
  import opened BootAreas
  import opened BootTable
  import opened BuddyTiling
  import opened BuddyAllocator
  import opened BuddyBoot
  import opened BuddySections
  import opened BootBump

  // ----- sorting -----

  ghost predicate Ascending(areas: seq<Area>) {
    forall i, j | 0 <= i < j < |areas| :: areas[i].base <= areas[j].base
  }

  function Insert(a: Area, sorted: seq<Area>): seq<Area> {
    if sorted == [] || a.base <= sorted[0].base then [a] + sorted else [sorted[0]] + Insert(a, sorted[1..])
  }

  /** `sort_unstable_by_key`, on areas with different bases */
  function Sort(areas: seq<Area>): seq<Area> {
    if areas == [] then [] else Insert(areas[0], Sort(areas[1..]))
  }

  lemma {:induction false} InsertMultiset(a: Area, sorted: seq<Area>)
    ensures multiset(Insert(a, sorted)) == multiset(sorted) + multiset{a}
    decreases |sorted|
  {
    if sorted != [] && a.base > sorted[0].base {
      InsertMultiset(a, sorted[1..]);
      assert sorted == [sorted[0]] + sorted[1..];
    }
  }

  lemma AscendingCons(x: Area, rest: seq<Area>)
    requires Ascending(rest) && (forall j | 0 <= j < |rest| :: x.base <= rest[j].base)
    ensures Ascending([x] + rest)
  {
  }

  lemma {:induction false} InsertSorted(a: Area, sorted: seq<Area>)
    requires Ascending(sorted)
    ensures Ascending(Insert(a, sorted)) && multiset(Insert(a, sorted)) == multiset(sorted) + multiset{a}
    decreases |sorted|
  {
    InsertMultiset(a, sorted);
    if sorted != [] && a.base > sorted[0].base {
      var rest := Insert(a, sorted[1..]);
      InsertSorted(a, sorted[1..]);
      InsertElements(a, sorted[1..], rest);
      assert forall b :: b in sorted[1..] ==> sorted[0].base <= b.base;
      AscendingCons(sorted[0], rest);
    } else {
      AscendingCons(a, sorted);
    }
  }

  lemma {:induction false} SortSorts(areas: seq<Area>)
    ensures Ascending(Sort(areas)) && multiset(Sort(areas)) == multiset(areas)
    decreases |areas|
  {
    if areas != [] {
      SortSorts(areas[1..]);
      InsertSorted(areas[0], Sort(areas[1..]));
      assert areas == [areas[0]] + areas[1..];
    }
  }

  predicate Separate(a: Area, b: Area) {
    a.End() < b.base || b.End() < a.base
  }

  lemma ApartCons(a: Area, rest: seq<Area>)
    requires Apart(rest) && a.size > 0 && (forall i | 0 <= i < |rest| :: Separate(a, rest[i]))
    ensures Apart([a] + rest)
  {
    var all := [a] + rest;
    forall i, j | 0 <= i < |all| && 0 <= j < |all| && i != j
      ensures Separate(all[i], all[j])
    {
      if i > 0 && j > 0 {
        assert Separate(rest[i - 1], rest[j - 1]);
      }
    }
  }

  lemma ApartTail(areas: seq<Area>)
    requires Apart(areas) && areas != []
    ensures Apart(areas[1..]) && areas[0].size > 0 && (forall a :: a in areas[1..] ==> Separate(areas[0], a))
  {
  }

  lemma InsertElements(a: Area, tail: seq<Area>, rest: seq<Area>)
    requires multiset(rest) == multiset(tail) + multiset{a}
    ensures forall j | 0 <= j < |rest| :: rest[j] == a || rest[j] in tail
  {
    forall j | 0 <= j < |rest|
      ensures rest[j] == a || rest[j] in tail
    {
      assert rest[j] in multiset(rest);
    }
  }

  /** Inserting rearranges areas that do not touch. */
  lemma {:induction false} InsertApart(a: Area, sorted: seq<Area>)
    requires Apart(sorted) && a.size > 0 && (forall i | 0 <= i < |sorted| :: Separate(a, sorted[i]))
    ensures Apart(Insert(a, sorted))
    decreases |sorted|
  {
    hide Apart, Separate;
    if sorted != [] && a.base > sorted[0].base {
      var rest := Insert(a, sorted[1..]);
      ApartTail(sorted);
      InsertApart(a, sorted[1..]);
      InsertMultiset(a, sorted[1..]);
      InsertElements(a, sorted[1..], rest);
      SeparateBoth(a, sorted[0]);
      ApartCons(sorted[0], rest);
    } else {
      ApartCons(a, sorted);
    }
  }

  lemma SeparateBoth(a: Area, b: Area)
    requires Separate(a, b)
    ensures Separate(b, a)
  {
  }

  lemma {:induction false} SortApart(areas: seq<Area>)
    requires Apart(areas)
    ensures Apart(Sort(areas))
    decreases |areas|
  {
    if areas != [] {
      var sorted := Sort(areas[1..]);
      ApartTail(areas);
      SortApart(areas[1..]);
      SortSorts(areas[1..]);
      Elements(sorted, areas[1..]);
      InsertApart(areas[0], sorted);
    }
  }

  lemma Elements(a: seq<Area>, b: seq<Area>)
    requires multiset(a) == multiset(b)
    ensures forall i | 0 <= i < |a| :: a[i] in b
  {
    forall i | 0 <= i < |a|
      ensures a[i] in b
    {
      assert a[i] in multiset(a);
    }
  }

  lemma SameCover(a: seq<Area>, b: seq<Area>, x: nat)
    requires forall i | 0 <= i < |a| :: a[i] in b
    ensures Covered(a, x) ==> Covered(b, x)
  {
    if Covered(a, x) {
      var i :| 0 <= i < |a| && a[i].Has(x);
      var j :| 0 <= j < |b| && b[j] == a[i];
      assert b[j].Has(x);
    }
  }

  /** Sorting changes neither what the areas cover nor that they are apart and on pages. */
  lemma SortKeeps(areas: seq<Area>)
    requires Apart(areas) && WholePages(areas)
    ensures Apart(Sort(areas)) && WholePages(Sort(areas)) && Ascending(Sort(areas))
    ensures forall x: nat :: Covered(Sort(areas), x) <==> Covered(areas, x)
  {
    var sorted := Sort(areas);
    SortSorts(areas);
    SortApart(areas);
    Elements(areas, sorted);
    Elements(sorted, areas);
    hide Sort, Covered;
    forall x: nat
      ensures Covered(sorted, x) <==> Covered(areas, x)
    {
      SameCover(areas, sorted, x);
      SameCover(sorted, areas, x);
    }
  }

  // ----- frames -----

  function FramesOf(a: Area): Section {
    Section(a.base / PAGE_SIZE, a.size / PAGE_SIZE)
  }

  function InFrames(areas: seq<Area>): (r: seq<Section>)
    ensures |r| == |areas| && forall i | 0 <= i < |areas| :: r[i] == FramesOf(areas[i])
  {
    seq(|areas|, i requires 0 <= i < |areas| => FramesOf(areas[i]))
  }

  /** A byte is in an area of whole pages exactly if its frame is. */
  lemma FrameOfByte(a: Area, x: nat)
    requires OnPage(a.base) && OnPage(a.End())
    ensures var s := FramesOf(a); a.Has(x) <==> s.base <= x / PAGE_SIZE < s.base + s.len
    ensures FramesOf(a).base * PAGE_SIZE == a.base && FramesOf(a).len * PAGE_SIZE == a.size
  {
  }

  lemma CoverInFrames(areas: seq<Area>, x: nat)
    requires WholePages(areas)
    ensures Covered(areas, x) <==> InSection(InFrames(areas), x / PAGE_SIZE)
  {
    hide OnPage, FramesOf;
    var ss := InFrames(areas);
    if Covered(areas, x) {
      var i :| 0 <= i < |areas| && areas[i].Has(x);
      FrameOfByte(areas[i], x);
      assert ss[i].base <= x / PAGE_SIZE < ss[i].base + ss[i].len;
    }
    if InSection(ss, x / PAGE_SIZE) {
      var i :| 0 <= i < |ss| && ss[i].base <= x / PAGE_SIZE < ss[i].base + ss[i].len;
      FrameOfByte(areas[i], x);
    }
  }

  lemma SortedAreas(areas: seq<Area>)
    requires Apart(areas) && WholePages(areas) && Ascending(areas)
    ensures Areas(InFrames(areas))
  {
    hide OnPage, FramesOf;
    var ss := InFrames(areas);
    forall i, j | 0 <= i < j < |ss|
      ensures ss[i].base + ss[i].len <= ss[j].base
    {
      FrameOfByte(areas[i], 0);
      FrameOfByte(areas[j], 0);
      assert areas[i].base <= areas[j].base;
      assert Separate(areas[i], areas[j]);
    }
  }

  // ----- the whole way -----

  lemma ZeroIsLowest(all: set<nat>, rest: set<nat>, n: nat)
    requires WithoutLowest(all, rest, n)
    ensures 0 in rest <==> n == 0 && 0 in all
  {
    if n > 0 {
      var u :| u in all - rest;
    } else {
      assert all - rest == {};
      assert forall p :: p in all ==> p in rest;
    }
  }

  /** From the memory map to the frame allocator, when the page tables made on the way take `tables`
      frames. `areas` are the frames of the usable memory: free, within the limits and reserved by
      nothing. The allocator owns them, the lowest `tables` excepted. It holds nothing free that the
      bump allocator used, and every block that begins above. */
  method StartAllocator(registered: MemoryMap, limit: Entry, tables: nat) returns (r: BootResult, ghost areas: seq<Section>)
    requires registered.Valid() && OnPages(limit) && limit.end <= USIZE_MAX
    ensures Areas(areas)
    ensures forall x: nat :: x / PAGE_SIZE in Pages(areas) <==> Usable(registered.Contents(), limit, |registered.Contents()|, x)
    // the panic on frame 0 needs that no frame was taken before
    ensures r.ZeroFrame? <==> tables == 0 && 0 in Pages(areas) && Take(areas, ArrayPages(areas)).Some?
    // otherwise boot succeeds exactly when there is room for tables and arrays
    ensures r.Started? <==>
            && TakeEach(areas, tables).Some? && !(tables == 0 && 0 in Pages(areas))
            && Serve(TakeEach(areas, tables).value, Requests(TakeEach(areas, tables).value)).Some?
    ensures r.Started? ==>
              var a := r.allocator;
              var left := Serve(TakeEach(areas, tables).value, Requests(TakeEach(areas, tables).value)).value;
              && fresh(a) && a.Valid() && a.usedFrames == 0
              && WithoutLowest(Pages(areas), a.infos.Keys, tables)
              && left != [] && Fresh(a.tiling, left[0].base)
              && PagesOf(a.tiling, Status.Free) <= Pages(left)
  {
    var table := new AreaTable(registered, limit.start);
    table.AddFree(limit);
    var found := table.areas[..table.count];
    ghost var entries := registered.Contents();
    SortKeeps(found);
    var sorted := Sort(found);
    hide Usable, Covered, Apart, WholePages, Ascending, InSection, Pages, Sort, OnPage, OnPages, Areas, WithoutLowest, Fresh, PagesOf,
         Take, TakeEach, Serve, Requests, ArrayPages;
    SortedAreas(sorted);
    areas := InFrames(sorted);
    forall x: nat
      ensures x / PAGE_SIZE in Pages(areas) <==> Usable(entries, limit, |entries|, x)
    {
      CoverInFrames(sorted, x);
    }
    var bump := new BumpAllocator(InFrames(sorted));
    TakeEachFacts(areas, tables);
    var ok := bump.TakeTables(tables);
    if !ok {
      NoneTaken(areas);
      return NoMemory, areas;
    }
    ZeroIsLowest(Pages(areas), Pages(bump.free), tables);
    NoneTaken(areas);
    r := InitFromBump(bump);
  }

  lemma NoneTaken(areas: seq<Section>)
    ensures TakeEach(areas, 0) == Some(areas)
  {
  }
}
