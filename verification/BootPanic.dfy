/**
 Memory from which the first block that is freed makes the frame allocator panic (src/memory/mod.rs):
 it reaches below the size of a block, and the buddy of that block is at frame 0.
 */
module BootPanic {
  import opened Common
  import opened BuddyMath
  import opened BuddyTiling
  import opened BuddyOps
  import opened BuddyAllocator
  import opened BuddyBoot
  import opened BuddySections
  import opened BootBump

  // ----- one area -----

  lemma TakeFromOne(b: nat, len: nat, n: nat)
    requires n <= len
    ensures BootBump.Take([Section(b, len)], n) == Some((b, [Section(b + n, len - n)]))
  {
    assert [Section(b, len)][1..] == [];
    assert [Section(b + n, len - n)] + [] == [Section(b + n, len - n)];
  }

  lemma {:induction false} TablesOfOne(b: nat, len: nat, n: nat)
    requires n <= len
    ensures TakeEach([Section(b, len)], n) == Some([Section(b + n, len - n)])
    decreases n
  {
    if n > 0 {
      TakeFromOne(b, len, 1);
      TablesOfOne(b + 1, len - 1, n - 1);
    }
  }

  lemma OneArea(b: nat, len: nat)
    ensures Areas([Section(b, len)]) && Pages([Section(b, len)]) == Range(b, len)
  {
    var ss := [Section(b, len)];
    assert forall p: nat :: InSection(ss, p) <==> b <= p < b + len by {
      assert ss[0] == Section(b, len);
    }
  }

  /** A small area needs one page for the section array, and the pages of its infos. */
  lemma OneServed(b: nat, len: nat)
    requires 0 < len && b + len <= MAX_SECTION_PAGE_COUNT && 1 + InfoPages(Section(b, len)) <= len
    ensures var n := 1 + InfoPages(Section(b, len));
            Serve([Section(b, len)], Requests([Section(b, len)])) == Some([Section(b + n, len - n)])
  {
    var area := [Section(b, len)];
    var infos := InfoPages(Section(b, len));
    assert area[1..] == [];
    assert SectionsOf(area) == CutAt(b, len) == area by {
      assert CutAt(b + len, 0) == [];
      assert Piece(b, len) == len;
    }
    assert MaxSections(area) == SlotsFor(area[0]) + MaxSections([]) == 1;
    assert InfoRequests(area) == [infos];
    assert Requests(area) == [1, infos];
    ServeTwo(b, len, infos);
  }

  lemma ServeTwo(b: nat, len: nat, n: nat)
    requires 1 + n <= len
    ensures Serve([Section(b, len)], [1, n]) == Some([Section(b + (1 + n), len - (1 + n))])
  {
    var first := [Section(b + 1, len - 1)];
    TakeFromOne(b, len, 1);
    TakeFromOne(b + 1, len - 1, n);
    assert [1, n][1..] == [n] && [n][1..] == [];
    assert Serve(first, [n]) == Serve([Section(b + 1 + n, len - 1 - n)], []);
  }

  // ----- its upper half -----

  /** The frames from `b` up to twice the size of a block are tiled. */
  ghost predicate Low(t: Tiling, b: nat, k: nat) {
    0 < b <= Pow2(k) && Good(t, Range(b, 2 * Pow2(k) - b))
  }

  /** A block that reaches into the upper half does not begin below it. */
  lemma UpperHead(t: Tiling, b: nat, k: nat, f: nat, p: nat)
    requires Low(t, b, k) && HeadOf(t, f, p) && Pow2(k) <= p < 2 * Pow2(k)
    ensures Pow2(k) <= f
  {
    hide Pow2, Aligned, Maximal;
    var j := t[f].order;
    Pow2Aligned(k);
    Pow2Positive(j);
    assert f in Run(f, j) && f + Pow2(j) - 1 in Run(f, j);
    if j > k {
      Pow2Grows(k, j);
    } else if f < Pow2(k) {
      Nested(f, j, Pow2(k), k);
    }
  }

  lemma {:induction false} AlignedLow(f: nat, j: nat)
    requires Aligned(f, j) && f < Pow2(j)
    ensures f == 0
    decreases j
  {
    if j > 0 {
      AlignedLow(f / 2, j - 1);
    }
  }

  lemma LowHead(t: Tiling, b: nat, k: nat, p: nat) returns (f: nat)
    requires Low(t, b, k) && b <= p < 2 * Pow2(k)
    ensures HeadOf(t, f, p)
  {
    hide Pow2, HeadOf;
    assert p in Range(b, 2 * Pow2(k) - b);
    f :| HeadOf(t, f, p);
  }

  lemma FreeFrom(t: Tiling, absOff: nat, f: nat, p: nat)
    requires Fresh(t, absOff) && HeadOf(t, f, p) && absOff <= f
    ensures p in PagesOf(t, Free)
  {
    assert p in Run(f, t[f].order);
  }

  lemma UpperHalfFree(t: Tiling, b: nat, k: nat, absOff: nat)
    requires Low(t, b, k) && absOff <= Pow2(k) && Fresh(t, absOff)
    ensures Aligned(Pow2(k), k) && RunFree(t, Pow2(k), k)
  {
    Pow2Aligned(k);
    assert b <= Pow2(k);
    hide Pow2, Aligned, Low, Fresh, HeadOf, PagesOf;
    forall p | p in Run(Pow2(k), k)
      ensures p in PagesOf(t, Free)
    {
      var f := LowHead(t, b, k, p);
      UpperHead(t, b, k, f, p);
      FreeFrom(t, absOff, f, p);
    }
  }

  /** The only block of its order is the upper half. */
  lemma OnlyUpper(t: Tiling, b: nat, k: nat, f: nat)
    requires Low(t, b, k) && f in t && k <= t[f].order
    ensures f == Pow2(k)
  {
    hide Pow2, Aligned, Maximal;
    var j := t[f].order;
    Pow2Positive(j);
    assert f in Run(f, j) && f + Pow2(j) - 1 in Run(f, j);
    Pow2Grows(k, j);
    AlignedLower(f, k, j);
    Pow2Aligned(k);
    if f < Pow2(k) {
      AlignedLow(f, k);
    } else if f < 2 * Pow2(k) {
      Nested(Pow2(k), k, f, k);
    }
  }

  lemma UpperMeetsZero(t: Tiling, k: nat)
    requires k < MAX_ORDER && Pow2(k) in t && t[Pow2(k)].order == k
    ensures MeetsFrameZero(t, Pow2(k))
  {
    Pow2Positive(k);
    assert InRun(Pow2(k), Pow2(k), k);
    assert Run(Pow2(k), k) <= PagesOf(t, Free) + Run(Pow2(k), k);
  }

  // ----- boot -----

  /** Where the bump allocator ends up: past `tables` page tables, the section array and the infos. */
  function Used(b: nat, k: nat, tables: nat): nat
    requires b + tables <= 2 * Pow2(k)
  {
    b + tables + 1 + InfoPages(Section(b + tables, 2 * Pow2(k) - b - tables))
  }

  lemma SmallOrder(k: nat)
    requires k < MAX_ORDER
    ensures 0 < 2 * Pow2(k) <= MAX_SECTION_PAGE_COUNT
  {
    Pow2Positive(k);
    Pow2Grows(k, MAX_ORDER);
    Pow2Ten();
  }

  lemma ZeroBelow(b: nat, len: nat)
    requires 0 < b
    ensures 0 !in Range(b, len)
  {
  }

  lemma IsLow(t: Tiling, b: nat, k: nat)
    requires 0 < b <= Pow2(k) && Good(t, Range(b, 2 * Pow2(k) - b))
    ensures Low(t, b, k)
  {
  }

  /** Boot with the frames from `b` up to twice the size of a block. */
  method BootLow(b: nat, k: nat, tables: nat) returns (a: FrameAllocator)
    requires 0 < b && k < MAX_ORDER && b + tables <= Pow2(k) && Used(b, k, tables) <= Pow2(k)
    ensures fresh(a) && a.Valid() && Low(a.tiling, b + tables, k) && Fresh(a.tiling, Used(b, k, tables))
    ensures a.infos.Keys == Range(b + tables, 2 * Pow2(k) - b - tables)
  {
    hide Pow2, Range, PagesOf, Good, Pages, Fresh, Areas, TakeEach, Serve, Requests, InfoPages, BootBump.Take, WithoutLowest, Low;
    SmallOrder(k);
    var len := 2 * Pow2(k) - b;
    ghost var first, left := b + tables, len - tables;
    OneArea(b, len);
    TablesOfOne(b, len, tables);
    TakeEachFacts([Section(b, len)], tables);
    var bump := new BumpAllocator([Section(b, len)]);
    var ok := bump.TakeTables(tables);
    assert bump.free == [Section(first, left)];
    OneArea(first, left);
    OneServed(first, left);
    ZeroBelow(first, left);
    var r := InitFromBump(bump);
    assert bump.free[0].base == Used(b, k, tables);
    a := r.allocator;
    IsLow(a.tiling, first, k);
  }

  /** The page tables and the arrays leave the upper half: its block is handed out, and freeing it
      panics. For every order below the largest that leaves room for the arrays. */
  method LowBlockPanics(b: nat, k: nat, tables: nat) returns (panicked: bool)
    requires 0 < b && k < MAX_ORDER && b + tables <= Pow2(k) && Used(b, k, tables) <= Pow2(k)
    ensures panicked
  {
    hide Pow2, Aligned, Range, Run, PagesOf, Good, Low, Fresh, AllocTiling, RunFree, MeetsFrameZero, Used;
    var a := BootLow(b, k, tables);
    ghost var t := a.tiling;
    UpperHalfFree(t, b + tables, k, Used(b, k, tables));
    var f := a.Allocate(k);
    OnlyUpper(t, b + tables, k, f.value);
    AllocKeeps(t, a.infos.Keys, f.value, k);
    UpperMeetsZero(a.tiling, k);
    panicked := a.Deallocate(f.value, k);
  }
}
