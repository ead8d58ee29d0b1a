/**
 The fixed array of areas, updated in place by `add_memory` and `init` (src/startup/memory.rs).
 */
module BootTable {
  import opened Common
  import opened BootMap
  import opened BootAreas

  /** What a part of the area adds: the addresses of `area` that nothing reserves. */
  ghost predicate Adds(entries: seq<Entry>, before: seq<Area>, after: seq<Area>, area: Entry) {
    forall x: nat :: Covered(after, x) <==> Covered(before, x) || (area.Has(x) && !IsReserved(entries, x))
  }

  /** While the reservations are gone through: what is outside `rest` is done with. */
  ghost predicate AddsBut(entries: seq<Entry>, before: seq<Area>, now: seq<Area>, area: Entry, rest: Entry) {
    && area.start <= rest.start && rest.end <= area.end
    && forall x: nat :: Covered(now, x) <==> Covered(before, x) || (area.Has(x) && !rest.Has(x) && !IsReserved(entries, x))
  }

  lemma AddsNothingYet(entries: seq<Entry>, areas: seq<Area>, area: Entry)
    ensures AddsBut(entries, areas, areas, area, area)
  {
  }

  /** Shrinking by reserved addresses only. */
  lemma AddsShrink(entries: seq<Entry>, before: seq<Area>, now: seq<Area>, area: Entry, rest: Entry, rest1: Entry)
    requires AddsBut(entries, before, now, area, rest) && rest.start <= rest1.start && rest1.end <= rest.end
    requires forall x: nat :: rest.Has(x) && !rest1.Has(x) ==> IsReserved(entries, x)
    ensures AddsBut(entries, before, now, area, rest1)
  {
    hide IsReserved, Covered;
  }

  /** Splitting off a first part that has been added, up to a reservation. */
  lemma AddsSplit(entries: seq<Entry>, before: seq<Area>, now: seq<Area>, now1: seq<Area>, area: Entry, rest: Entry, first: Entry, rest1: Entry)
    requires AddsBut(entries, before, now, area, rest) && Adds(entries, now, now1, first)
    requires rest.start == first.start && first.end <= rest1.start <= rest1.end == rest.end && first.start <= first.end
    requires forall x: nat :: first.end <= x < rest1.start ==> IsReserved(entries, x)
    ensures AddsBut(entries, before, now1, area, rest1)
  {
    hide IsReserved, Covered;
    forall x: nat
      ensures Covered(now1, x) <==> Covered(before, x) || (area.Has(x) && !rest1.Has(x) && !IsReserved(entries, x))
    {
    }
  }

  /** Nothing is left, or what is left is reserved nowhere and has been appended. */
  lemma AddsDone(entries: seq<Entry>, before: seq<Area>, now: seq<Area>, area: Entry, rest: Entry)
    requires AddsBut(entries, before, now, area, rest) && rest.start >= rest.end
    ensures Adds(entries, before, now, area)
  {
    hide IsReserved, Covered;
  }

  lemma AddsLast(entries: seq<Entry>, before: seq<Area>, now: seq<Area>, now1: seq<Area>, area: Entry, rest: Entry)
    requires AddsBut(entries, before, now, area, rest) && ClearOf(rest, entries, |entries|)
    requires forall x: nat :: Covered(now1, x) <==> Covered(now, x) || rest.Has(x)
    ensures Adds(entries, before, now1, area)
  {
    forall x: nat | rest.Has(x)
      ensures !IsReserved(entries, x)
    {
    }
    hide IsReserved, Covered;
  }

  lemma ReservedHere(entries: seq<Entry>, i: nat)
    requires i < |entries| && !entries[i].kind.Free?
    ensures forall x: nat :: entries[i].Has(x) ==> IsReserved(entries, x)
  {
  }

  /** Free addresses within the limits that nothing reserves. */
  ghost predicate Usable(entries: seq<Entry>, limit: Entry, n: nat, x: nat)
    requires n <= |entries|
  {
    (exists i | 0 <= i < n :: entries[i].kind.Free? && entries[i].Has(x)) && limit.Has(x) && !IsReserved(entries, x)
  }

  lemma UsableNext(entries: seq<Entry>, limit: Entry, n: nat, x: nat)
    requires n < |entries|
    ensures Usable(entries, limit, n + 1, x) <==>
            Usable(entries, limit, n, x)
            || (entries[n].kind.Free? && entries[n].Has(x) && limit.Has(x) && !IsReserved(entries, x))
  {
    hide IsReserved;
  }

  class AreaTable {
    const areas: array<Area>
    var count: nat
    const registered: MemoryMap
    /** The lower physical limit. */
    const low: nat

    ghost predicate Valid()
      reads this, areas, registered, registered.entries
    {
      && registered.Valid() && areas.Length == SLOTS && count <= SLOTS
      && Apart(areas[..count]) && InRange(areas[..count]) && WholePages(areas[..count])
      && StartsFrom(areas[..count], Starts(registered.Contents(), low))
    }

    constructor (registered: MemoryMap, low: nat)
      requires registered.Valid()
      ensures Valid() && this.registered == registered && this.low == low && fresh(areas) && count == 0
    {
      this.registered, this.low := registered, low;
      areas := new Area[SLOTS](_ => Area(0, 0));
      count := 0;
    }

    /** The merging loop: absorbs every area that touches, then appends. There is always a slot. */
    method AppendMerged(area0: Entry)
      requires Valid() && OnPages(area0) && area0.start < area0.end <= USIZE_MAX && area0.start in Starts(registered.Contents(), low)
      modifies this`count, areas
      ensures Valid()
      ensures forall x: nat :: Covered(areas[..count], x) <==> Covered(old(areas[..count]), x) || area0.Has(x)
    {
      hide Covered, Starts, Apart, InRange, StartsFrom, WholePages, NoTouch, Touch, OnPage, SwapDelete;
      var area, i := area0, 0;
      ghost var before := areas[..count];
      ghost var starts := Starts(registered.Contents(), low);
      assert NoTouch(area, before, 0) by { NothingTouched(area, before); }
      while i < count
        invariant Valid() && i <= count
        invariant area.start < area.end <= USIZE_MAX && area.start in starts && OnPages(area)
        invariant NoTouch(area, areas[..count], i)
        invariant forall x: nat :: Covered(areas[..count], x) || area.Has(x) <==> Covered(before, x) || area0.Has(x)
        decreases count - i
      {
        ghost var now := areas[..count];
        var other := AsEntry(areas[i]);
        var union := Combine(area, other);
        if union.Some? {
          MergeOne(now, i, area);
          MergedOnPages(now, i, area, union.value);
          SwapDeleteKeeps(now, i);
          StartsAfterDelete(now, i, starts);
          BaseIn(now, i, starts);
          area := union.value;
          count := count - 1;
          areas[i] := areas[count];
          assert areas[..count] == SwapDelete(now, i) by { Deleted(now, i, areas[..count]); }
        } else {
          NotTouched(now, i, area);
          i := i + 1;
        }
      }
      ghost var now := areas[..count];
      AppendArea(now, area);
      AppendRest(now, area, starts);
      ghost var all := now + [Area(area.start, area.end - area.start)];
      FewAreas(all, starts);
      areas[count] := Area(area.start, area.end - area.start);
      count := count + 1;
      assert areas[..count] == all;
    }

    /** `add_memory` */
    method AddMemory(area0: Entry)
      requires Valid() && OnPages(area0) && area0.start < area0.end <= USIZE_MAX && area0.start in Starts(registered.Contents(), low)
      modifies this`count, areas
      ensures Valid()
      ensures Adds(registered.Contents(), old(areas[..count]), areas[..count], area0)
      decreases area0.end - area0.start
    {
      hide Covered, Starts, IsReserved, Adds, AddsBut, Apart, InRange, StartsFrom, WholePages, OnPage;
      var area, i := area0, 0;
      ghost var entries, before := registered.Contents(), areas[..count];
      AddsNothingYet(entries, before, area);
      while i < registered.size
        invariant Valid() && 0 <= i <= registered.size
        invariant area0.start <= area.start < area.end <= area0.end && area.start in Starts(entries, low) && OnPages(area)
        invariant ClearOf(area, entries, i)
        invariant AddsBut(entries, before, areas[..count], area0, area)
      {
        var reservation := registered.entries[i];
        if !reservation.kind.Free? {
          assert entries[i] == reservation;
          ReservedHere(entries, i);
          InStarts(entries, low, i);
          if area.end > reservation.start && area.end <= reservation.end {
            AddsShrink(entries, before, areas[..count], area0, area, area.(end := reservation.start));
            area := area.(end := reservation.start);
          }
          if area.start >= area.end {
            AddsDone(entries, before, areas[..count], area0, area);
            return;
          }
          if area.start >= reservation.start && area.start < reservation.end {
            AddsShrink(entries, before, areas[..count], area0, area, area.(start := reservation.end));
            area := area.(start := reservation.end);
          }
          // the second test for emptiness in the code never fires
          assert area.start < area.end;
          if area.start <= reservation.start && area.end > reservation.start {
            assert area.start < reservation.start && reservation.end < area.end;
            ghost var now := areas[..count];
            var first := area.(end := reservation.start);
            AddMemory(first);
            AddsSplit(entries, before, now, areas[..count], area0, area, first, area.(start := reservation.end));
            area := area.(start := reservation.end);
          }
        }
        i := i + 1;
      }
      ghost var now := areas[..count];
      AppendMerged(area);
      AddsLast(entries, before, now, areas[..count], area0, area);
    }

    /** The loop of `init` over the free entries. */
    method AddFree(limit: Entry)
      requires Valid() && count == 0 && limit.start == low && limit.end <= USIZE_MAX && OnPages(limit)
      modifies this`count, areas
      ensures Valid()
      // exactly the free memory within the limits that no other entry reserves
      ensures forall x: nat :: Covered(areas[..count], x) <==> Usable(registered.Contents(), limit, |registered.Contents()|, x)
    {
      hide Covered, Starts, IsReserved, Apart, InRange, StartsFrom, Usable, WholePages, OnPage;
      ghost var entries := registered.Contents();
      var i := 0;
      NothingYet(entries, limit);
      assert areas[..count] == [];
      while i < registered.size
        invariant Valid() && 0 <= i <= registered.size
        invariant forall x: nat :: Covered(areas[..count], x) <==> Usable(entries, limit, i, x)
      {
        var e := registered.entries[i];
        assert entries[i] == e;
        ghost var before := areas[..count];
        if e.kind.Free? {
          var clipped := Intersect(e, limit);
          if clipped.Some? {
            InStarts(entries, low, i);
            ClippedStart(e, limit);
            AddMemory(clipped.value);
          }
        }
        forall x: nat
          ensures Covered(areas[..count], x) <==> Usable(entries, limit, i + 1, x)
        {
          UsableNext(entries, limit, i, x);
        }
        i := i + 1;
      }
    }
  }

  lemma NothingTouched(area: Entry, areas: seq<Area>)
    ensures NoTouch(area, areas, 0)
  {
  }

  lemma Deleted(now: seq<Area>, k: nat, rest: seq<Area>)
    requires k < |now| && |rest| == |now| - 1
    requires forall i | 0 <= i < |rest| :: rest[i] == if i == k then now[|now| - 1] else now[i]
    ensures rest == SwapDelete(now, k)
  {
  }

  lemma NothingYet(entries: seq<Entry>, limit: Entry)
    ensures forall x: nat :: !Covered([], x) && !Usable(entries, limit, 0, x)
  {
  }

  lemma ClippedStart(e: Entry, limit: Entry)
    requires Intersect(e, limit).Some? && e.kind.Free?
    ensures var r := Intersect(e, limit).value;
            r.start < r.end <= limit.end && r.start == StartOf(e, limit.start)
  {
  }
}
