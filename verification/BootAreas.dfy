/**
 `add_memory` and the loop over the free entries (src/startup/memory.rs).
 */
module BootAreas {
  import opened Common
  import opened BootMap

  // ----- what the areas cover -----

  ghost predicate Covered(areas: seq<Area>, x: nat) {
    exists i | 0 <= i < |areas| :: areas[i].Has(x)
  }

  /** Pairwise disjoint and not even touching. */
  ghost predicate Apart(areas: seq<Area>) {
    && (forall i | 0 <= i < |areas| :: areas[i].size > 0)
    && (forall i, j | 0 <= i < |areas| && 0 <= j < |areas| && i != j :: areas[i].End() < areas[j].base || areas[j].End() < areas[i].base)
  }

  /** The address lies in an entry that is not free. */
  ghost predicate IsReserved(entries: seq<Entry>, x: nat) {
    exists i | 0 <= i < |entries| :: !entries[i].kind.Free? && entries[i].Has(x)
  }

  /** No entry before the `n`th reserves any of `area`. */
  ghost predicate ClearOf(area: Entry, entries: seq<Entry>, n: nat)
    requires n <= |entries|
  {
    forall i | 0 <= i < n && !entries[i].kind.Free? :: area.end <= entries[i].start || entries[i].end <= area.start
  }

  // ----- where areas can start -----

  /** The one place an entry can make an area start: a free one at its clipped start, another at its end. */
  function StartOf(e: Entry, low: nat): nat {
    if e.kind.Free? then Max(e.start, low) else e.end
  }

  function Starts(entries: seq<Entry>, low: nat): (s: set<nat>)
    ensures |s| <= |entries|
  {
    if entries == [] then {} else Starts(entries[..|entries| - 1], low) + {StartOf(entries[|entries| - 1], low)}
  }

  lemma {:induction false} InStarts(entries: seq<Entry>, low: nat, i: nat)
    requires i < |entries|
    ensures StartOf(entries[i], low) in Starts(entries, low)
    decreases |entries|
  {
    if i < |entries| - 1 {
      InStarts(entries[..|entries| - 1], low, i);
    }
  }

  ghost predicate StartsFrom(areas: seq<Area>, starts: set<nat>) {
    forall i | 0 <= i < |areas| :: areas[i].base in starts
  }

  /** Areas that do not touch have different starts, so there are no more of them than entries. */
  lemma {:induction false} FewAreas(areas: seq<Area>, starts: set<nat>)
    requires Apart(areas) && StartsFrom(areas, starts)
    ensures |areas| <= |starts|
    decreases |areas|
  {
    if areas != [] {
      var n := |areas| - 1;
      var rest := areas[..n];
      assert StartsFrom(rest, starts - {areas[n].base}) by {
        forall i | 0 <= i < n
          ensures rest[i].base != areas[n].base
        {
          assert rest[i] == areas[i];
        }
      }
      FewAreas(rest, starts - {areas[n].base});
    }
  }

  // ----- merging -----

  function AsEntry(a: Area): Entry {
    Entry(a.base, SaturatingAdd(a.base, a.size), Free)
  }

  ghost predicate InRange(areas: seq<Area>) {
    forall i | 0 <= i < |areas| :: areas[i].End() <= USIZE_MAX
  }

  ghost predicate WholePages(areas: seq<Area>) {
    forall i | 0 <= i < |areas| :: OnPage(areas[i].base) && OnPage(areas[i].End())
  }

  ghost predicate NoTouch(area: Entry, areas: seq<Area>, n: nat)
    requires n <= |areas|
  {
    forall i | 0 <= i < n :: areas[i].End() < area.start || area.end < areas[i].base
  }

  /** Swap-delete: element `k` goes, and the last takes its place. */
  function SwapDelete(areas: seq<Area>, k: nat): seq<Area>
    requires k < |areas|
  {
    areas[k := areas[|areas| - 1]][..|areas| - 1]
  }

  lemma SwapDeleteKeeps(areas: seq<Area>, k: nat)
    requires k < |areas| && Apart(areas)
    ensures Apart(SwapDelete(areas, k))
    ensures forall x :: Covered(areas, x) <==> Covered(SwapDelete(areas, k), x) || areas[k].Has(x)
  {
    var n := |areas| - 1;
    var rest := SwapDelete(areas, k);
    assert forall i | 0 <= i < n :: rest[i] == if i == k then areas[n] else areas[i];
    forall x: nat | Covered(areas, x)
      ensures Covered(rest, x) || areas[k].Has(x)
    {
      var i :| 0 <= i < |areas| && areas[i].Has(x);
      if i == n && k < n {
        assert rest[k].Has(x);
      } else if i != k {
        assert rest[i].Has(x);
      }
    }
    forall x: nat | Covered(rest, x)
      ensures Covered(areas, x)
    {
      var i :| 0 <= i < |rest| && rest[i].Has(x);
      assert areas[if i == k then n else i].Has(x);
    }
  }

  /** Merging with one area keeps clear of those already passed. */
  lemma MergeOne(areas: seq<Area>, k: nat, area: Entry)
    requires k < |areas| && Apart(areas) && InRange(areas) && NoTouch(area, areas, k) && area.start < area.end
    requires Touch(area, AsEntry(areas[k]))
    ensures var merged := Combine(area, AsEntry(areas[k])).value;
            var rest := SwapDelete(areas, k);
            && merged.start < merged.end
            && (forall x :: merged.Has(x) <==> area.Has(x) || areas[k].Has(x))
            && (merged.start == area.start || merged.start == areas[k].base)
            && (merged.end == area.end || merged.end == areas[k].End())
            && InRange(rest) && NoTouch(merged, rest, k)
  {
    var rest := SwapDelete(areas, k);
    assert forall i | 0 <= i < |rest| :: rest[i] == if i == k then areas[|areas| - 1] else areas[i];
  }

  lemma StartsAfterDelete(areas: seq<Area>, k: nat, starts: set<nat>)
    requires k < |areas| && StartsFrom(areas, starts)
    ensures StartsFrom(SwapDelete(areas, k), starts)
    ensures WholePages(areas) ==> WholePages(SwapDelete(areas, k))
  {
  }

  lemma NotTouched(areas: seq<Area>, k: nat, area: Entry)
    requires k < |areas| && InRange(areas) && NoTouch(area, areas, k) && !Touch(area, AsEntry(areas[k]))
    ensures NoTouch(area, areas, k + 1)
  {
  }

  lemma MergedOnPages(areas: seq<Area>, k: nat, area: Entry, merged: Entry)
    requires k < |areas| && WholePages(areas) && OnPages(area) && InRange(areas)
    requires merged.start == area.start || merged.start == areas[k].base
    requires merged.end == area.end || merged.end == areas[k].End()
    ensures OnPages(merged) && (area.end <= USIZE_MAX ==> merged.end <= USIZE_MAX)
  {
  }

  lemma AppendRest(areas: seq<Area>, area: Entry, starts: set<nat>)
    requires InRange(areas) && StartsFrom(areas, starts) && WholePages(areas)
    requires area.start < area.end <= USIZE_MAX && area.start in starts && OnPages(area)
    ensures var all := areas + [Area(area.start, area.end - area.start)];
            InRange(all) && StartsFrom(all, starts) && WholePages(all)
  {
  }

  lemma BaseIn(areas: seq<Area>, k: nat, starts: set<nat>)
    requires k < |areas| && StartsFrom(areas, starts)
    ensures areas[k].base in starts
  {
  }

  /** Appending an area that touches none. */
  lemma AppendArea(areas: seq<Area>, area: Entry)
    requires Apart(areas) && NoTouch(area, areas, |areas|) && area.start < area.end
    ensures var all := areas + [Area(area.start, area.end - area.start)];
            && Apart(all)
            && (forall x :: Covered(all, x) <==> Covered(areas, x) || area.Has(x))
  {
    var all := areas + [Area(area.start, area.end - area.start)];
    forall x: nat
      ensures Covered(all, x) <==> Covered(areas, x) || area.Has(x)
    {
      if Covered(areas, x) {
        var i :| 0 <= i < |areas| && areas[i].Has(x);
        assert all[i].Has(x);
      }
      if area.Has(x) {
        assert all[|areas|].Has(x);
      }
    }
  }
}
