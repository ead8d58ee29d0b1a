/**
 The boot memory map (src/startup/memory.rs): free regions minus reservations, computed in place in
 a fixed array of areas.
 */
module BootMap {
  import opened Common

  const USIZE_MAX: nat := 0xFFFF_FFFF_FFFF_FFFF
  const SLOTS: nat := 512

  datatype Kind = Null | Free | Reclaim | Reserved | Kernel | Device | IdentityMap

  /** Addresses [start, end). */
  datatype Entry = Entry(start: nat, end: nat, kind: Kind) {
    predicate Has(x: nat) {
      start <= x < end
    }
  }

  datatype Area = Area(base: nat, size: nat) {
    function End(): nat {
      base + size
    }

    predicate Has(x: nat) {
      base <= x < base + size
    }
  }

  function SaturatingAdd(x: nat, y: nat): nat {
    Min(x + y, USIZE_MAX)
  }

  function AlignUp(x: nat): nat {
    SaturatingAdd(x, PAGE_SIZE - 1) / PAGE_SIZE * PAGE_SIZE
  }

  function AlignDown(x: nat): nat {
    x / PAGE_SIZE * PAGE_SIZE
  }

  predicate OnPages(e: Entry) {
    OnPage(e.start) && OnPage(e.end)
  }

  /** The last page boundary: nothing above it is ever registered. */
  const TOP: nat := USIZE_MAX / PAGE_SIZE * PAGE_SIZE

  /** Rounding up saturates at the last page boundary instead of overflowing. */
  lemma AlignFacts(x: nat)
    requires x <= USIZE_MAX
    ensures AlignDown(x) <= x < AlignDown(x) + PAGE_SIZE && AlignDown(x) % PAGE_SIZE == 0
    ensures AlignUp(x) % PAGE_SIZE == 0 && AlignUp(x) <= TOP && AlignUp(x) < x + PAGE_SIZE
    ensures AlignUp(x) >= x <==> x <= TOP
  {
  }

  function Intersect(a: Entry, b: Entry): (r: Option<Entry>)
    ensures r.None? <==> forall x :: !(a.Has(x) && b.Has(x))
    ensures r.Some? ==> r.value.kind == a.kind && forall x :: r.value.Has(x) <==> a.Has(x) && b.Has(x)
  {
    var start, end := Max(a.start, b.start), Min(a.end, b.end);
    if start < end then
      assert a.Has(start) && b.Has(start);
      Some(Entry(start, end, a.kind))
    else None
  }

  /** Touching or overlapping. */
  predicate Touch(a: Entry, b: Entry) {
    a.start <= b.end && a.end >= b.start
  }

  function Combine(a: Entry, b: Entry): (r: Option<Entry>)
    ensures r.Some? <==> Touch(a, b)
    ensures r.Some? && a.start < a.end && b.start < b.end ==> forall x :: r.value.Has(x) <==> a.Has(x) || b.Has(x)
  {
    if a.start <= b.end && a.end >= b.start then Some(Entry(Min(a.start, b.start), Max(a.end, b.end), a.kind)) else None
  }

  // ----- registering -----

  class MemoryMap {
    const entries: array<Entry>
    var size: nat

    ghost predicate Valid()
      reads this, entries
    {
      && entries.Length == SLOTS && size <= SLOTS
      && (forall i | 0 <= i < size :: entries[i].start < entries[i].end && OnPages(entries[i]))
    }

    ghost function Contents(): seq<Entry>
      requires Valid()
      reads this, entries
    {
      entries[..size]
    }

    constructor ()
      ensures Valid() && fresh(entries) && Contents() == []
    {
      entries := new Entry[SLOTS](_ => Entry(0, 0, Null));
      size := 0;
    }

    /** Free memory is rounded inwards, everything else outwards; what is then empty is dropped. */
    method Register(base: nat, len: nat, kind: Kind) returns (panicked: bool)
      requires Valid() && base <= USIZE_MAX && len <= USIZE_MAX
      modifies this, entries
      ensures Valid() && (panicked <==> old(size) >= 512)
      ensures panicked ==> Contents() == old(Contents())
      ensures !panicked ==>
                var start := if kind.Free? then AlignUp(base) else AlignDown(base);
                var end := SaturatingAdd(base, len);
                var rounded := if kind.Free? then AlignDown(end) else AlignUp(end);
                Contents() == if start < rounded then old(Contents()) + [Entry(start, rounded, kind)] else old(Contents())
      // a page of a free entry lies wholly inside the region, one of another entry may stick out
      ensures !panicked && size > old(size) ==>
                var e := entries[old(size)];
                && OnPages(e) && e.kind == kind
                && (kind.Free? && base <= TOP ==> base <= e.start && e.end <= base + len)
                && (!kind.Free? ==> e.start <= base && (base + len <= TOP ==> base + len <= e.end) && (base + len > TOP ==> e.end == TOP))
      // and no whole page of a free region is left out
      ensures !panicked && kind.Free? ==>
                forall x: nat :: OnPage(x) && base <= x && x + PAGE_SIZE <= Min(base + len, USIZE_MAX) ==>
                  size > old(size) && entries[old(size)].start <= x && x + PAGE_SIZE <= entries[old(size)].end
    {
      if size >= entries.Length {
        return true;
      }
      var start := if kind.Free? then AlignUp(base) else AlignDown(base);
      var end := SaturatingAdd(base, len);
      AlignFacts(base);
      AlignFacts(end);
      TopFacts(end);
      WholePagesKept(base, end);
      end := if kind.Free? then AlignDown(end) else AlignUp(end);
      if start < end {
        entries[size] := Entry(start, end, kind);
        size := size + 1;
      }
      panicked := false;
    }
  }

  /** A page inside a region is inside the rounded region. */
  lemma WholePagesKept(start: nat, end: nat)
    requires start <= USIZE_MAX && end <= USIZE_MAX
    ensures forall x: nat :: OnPage(x) && start <= x && x + PAGE_SIZE <= end ==> AlignUp(start) <= x && x + PAGE_SIZE <= AlignDown(end)
  {
    forall x: nat | OnPage(x) && start <= x && x + PAGE_SIZE <= end
      ensures AlignUp(start) <= x && x + PAGE_SIZE <= AlignDown(end)
    {
      assert x == x / PAGE_SIZE * PAGE_SIZE;
    }
  }

  lemma TopFacts(x: nat)
    requires x <= USIZE_MAX
    ensures TOP < x ==> AlignUp(x) == TOP
  {
  }
}
