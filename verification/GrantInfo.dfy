/**
 Page spans and grants (src/context/memory.rs): what backs each page of a grant, which grants may be
 merged, and cutting a region out of one.
 */
module GrantInfos {
  import opened Common

  // ----- spans -----

  /** Pages [base, base + count). */
  datatype PageSpan = PageSpan(base: nat, count: nat) {
    function End(): nat {
      base + count
    }

    predicate Has(p: nat) {
      base <= p < base + count
    }
  }

  const EMPTY: PageSpan := PageSpan(0, 0)

  /** Truncates to nothing when `end` is before `start`. */
  function SpanBetween(start: nat, end: nat): PageSpan {
    PageSpan(start, if end < start then 0 else end - start)
  }

  function Intersection(a: PageSpan, b: PageSpan): (r: PageSpan)
    ensures forall p :: r.Has(p) <==> a.Has(p) && b.Has(p)
  {
    SpanBetween(Max(a.base, b.base), Min(a.End(), b.End()))
  }

  predicate Intersects(a: PageSpan, b: PageSpan) {
    Intersection(a, b).count != 0
  }

  // ----- grants -----

  datatype FileRef = FileRef(description: nat, baseOffset: nat)

  datatype Provider =
    | Allocated(cowFile: Option<FileRef>, physContiguous: bool)
    | AllocatedShared(pinned: bool)
    | PhysBorrowed(frame: nat)
    | External(space: nat, srcBase: nat, isPinned: bool)
    | FmapBorrowed(file: FileRef, pinRefcount: nat)

  datatype GrantInfo = GrantInfo(count: nat, flags: nat, mapped: bool, provider: Provider)

  datatype Grant = Grant(base: nat, info: GrantInfo) {
    function Span(): PageSpan {
      PageSpan(base, info.count)
    }
  }

  predicate IsPinned(g: GrantInfo) {
    match g.provider
    case External(_, _, pinned) => pinned
    case AllocatedShared(pinned) => pinned
    case FmapBorrowed(_, n) => n >= 1
    case _ => false
  }

  predicate IsContiguous(g: GrantInfo) {
    g.provider.Allocated? && g.provider.physContiguous
  }

  predicate CanExtract(g: GrantInfo, unpin: bool) {
    !(IsPinned(g) && !unpin) || IsContiguous(g)
  }

  /** Clears the pin flag. The pin count of a file mapping is left as it is. */
  function Unpin(g: GrantInfo): GrantInfo {
    match g.provider
    case External(space, src, _) => g.(provider := External(space, src, false))
    case AllocatedShared(_) => g.(provider := AllocatedShared(false))
    case _ => g
  }

  /** `can_be_merged_if_adjacent` */
  predicate CanMerge(a: GrantInfo, b: GrantInfo) {
    && a.mapped == b.mapped && a.flags == b.flags
    && a.provider == Allocated(None, false) && b.provider == Allocated(None, false)
  }

  // ----- what is behind a page -----

  datatype Backing =
    | Anonymous(contiguous: bool)
    | CowFile(description: nat, offset: nat, contiguous: bool)
    | SharedMemory(pinned: bool)
    | Physical(frame: nat)
    | Borrowed(space: nat, page: nat, pinned: bool)
    | SharedFile(description: nat, offset: nat, pins: nat)

  datatype Attr = Attr(flags: nat, mapped: bool, backing: Backing)

  function BackingAt(p: Provider, i: nat): Backing {
    match p
    case Allocated(None, c) => Anonymous(c)
    case Allocated(Some(f), c) => CowFile(f.description, f.baseOffset + i * PAGE_SIZE, c)
    case AllocatedShared(pinned) => SharedMemory(pinned)
    case PhysBorrowed(frame) => Physical(frame + i)
    case External(space, src, pinned) => Borrowed(space, src + i, pinned)
    case FmapBorrowed(f, pins) => SharedFile(f.description, f.baseOffset + i * PAGE_SIZE, pins)
  }

  function AttrAt(g: Grant, p: nat): Attr
    requires g.Span().Has(p)
  {
    Attr(g.info.flags, g.info.mapped, BackingAt(g.info.provider, p - g.base))
  }

  // ----- extract -----

  /** The provider of the part before the cut. */
  function BeforeProvider(p: Provider): Provider {
    match p
    case External(space, src, _) => External(space, src, false)
    case Allocated(f, _) => Allocated(f, false)
    case AllocatedShared(_) => AllocatedShared(false)
    case PhysBorrowed(frame) => PhysBorrowed(frame)
    case FmapBorrowed(f, _) => FmapBorrowed(f, 0)
  }

  function Advance(f: FileRef, pages: nat): FileRef {
    f.(baseOffset := f.baseOffset + pages * PAGE_SIZE)
  }

  /** The provider of the middle: the source of a borrowed span is not advanced. */
  function MiddleProvider(p: Provider, off: nat): Provider {
    match p
    case PhysBorrowed(frame) => PhysBorrowed(frame + off)
    case FmapBorrowed(f, pins) => FmapBorrowed(Advance(f, off), pins)
    case Allocated(Some(f), c) => Allocated(Some(Advance(f, off)), c)
    case _ => p
  }

  function AfterProvider(middle: Provider, count: nat): Provider {
    match middle
    case Allocated(None, _) => Allocated(None, false)
    case AllocatedShared(_) => AllocatedShared(false)
    case Allocated(Some(f), _) => Allocated(Some(Advance(f, count)), false)
    case External(space, src, _) => External(space, src, false)
    case PhysBorrowed(frame) => PhysBorrowed(frame + count)
    case FmapBorrowed(f, _) => FmapBorrowed(Advance(f, count), 0)
  }

  datatype Parts = Parts(before: Option<Grant>, middle: Grant, after: Option<Grant>)

  predicate Inside(span: PageSpan, g: Grant) {
    g.base <= span.base && span.End() <= g.base + g.info.count
  }

  /** Cuts `span` out. The assertion `can_extract(false)` panics exactly on pinned grants. */
  function Extract(g: Grant, span: PageSpan): Parts
    requires Inside(span, g) && CanExtract(g.info, false)
  {
    var off := span.base - g.base;
    var before := if off == 0 then None
                  else Some(Grant(g.base, g.info.(count := off, provider := BeforeProvider(g.info.provider))));
    var middle := MiddleProvider(g.info.provider, off);
    var rest := g.base + g.info.count - span.End();
    var after := if rest == 0 then None
                 else Some(Grant(span.End(), g.info.(count := rest, provider := AfterProvider(middle, span.count))));
    Parts(before, Grant(span.base, g.info.(count := span.count, provider := middle)), after)
  }

  /** The part that holds page `p`. */
  function PartAt(parts: Parts, p: nat): Option<Grant> {
    if parts.before.Some? && parts.before.value.Span().Has(p) then parts.before
    else if parts.middle.Span().Has(p) then Some(parts.middle)
    else if parts.after.Some? && parts.after.value.Span().Has(p) then parts.after
    else None
  }

  /** The parts are the grant's span, in order and without overlap, and the middle is what was asked. */
  lemma ExtractSpans(g: Grant, span: PageSpan)
    requires Inside(span, g) && CanExtract(g.info, false)
    ensures var parts := Extract(g, span);
            && parts.middle.Span() == span
            && (parts.before.Some? <==> g.base < span.base)
            && (parts.before.Some? ==> parts.before.value.Span() == SpanBetween(g.base, span.base))
            && (parts.after.Some? <==> span.End() < g.Span().End())
            && (parts.after.Some? ==> parts.after.value.Span() == SpanBetween(span.End(), g.Span().End()))
  {
  }

  /** What a cut can lose: the source of a borrowed span, and being physically contiguous. */
  predicate CutsCleanly(g: Grant, span: PageSpan) {
    span == g.Span() || !(g.info.provider.External? || IsContiguous(g.info))
  }

  /** What backs page `p` after the cut, for every provider. */
  function CutBacking(g: Grant, span: PageSpan, p: nat): Backing
    requires g.Span().Has(p) && Inside(span, g)
  {
    var whole := BackingAt(g.info.provider, p - g.base);
    match whole
    case Borrowed(space, page, pinned) =>
      if p < span.base then whole
      else if p < span.End() then Borrowed(space, g.info.provider.srcBase + (p - span.base), pinned)
      else Borrowed(space, g.info.provider.srcBase + (p - span.End()), pinned)
    case Anonymous(c) => Anonymous(c && span.Has(p))
    case CowFile(d, o, c) => CowFile(d, o, c && span.Has(p))
    case _ => whole
  }

  lemma ExtractAt(g: Grant, span: PageSpan, p: nat)
    requires Inside(span, g) && CanExtract(g.info, false) && g.Span().Has(p)
    ensures var part := PartAt(Extract(g, span), p);
            && part.Some? && part.value.Span().Has(p)
            && AttrAt(part.value, p) == Attr(g.info.flags, g.info.mapped, CutBacking(g, span, p))
  {
  }

  predicate KeepsAttr(g: Grant, span: PageSpan, p: nat)
    requires Inside(span, g) && CanExtract(g.info, false) && g.Span().Has(p)
  {
    var part := PartAt(Extract(g, span), p);
    part.Some? && part.value.Span().Has(p) && AttrAt(part.value, p) == AttrAt(g, p)
  }

  /** Cutting changes nothing about any page exactly when the cut is clean. */
  lemma ExtractKeepsIff(g: Grant, span: PageSpan)
    requires Inside(span, g) && CanExtract(g.info, false) && span.count > 0
    ensures CutsCleanly(g, span) <==>
            forall p :: g.Span().Has(p) ==> KeepsAttr(g, span, p)
  {
    hide Extract, PartAt;
    forall p | g.Span().Has(p)
      ensures PartAt(Extract(g, span), p).Some? && PartAt(Extract(g, span), p).value.Span().Has(p)
      ensures AttrAt(PartAt(Extract(g, span), p).value, p) == Attr(g.info.flags, g.info.mapped, CutBacking(g, span, p))
    {
      ExtractAt(g, span, p);
    }
    if !CutsCleanly(g, span) {
      var p := if span.End() < g.base + g.info.count then span.End()
               else if g.info.provider.External? then span.base else g.base;
      assert g.Span().Has(p) && CutBacking(g, span, p) != BackingAt(g.info.provider, p - g.base);
    }
  }

  /** The smallest grant on which the general claim fails: two pages borrowed from another space. */
  lemma BorrowedCutLosesSource()
    ensures var g := Grant(8, GrantInfo(2, 0, true, External(1, 100, false)));
            var parts := Extract(g, PageSpan(8, 1));
            && parts.after == Some(Grant(9, GrantInfo(1, 0, true, External(1, 100, false))))
            && AttrAt(g, 9).backing == Borrowed(1, 101, false)
            && AttrAt(parts.after.value, 9).backing == Borrowed(1, 100, false)
  {
  }

  /** `EINVAL` is never returned: whatever is not pinned, or is to be unpinned, can be extracted. */
  lemma NeverInvalid(g: GrantInfo, unpin: bool)
    requires !(IsPinned(g) && !unpin)
    ensures CanExtract(g, unpin)
  {
  }

  /** After unpinning, extraction panics exactly on file mappings that are still pinned. */
  lemma UnpinPanicsIff(g: GrantInfo)
    ensures !CanExtract(Unpin(g), false) <==> g.provider.FmapBorrowed? && g.provider.pinRefcount >= 1
  {
  }
}
