/**
 A second invariant of the copy-on-write kernel: a page of a shared grant is on a copy-on-write
 frame only before its first use, when that is the static zeroed frame.
 */
module CowPlain {
  import opened Common
  import opened RefCounts
  import opened CowModel
  import opened CowEager
  import opened CowInvariant
  import opened CowProofs
  import opened CowCopy
  import opened CowClone
  import opened CowSteps
  import opened CowSimulation

  ghost predicate Plain(k: Kernel) {
    forall l :: l in k.attrs && k.attrs[l].shared && l in k.entries && k.entries[l].frame != k.zero ==>
      k.entries[l].frame in k.rc && !k.rc[k.entries[l].frame].Cow?
  }

  // ----- single references -----

  lemma FillPlain(k: Kernel, l: Loc)
    requires Plain(k) && l in k.attrs && k.pool != []
    ensures Plain(Fill(k, l))
  {
  }

  lemma ProtectPlain(k: Kernel, l: Loc, w: bool)
    requires Plain(k) && l in k.entries
    ensures Plain(Protect(k, l, w))
  {
  }

  lemma BreakCowPlain(k: Kernel, l: Loc)
    requires Plain(k) && k.pool != [] && l in k.entries && k.entries[l].frame in k.rc && k.entries[l].frame in k.mem
    requires k.rc[k.entries[l].frame].Cow? && k.rc[k.entries[l].frame].n >= 2
    ensures Plain(BreakCow(k, l))
  {
  }

  /** Only a frame that no shared page is on turns copy-on-write. */
  lemma ShareCowPlain(k: Kernel, src: Loc, dst: Loc, rc: RefCount)
    requires Inv(k) && Plain(k) && FreshTarget(k, src, dst) && src in k.entries && !k.attrs[src].shared
    requires !k.rc[k.entries[src].frame].Shared?
    ensures Plain(ShareCow(k, src, dst, rc))
  {
    var f := k.entries[src].frame;
    forall l | l in k.attrs && k.attrs[l].shared && l in k.entries && k.entries[l].frame == f
      ensures f == k.zero
    {
      if k.rc[f].One? {
        SoleReference(k.entries, k.rc, src, l);
      }
    }
  }

  lemma CopyOutPlain(k: Kernel, src: Loc, dst: Loc)
    requires Plain(k) && FreshTarget(k, src, dst) && src in k.entries && k.entries[src].frame in k.mem && k.pool != []
    ensures Plain(CopyOut(k, src, dst))
  {
  }

  lemma LosePlain(k: Kernel, src: Loc, rc: RefCount)
    requires Plain(k) && src in k.entries && rc.Shared?
    requires forall l :: l in k.attrs ==> l.PageLoc?
    ensures Plain(Lose(k, src, rc))
  {
  }

  lemma ShareSharedPlain(k: Kernel, src: Loc, dst: Loc, rc: RefCount)
    requires Plain(k) && FreshTarget(k, src, dst) && src in k.entries && rc.Shared?
    ensures Plain(ShareShared(k, src, dst, rc))
  {
  }

  lemma MoveSharedPlain(k: Kernel, src: Loc, dst: Loc)
    requires Plain(k) && FreshTarget(k, src, dst) && src in k.entries && k.pool != []
    requires k.entries[src].frame in k.mem && k.entries[src].frame in k.rc
    requires k.rc[k.entries[src].frame].Cow? && k.rc[k.entries[src].frame].n >= 2
    ensures Plain(MoveShared(k, src, dst))
  {
  }

  lemma DroppedPlain(k: Kernel, l: Loc)
    requires Inv(k) && Plain(k) && l in k.entries && (l.PageLoc? || l.HandleLoc?)
    ensures Plain(Dropped(k, l))
  {
    LoseReference(k.entries, k.rc, l);
    var k2 := Dropped(k, l);
    forall m | m in k2.attrs && k2.attrs[m].shared && m in k2.entries && k2.entries[m].frame != k2.zero
      ensures k2.entries[m].frame in k2.rc && !k2.rc[k2.entries[m].frame].Cow?
    {
      assert k2.entries[m].frame in k2.rc;
    }
  }

  lemma WithZeroPlain(k: Kernel, l: Loc, rc: RefCount)
    requires Plain(k)
    ensures Plain(WithZero(k, l, rc))
  {
  }

  lemma HandedPlain(k: Kernel, l: Loc, rc: RefCount)
    requires Plain(k) && l in k.entries && rc.Shared? && (forall m :: m in k.attrs ==> m.PageLoc?)
    ensures Plain(Handed(k, l, rc))
  {
  }

  lemma LessAttrs(k: Kernel, attrs: map<Loc, Attr>)
    requires Plain(k) && forall l :: l in attrs ==> (l in k.attrs && attrs[l] == k.attrs[l]) || l !in k.entries
    ensures Plain(k.(attrs := attrs))
  {
  }

  // ----- copying -----

  lemma CopyPagePlain(k: Kernel, src: Loc, dst: Loc)
    requires Inv(k) && Plain(k) && FreshTarget(k, src, dst) && src.PageLoc?
    ensures Sound(k)
    ensures var r := CopyPage(k, src, dst);
            !r.CopyPanic? ==> Plain(r.k)
  {
    InvIsReady(k, src);
    if !k.attrs[src].shared {
      OwnedArmIsCode(k, src, dst);
      OwnedArmPlain(k, src, dst);
    } else if src in k.entries {
      SharedArmIsCode(k, src, dst);
      SharedArmPlain(k, src, dst);
    } else if k.pool != [] {
      var k1 := Fill(k, src);
      FillPlain(k, src);
      FillInv(k, src);
      assert EnsurePresent(k, src) == Some(k1);
      InvIsReady(k1, src);
      SharedArmIsCode(k1, src, dst);
      SharedArmPlain(k1, src, dst);
    }
  }

  lemma OwnedArmPlain(k: Kernel, src: Loc, dst: Loc)
    requires Inv(k) && Plain(k) && FreshTarget(k, src, dst) && !k.attrs[src].shared
    ensures Sound(k)
    ensures var r := OwnedArm(k, src, dst); !r.CopyPanic? ==> Plain(r.k)
  {
    if src !in k.entries {
      LessAttrs(k, k.attrs[dst := k.attrs[src]]);
    } else {
      var rc := k.rc[k.entries[src].frame];
      if AddRef(rc, CowKind).Added? {
        ShareCowPlain(k, src, dst, AddRef(rc, CowKind).rc);
      } else if !rc.Shared? || !AddRef(rc, SharedKind).Added? {
        ProtectPlain(k, src, false);
      } else if k.pool == [] {
        LosePlain(k, src, AddRef(rc, SharedKind).rc);
      } else {
        CopyOutPlain(k, src, dst);
      }
    }
  }

  lemma SharedArmPlain(k: Kernel, src: Loc, dst: Loc)
    requires Inv(k) && Plain(k) && FreshTarget(k, src, dst) && src in k.entries
    ensures Sound(k)
    ensures var r := SharedArm(k, src, dst); !r.CopyPanic? ==> Plain(r.k)
  {
    var rc := k.rc[k.entries[src].frame];
    if AddRef(rc, SharedKind).Added? {
      ShareSharedPlain(k, src, dst, AddRef(rc, SharedKind).rc);
    } else if rc.Cow? && k.pool != [] {
      MoveSharedPlain(k, src, dst);
    }
  }

  lemma {:induction false} CopyPagesPlain(k: Kernel, e: Eager, s: nat, t: nat, pages: seq<nat>)
    requires Inv(k) && Rel(k, e) && Plain(k) && Pending(k, s, t, pages)
    ensures var r := CopyPages(k, s, t, pages); !r.CopyPanic? ==> Plain(r.k)
    decreases |pages|
  {
    hide Inv, Rel, CopyPage, Plain, FreshTarget;
    if pages != [] {
      var src, dst := PageLoc(s, pages[0]), PageLoc(t, pages[0]);
      FirstPending(k, s, t, pages);
      InvIsReady(k, src);
      CopyPageKeeps(k, e, src, dst);
      CopyPageFrame(k, src, dst);
      CopyPagePlain(k, src, dst);
      var r := CopyPage(k, src, dst);
      if r.Copied? {
        PendingRest(k, r.k, s, t, pages);
        SourceHasCell(k, e, src);
        CopyPagesPlain(r.k, CopyCell(e, src, dst), s, t, pages[1..]);
      }
    }
  }

  lemma FirstPending(k: Kernel, s: nat, t: nat, pages: seq<nat>)
    requires Pending(k, s, t, pages) && pages != []
    ensures FreshTarget(k, PageLoc(s, pages[0]), PageLoc(t, pages[0])) && PageLoc(s, pages[0]) in k.attrs
  {
    assert pages[0] in pages;
  }

  // ----- dropping -----

  lemma DropPagePlain(k: Kernel, l: Loc)
    requires Inv(k) && Plain(k) && (l.PageLoc? || l.HandleLoc?)
    ensures Plain(DropPage(k, l))
  {
    if l in k.entries {
      DroppedIsCode(k, l);
      DroppedPlain(k, l);
    } else {
      LessAttrs(k, k.attrs - {l});
    }
  }

  lemma {:induction false} DropPagesPlain(k: Kernel, e: Eager, s: nat, pages: seq<nat>)
    requires Inv(k) && Rel(k, e) && Plain(k)
    requires forall p :: p in pages && PageLoc(s, p) in k.entries ==> PageLoc(s, p) in k.attrs
    ensures Plain(DropPages(k, s, pages))
    decreases |pages|
  {
    if pages != [] {
      var l := PageLoc(s, pages[0]);
      DropPagePlain(k, l);
      DropOne(k, e, l, pages);
      hide Inv, Rel, Plain, DropPage;
      DropPagesPlain(DropPage(k, l), DropCell(e, l), s, pages[1..]);
    }
  }

  lemma DropOne(k: Kernel, e: Eager, l: Loc, pages: seq<nat>)
    requires Inv(k) && Rel(k, e) && l.PageLoc? && pages != [] && l.page == pages[0]
    requires forall p :: p in pages && PageLoc(l.space, p) in k.entries ==> PageLoc(l.space, p) in k.attrs
    ensures Inv(DropPage(k, l)) && Rel(DropPage(k, l), DropCell(e, l))
    ensures forall p :: p in pages[1..] && PageLoc(l.space, p) in DropPage(k, l).entries ==> PageLoc(l.space, p) in DropPage(k, l).attrs
  {
    assert pages[0] in pages;
    assert PageLoc(l.space, pages[0]) == l;
    assert l in k.entries ==> l in e.cellOf;
    DropKeeps(k, e, l);
    assert forall p :: p in pages[1..] ==> p in pages;
  }

  lemma {:induction false} OrphanPlain(k: Kernel, t: nat, pages: seq<nat>)
    requires Plain(k)
    ensures Plain(Orphan(k, t, pages))
    decreases |pages|
  {
    if pages != [] {
      LessAttrs(k, k.attrs - {PageLoc(t, pages[0])});
      OrphanPlain(k.(attrs := k.attrs - {PageLoc(t, pages[0])}), t, pages[1..]);
    }
  }

  // ----- steps -----

  lemma GrantFailedPlain(k: Kernel, e0: Eager, s: nat, t: nat, done: seq<nat>, pages: seq<nat>)
    requires Inv(k) && s != t && Untouched(e0, t) && Rel(k, CopyCells(e0, s, t, done)) && Plain(k)
    requires Pending(k, s, t, pages) && Complete(k, t, done)
    requires CopyPages(k, s, t, pages).CopyNoMem?
    ensures Plain(Orphan(DropPages(CopyPages(k, s, t, pages).k, t, done), t, pages))
  {
    hide Inv, Rel, Plain, Pending, Untouched, CopyPages;
    var e := CopyCells(e0, s, t, done);
    var k1 := CopyPages(k, s, t, pages).k;
    CopyPagesPlain(k, e, s, t, pages);
    var n := CopyPagesKeeps(k, e, s, t, pages);
    assert Complete(k1, t, done) by {
      CopyPagesFrame(k, e, s, t, pages);
      PendingSources(k, s, t, pages);
      CompleteAfter(k, k1, e, s, t, done, pages[..n]);
      assert forall p :: p in done ==> p in done + pages[..n];
    }
    DropPagesPlain(k1, CopyCells(e, s, t, pages[..n]), t, done);
    OrphanPlain(DropPages(k1, t, done), t, pages);
  }

  lemma PendingSources(k: Kernel, s: nat, t: nat, pages: seq<nat>)
    requires Pending(k, s, t, pages)
    ensures forall p :: p in pages ==> PageLoc(s, p) in k.attrs
  {
  }

  lemma {:induction false} ClonePlain(k: Kernel, e0: Eager, s: nat, t: nat, done: seq<nat>, todo: seq<Region>)
    requires Inv(k) && s != t && Untouched(e0, t) && Rel(k, CopyCells(e0, s, t, done)) && Plain(k)
    requires Pending(k, s, t, Flatten(todo)) && Complete(k, t, done) && Tidy(k, t)
    ensures var r := CloneRegions(k, s, t, done, todo); !r.CopyPanic? ==> Plain(r.k)
    decreases |todo|
  {
    hide Inv, Rel, Plain, Untouched, Pending, Tidy, Complete;
    if todo != [] {
      var pages, rest := Pages(todo[0]), Flatten(todo[1..]);
      PendingSplit(k, s, t, pages, rest);
      var r := CopyPages(k, s, t, pages);
      CopyPagesPlain(k, CopyCells(e0, s, t, done), s, t, pages);
      if r.CopyNoMem? {
        GrantFailedPlain(k, e0, s, t, done, pages);
      } else if r.Copied? {
        GrantCopied(k, e0, s, t, done, pages, rest);
        ClonePlain(r.k, e0, s, t, done + pages, todo[1..]);
      }
    }
  }

  lemma FaultPlain(k: Kernel, l: Loc, access: Access)
    requires Inv(k) && Plain(k) && l.PageLoc?
    ensures Sound(k)
    ensures var r := CorrectInner(k, l, access); r.Corrected? ==> Plain(r.k)
  {
    if l in k.attrs && Permits(k.attrs[l], access) {
      if l !in k.entries {
        if k.pool != [] {
          FillPlain(k, l);
          assert CorrectInner(k, l, access) == Corrected(Fill(k, l));
        }
      } else if access.WriteAccess? && k.rc[k.entries[l].frame].Cow? {
        BreakCowIsCode(k, l);
        if k.pool != [] {
          BreakCowPlain(k, l);
        }
      } else {
        ProtectPlain(k, l, k.attrs[l].write && AllowsWritable(k.rc[k.entries[l].frame]));
      }
    }
  }

  lemma {:induction false} MapZeroPlain(k: Kernel, s: nat, base: nat, count: nat, i: nat)
    requires Plain(k) && i <= count
    ensures var r := MapZero(k, s, base, count, i); r.Some? ==> Plain(r.value)
    decreases count - i
  {
    if i != count && i != MAX_EAGER_PAGES && k.zero in k.rc {
      match AddRef(k.rc[k.zero], CowKind)
      case Refused(_) =>
      case Added(rc) =>
        WithZeroPlain(k, PageLoc(s, base + i), rc);
        MapZeroPlain(WithZero(k, PageLoc(s, base + i), rc), s, base, count, i + 1);
    }
  }

  lemma {:induction false} GrantPagesIn(attrs: map<Loc, Attr>, s: nat, base: nat, count: nat, attr: Attr)
    ensures forall l :: l in GrantPages(attrs, s, base, count, attr) ==>
              (l in attrs && GrantPages(attrs, s, base, count, attr)[l] == attrs[l]) || (InSpace(l, s) && base <= l.page < base + count)
    decreases count
  {
    if count > 0 {
      GrantPagesIn(attrs[PageLoc(s, base) := attr], s, base + 1, count - 1, attr);
    }
  }

  lemma ZeroMapPlain(k: Kernel, s: nat, base: nat, count: nat, attr: Attr)
    requires Inv(k) && Plain(k)
    ensures Sound(k) && Plain(Step(k, ZeroMap(s, base, count, attr)).0)
  {
    if s in k.spaces && NoConflict(k.attrs, s, base, count) {
      var attrs := GrantPages(k.attrs, s, base, count, attr);
      GrantPagesIn(k.attrs, s, base, count, attr);
      forall l | l in attrs
        ensures (l in k.attrs && attrs[l] == k.attrs[l]) || l !in k.entries
      {
        if l !in k.attrs {
          NotMapped(k, l);
        }
      }
      LessAttrs(k, attrs);
      MapZeroPlain(k.(attrs := attrs), s, base, count, 0);
    }
  }

  lemma BorrowPlain(k: Kernel, s: nat, p: nat)
    requires Inv(k) && Plain(k)
    ensures Sound(k) && Plain(Step(k, Borrow(s, p)).0)
  {
    var l := PageLoc(s, p);
    if l in k.attrs && !k.attrs[l].shared {
      FaultPlain(k, l, WriteAccess);
      var r := if l in k.entries && k.entries[l].write then Corrected(k) else CorrectInner(k, l, WriteAccess);
      if r.Corrected? && l in r.k.entries && r.k.entries[l].frame in r.k.rc {
        var more := AddRef(r.k.rc[r.k.entries[l].frame], SharedKind);
        FaultSameTables(k, l, WriteAccess);
        if more.Added? {
          HandedPlain(r.k, l, more.rc);
        }
      }
    }
  }

  lemma FaultSameTables(k: Kernel, l: Loc, access: Access)
    requires Sound(k)
    ensures var r := CorrectInner(k, l, access);
            r.Corrected? ==> r.k.attrs == k.attrs && r.k.zero == k.zero && r.k.spaces == k.spaces
  {
  }

  lemma CloneStepPlain(k: Kernel, e: Eager, s: nat, plan: seq<Region>)
    requires Inv(k) && Rel(k, e) && Plain(k)
    ensures Sound(k) && Plain(Step(k, Clone(s, plan)).0)
  {
    hide Inv, Rel, Plain, Untouched, Pending, Tidy, IsPlan, CloneRegions;
    RelTables(k, e);
    if s in k.spaces && IsPlan(k.attrs, s, plan) {
      var t := k.nextSpace;
      var k0, e0 := k.(nextSpace := t + 1), e.(nextSpace := t + 1);
      SamePlain(k, k0);
      CloneStarts(k, e, s, plan);
      assert Complete(k0, t, []);
      ClonePlain(k0, e0, s, t, [], plan);
      var r := CloneRegions(k0, s, t, [], plan);
      if r.Copied? {
        SamePlain(r.k, r.k.(spaces := r.k.spaces + {t}));
      }
    }
  }

  lemma SamePlain(k: Kernel, k1: Kernel)
    requires Plain(k) && k1.entries == k.entries && k1.attrs == k.attrs && k1.rc == k.rc && k1.zero == k.zero
    ensures Plain(k1)
  {
  }

  /** Every step keeps it. */
  lemma StepPlain(k: Kernel, e: Eager, op: Op)
    requires Inv(k) && Rel(k, e) && Plain(k)
    ensures Sound(k) && Plain(Step(k, op).0)
  {
    hide Inv, Rel, Plain;
    RelTables(k, e);
    match op
    case Load(s, p, access) => FaultPlain(k, PageLoc(s, p), access);
    case Store(s, p, off, v) => StoreStepPlain(k, s, p, off, v);
    case ZeroMap(s, base, count, attr) => ZeroMapPlain(k, s, base, count, attr);
    case Clone(s, plan) => CloneStepPlain(k, e, s, plan);
    case Unmap(s, pages) =>
      if s in k.spaces {
        UnmapPlain(k, e, s, pages);
      }
    case Borrow(s, p) => BorrowPlain(k, s, p);
    case Release(h) => DropPagePlain(k, HandleLoc(h));
    case _ => RestPlain(k, op);
  }

  lemma RestPlain(k: Kernel, op: Op)
    requires Sound(k) && Plain(k)
    requires op.NewSpace? || op.DropSpace? || op.HandleLoad? || op.HandleStore? || op.Reorder?
    ensures Plain(Step(k, op).0)
  {
  }

  lemma StoreStepPlain(k: Kernel, s: nat, p: nat, off: nat, v: Byte)
    requires Inv(k) && Sound(k) && Plain(k)
    ensures Plain(Step(k, Store(s, p, off, v)).0)
  {
    hide Inv;
    FaultPlain(k, PageLoc(s, p), WriteAccess);
  }

  lemma UnmapPlain(k: Kernel, e: Eager, s: nat, pages: seq<nat>)
    requires Inv(k) && Rel(k, e) && Plain(k) && Sound(k) && s in k.spaces
    ensures Plain(Step(k, Unmap(s, pages)).0)
  {
    hide Plain;
    DropPagesPlain(k, e, s, pages);
  }

  lemma BootPlain(zero: nat, pool: seq<nat>)
    ensures Plain(Boot(zero, pool))
  {
  }
}
