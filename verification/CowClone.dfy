/**
 `copy_mappings` over a grant and `try_clone` over an address space, with its failures.
 */
module CowClone {
  import opened Common
  import opened RefCounts
  import opened CowModel
  import opened CowEager
  import opened CowInvariant
  import opened CowProofs
  import opened CowCopy

  // ----- one page -----

  /** What copying one page leaves alone. */
  ghost predicate CopyFrame(k: Kernel, k1: Kernel, src: Loc, dst: Loc) {
    && k1.spaces == k.spaces && k1.nextSpace == k.nextSpace
    && (forall l :: l in k1.entries && l.PageLoc? ==> l in k.entries || l == src || l == dst)
  }

  /** The facts about a kernel that decide which arm a copy takes. */
  ghost predicate Ready(k: Kernel, src: Loc) {
    && Sound(k) && src in k.attrs
    && (k.pool != [] ==> k.pool[0] !in k.rc)
    && (src in k.entries ==> WellFormed(k.rc[k.entries[src].frame]))
    && !k.rc[k.zero].Shared?
    && k.mem[k.zero] == ZeroPage()
  }

  lemma InvIsReady(k: Kernel, src: Loc)
    requires Inv(k) && src in k.attrs
    ensures Ready(k, src)
  {
    assert k.pool != [] ==> k.pool[0] in k.pool;
  }

  function OwnedArm(k: Kernel, src: Loc, dst: Loc): CopyResult
    requires Sound(k) && src in k.attrs
  {
    if src !in k.entries then Copied(k.(attrs := k.attrs[dst := k.attrs[src]]))
    else
      var rc := k.rc[k.entries[src].frame];
      if AddRef(rc, CowKind).Added? then Copied(ShareCow(k, src, dst, AddRef(rc, CowKind).rc))
      else if !rc.Shared? || !AddRef(rc, SharedKind).Added? then CopyNoMem(Protect(k, src, false))
      else if k.pool == [] then CopyNoMem(Lose(k, src, AddRef(rc, SharedKind).rc))
      else Copied(CopyOut(k, src, dst))
  }

  /** The code of the `Owned` mode amounts to one of the updates above. */
  lemma OwnedArmIsCode(k: Kernel, src: Loc, dst: Loc)
    requires Ready(k, src)
    ensures CopyOwned(k, src, dst) == OwnedArm(k, src, dst)
  {
    if src in k.entries && k.rc[k.entries[src].frame].Shared? && k.pool != [] {
      var f, g := k.entries[src].frame, k.pool[0];
      var more := AddRef(k.rc[f], SharedKind);
      if more.Added? {
        assert RemoveRef(more.rc) == Some(k.rc[f]);
        assert k.rc[f := more.rc][g := One][f := k.rc[f]] == k.rc[g := One];
        assert k.mem[g := ZeroPage()][g := k.mem[f]] == k.mem[g := k.mem[f]];
      }
    }
  }

  lemma OwnedArmKeeps(k: Kernel, e: Eager, src: Loc, dst: Loc)
    requires Inv(k) && Rel(k, e) && FreshTarget(k, src, dst) && src.PageLoc? && !k.attrs[src].shared
    ensures var r := OwnedArm(k, src, dst);
            && !r.CopyPanic?
            && (r.Copied? ==> Inv(r.k) && Rel(r.k, CopyCell(e, src, dst)))
            && (r.CopyNoMem? ==> Inv(r.k) && Rel(r.k, e))
  {
    if src !in k.entries {
      var k1 := k.(attrs := k.attrs[dst := k.attrs[src]]);
      NewCellKeeps(k, k1, e, dst, k.attrs[src], View(k, src));
    } else {
      var rc := k.rc[k.entries[src].frame];
      if AddRef(rc, CowKind).Added? {
        ShareCowKeeps(k, e, src, dst, AddRef(rc, CowKind).rc);
      } else if !rc.Shared? || !AddRef(rc, SharedKind).Added? {
        ProtectKeeps(k, e, src, false);
      } else if k.pool == [] {
        LoseKeeps(k, e, src, AddRef(rc, SharedKind).rc);
      } else {
        CopyOutKeeps(k, e, src, dst);
      }
    }
  }

  function SharedArm(k: Kernel, src: Loc, dst: Loc): CopyResult
    requires Sound(k) && src in k.attrs && src in k.entries
  {
    var rc := k.rc[k.entries[src].frame];
    if AddRef(rc, SharedKind).Added? then Copied(ShareShared(k, src, dst, AddRef(rc, SharedKind).rc))
    else if rc.Cow? && k.pool != [] then Copied(MoveShared(k, src, dst))
    else CopyNoMem(k)
  }

  /** The code of the `Borrowed` mode likewise, once the source page is present. */
  lemma SharedArmIsCode(k: Kernel, src: Loc, dst: Loc)
    requires Ready(k, src) && src in k.entries
    ensures ShareEntry(k, src, dst) == SharedArm(k, src, dst)
  {
    var f := k.entries[src].frame;
    if k.rc[f].Cow? && k.pool != [] {
      var g := k.pool[0];
      var less := RemoveRef(k.rc[f]).value;
      assert k.rc[g := Shared(2)][f := less] == AfterRemoval(k.rc, f)[g := Shared(2)];
      assert k.mem[g := ZeroPage()][g := k.mem[f]] == k.mem[g := k.mem[f]];
    }
  }

  lemma SharedArmKeeps(k: Kernel, e: Eager, src: Loc, dst: Loc)
    requires Inv(k) && Rel(k, e) && FreshTarget(k, src, dst) && k.attrs[src].shared && src in k.entries
    ensures var r := SharedArm(k, src, dst);
            && !r.CopyPanic?
            && (r.Copied? ==> Inv(r.k) && Rel(r.k, CopyCell(e, src, dst)))
            && (r.CopyNoMem? ==> Inv(r.k) && Rel(r.k, e))
  {
    var rc := k.rc[k.entries[src].frame];
    if AddRef(rc, SharedKind).Added? {
      ShareSharedKeeps(k, e, src, dst, AddRef(rc, SharedKind).rc);
    } else if rc.Cow? && k.pool != [] {
      MoveSharedKeeps(k, e, src, dst);
    }
  }

  lemma CopyPageFrame(k: Kernel, src: Loc, dst: Loc)
    requires Ready(k, src)
    ensures var r := CopyPage(k, src, dst);
            && (r.Copied? ==> CopyFrame(k, r.k, src, dst) && r.k.attrs == k.attrs[dst := k.attrs[src]])
            && (r.CopyNoMem? ==> CopyFrame(k, r.k, src, dst) && r.k.attrs == k.attrs)
  {
    if !k.attrs[src].shared {
      OwnedArmIsCode(k, src, dst);
    } else if src in k.entries {
      SharedArmIsCode(k, src, dst);
    } else if k.pool != [] {
      assert EnsurePresent(k, src) == Some(Fill(k, src));
    }
  }

  lemma CopyPageKeeps(k: Kernel, e: Eager, src: Loc, dst: Loc)
    requires Inv(k) && Rel(k, e) && FreshTarget(k, src, dst) && src.PageLoc?
    ensures var r := CopyPage(k, src, dst);
            && (r.Copied? ==> Inv(r.k) && Rel(r.k, CopyCell(e, src, dst)))
            && (r.CopyNoMem? ==> Inv(r.k) && Rel(r.k, e))
            && (r.CopyPanic? ==> k.attrs[src].shared && src !in k.entries && k.pool == [])
  {
    InvIsReady(k, src);
    if !k.attrs[src].shared {
      OwnedArmIsCode(k, src, dst);
      OwnedArmKeeps(k, e, src, dst);
    } else if src in k.entries {
      SharedArmIsCode(k, src, dst);
      SharedArmKeeps(k, e, src, dst);
    } else if k.pool != [] {
      FillKeeps(k, e, src);
      assert EnsurePresent(k, src) == Some(Fill(k, src));
      InvIsReady(Fill(k, src), src);
      SharedArmIsCode(Fill(k, src), src, dst);
      SharedArmKeeps(Fill(k, src), e, src, dst);
    }
  }

  // ----- one grant -----

  ghost predicate Distinct(pages: seq<nat>) {
    forall i, j | 0 <= i < j < |pages| :: pages[i] != pages[j]
  }

  /** The pages still to be copied from `s` to the space `t` under construction. */
  ghost predicate Pending(k: Kernel, s: nat, t: nat, pages: seq<nat>) {
    && s != t && t < k.nextSpace && t !in k.spaces
    && Distinct(pages)
    && (forall p :: p in pages ==>
          PageLoc(s, p) in k.attrs && PageLoc(t, p) !in k.attrs && PageLoc(t, p) !in k.entries)
  }

  lemma PendingRest(k: Kernel, k1: Kernel, s: nat, t: nat, pages: seq<nat>)
    requires pages != [] && Pending(k, s, t, pages)
    requires k1.attrs == k.attrs[PageLoc(t, pages[0]) := k.attrs[PageLoc(s, pages[0])]]
    requires CopyFrame(k, k1, PageLoc(s, pages[0]), PageLoc(t, pages[0]))
    ensures Pending(k1, s, t, pages[1..])
  {
    assert forall p :: p in pages[1..] ==> p in pages && p != pages[0];
  }

  /** What copying a grant leaves alone. */
  ghost predicate PagesFrame(k: Kernel, k1: Kernel, s: nat, t: nat, pages: seq<nat>) {
    && k1.spaces == k.spaces && k1.nextSpace == k.nextSpace
    && (forall l :: l in k1.attrs && l !in k.attrs ==> l.PageLoc? && l.space == t && l.page in pages)
    && (forall l :: l in k.attrs && !(l.PageLoc? && l.space == t) ==> l in k1.attrs && k1.attrs[l] == k.attrs[l])
    && (forall l :: l in k1.entries && l !in k.entries && l.PageLoc? && l.space == t ==> l.page in pages)
  }

  lemma FrameStep(k: Kernel, k1: Kernel, k2: Kernel, s: nat, t: nat, pages: seq<nat>)
    requires pages != [] && s != t && PageLoc(s, pages[0]) in k.attrs
    requires CopyFrame(k, k1, PageLoc(s, pages[0]), PageLoc(t, pages[0]))
    requires k1.attrs == k.attrs[PageLoc(t, pages[0]) := k.attrs[PageLoc(s, pages[0])]]
    requires PagesFrame(k1, k2, s, t, pages[1..])
    ensures PagesFrame(k, k2, s, t, pages)
  {
    assert forall p :: p in pages[1..] ==> p in pages;
  }

  lemma {:induction false} CopyPagesFrame(k: Kernel, e: Eager, s: nat, t: nat, pages: seq<nat>)
    requires Inv(k) && Rel(k, e) && Pending(k, s, t, pages)
    ensures var r := CopyPages(k, s, t, pages);
            !r.CopyPanic? ==> PagesFrame(k, r.k, s, t, pages)
    decreases |pages|
  {
    if pages != [] {
      var src, dst := PageLoc(s, pages[0]), PageLoc(t, pages[0]);
      assert pages[0] in pages;
      InvIsReady(k, src);
      CopyPageKeeps(k, e, src, dst);
      CopyPageFrame(k, src, dst);
      var r := CopyPage(k, src, dst);
      if r.Copied? {
        PendingRest(k, r.k, s, t, pages);
        CopyPagesFrame(r.k, CopyCell(e, src, dst), s, t, pages[1..]);
        var rest := CopyPages(r.k, s, t, pages[1..]);
        if !rest.CopyPanic? {
          FrameStep(k, r.k, rest.k, s, t, pages);
        }
      }
    }
  }

  lemma SourceHasCell(k: Kernel, e: Eager, src: Loc)
    requires Rel(k, e) && src in k.attrs
    ensures src in e.attrs && src in e.cellOf
  {
  }

  /** Copying a grant copies a prefix of it; all of it unless memory runs out. */
  lemma {:induction false} CopyPagesKeeps(k: Kernel, e: Eager, s: nat, t: nat, pages: seq<nat>) returns (n: nat)
    requires Inv(k) && Rel(k, e) && Pending(k, s, t, pages)
    ensures n <= |pages|
    ensures var r := CopyPages(k, s, t, pages);
            && (r.Copied? ==> n == |pages| && Inv(r.k) && Rel(r.k, CopyCells(e, s, t, pages)))
            && (r.CopyNoMem? ==> Inv(r.k) && Rel(r.k, CopyCells(e, s, t, pages[..n])))
    decreases |pages|
  {
    hide Inv, Rel, CopyPage;
    n := 0;
    if pages != [] {
      var src, dst := PageLoc(s, pages[0]), PageLoc(t, pages[0]);
      assert pages[0] in pages;
      InvIsReady(k, src);
      CopyPageKeeps(k, e, src, dst);
      CopyPageFrame(k, src, dst);
      var r := CopyPage(k, src, dst);
      if r.Copied? {
        PendingRest(k, r.k, s, t, pages);
        SourceHasCell(k, e, src);
        var m := CopyPagesKeeps(r.k, CopyCell(e, src, dst), s, t, pages[1..]);
        n := m + 1;
        assert pages[..n][1..] == pages[1..][..m];
      } else {
        assert pages[..0] == [];
      }
    }
  }
}
