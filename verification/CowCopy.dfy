/**
 One iteration of `copy_mappings`, in both modes and in every arm, against the eager copy.
 */
module CowCopy {
  import opened Common
  import opened RefCounts
  import opened CowModel
  import opened CowEager
  import opened CowInvariant
  import opened CowProofs

  /** A new location with a cell of its own. */
  lemma NewCellKeeps(k: Kernel, k2: Kernel, e: Eager, dst: Loc, attr: Attr, data: PageData)
    requires Rel(k, e) && dst !in e.cellOf
    requires SameTables(k2, NewCell(e, dst, attr, data))
    requires forall l :: l in e.cellOf ==> View(k2, l) == View(k, l) && ShareKey(k2, l) == ShareKey(k, l)
    requires View(k2, dst) == data && ShareKey(k2, dst) == None
    ensures Rel(k2, NewCell(e, dst, attr, data))
  {
  }

  /** A new location in the cell of an old one: the two now share the frame `f`. */
  lemma AliasKeeps(k: Kernel, k2: Kernel, e: Eager, e2: Eager, src: Loc, dst: Loc, f: nat)
    requires Rel(k, e) && src in e.cellOf && dst !in e.cellOf
    requires SameTables(k2, e2)
    requires e2.cellOf == e.cellOf[dst := e.cellOf[src]] && e2.cells == e.cells && e2.nextCell == e.nextCell
    requires forall l :: l in e.cellOf ==> View(k2, l) == View(k, l)
    requires View(k2, dst) == View(k, src)
    requires ShareKey(k2, src) == ShareKey(k2, dst) == Some(f)
    requires forall l :: l in e.cellOf && l != src ==> ShareKey(k2, l) == ShareKey(k, l)
    requires ShareKey(k, src) == Some(f) ||
             (ShareKey(k, src) == None && forall l :: l in e.cellOf && l != src ==> ShareKey(k, l) != Some(f))
    ensures Rel(k2, e2)
  {
  }

  /** The page a clone is about to create: unused so far, in a space that is not live yet. */
  ghost predicate FreshTarget(k: Kernel, src: Loc, dst: Loc) {
    && src in k.attrs
    && dst.PageLoc? && dst.space < k.nextSpace && dst.space !in k.spaces
    && dst !in k.attrs && dst !in k.entries && dst != src
  }

  // ----- the arms, as single updates -----

  function ShareCow(k: Kernel, src: Loc, dst: Loc, rc: RefCount): Kernel
    requires src in k.entries && src in k.attrs
  {
    var f := k.entries[src].frame;
    k.(rc := k.rc[f := rc],
       entries := k.entries[src := Entry(f, false)][dst := Entry(f, false)],
       attrs := k.attrs[dst := k.attrs[src]])
  }

  lemma ShareCowInv(k: Kernel, src: Loc, dst: Loc, rc: RefCount)
    requires Inv(k) && FreshTarget(k, src, dst) && src in k.entries
    requires AddRef(k.rc[k.entries[src].frame], CowKind) == Added(rc)
    ensures Inv(ShareCow(k, src, dst, rc))
  {
    ShareCowCounted(k, src, dst, rc);
    ShareCowProtected(k, src, dst, rc);
    ShareCowRest(k, src, dst, rc);
    hide Counted, Protected, Frames, Zeroed, Numbered, ShareCow;
  }

  lemma ShareCowRest(k: Kernel, src: Loc, dst: Loc, rc: RefCount)
    requires Frames(k) && Zeroed(k) && Numbered(k) && FreshTarget(k, src, dst) && src in k.entries
    requires k.entries[src].frame in k.rc && rc.Cow?
    ensures var k2 := ShareCow(k, src, dst, rc); Frames(k2) && Zeroed(k2) && Numbered(k2)
  {
  }

  lemma ShareCowCounted(k: Kernel, src: Loc, dst: Loc, rc: RefCount)
    requires Counted(k.entries, k.rc) && FreshTarget(k, src, dst) && src in k.entries
    requires AddRef(k.rc[k.entries[src].frame], CowKind) == Added(rc)
    ensures Counted(ShareCow(k, src, dst, rc).entries, ShareCow(k, src, dst, rc).rc)
  {
    var f := k.entries[src].frame;
    SetProtection(k.entries, k.rc, src, false);
    GainReference(k.entries[src := Entry(f, false)], k.rc, dst, f, false, rc);
  }

  lemma ShareCowProtected(k: Kernel, src: Loc, dst: Loc, rc: RefCount)
    requires Counted(k.entries, k.rc) && Protected(k.entries, k.rc, k.attrs) && FreshTarget(k, src, dst) && src in k.entries
    requires AddRef(k.rc[k.entries[src].frame], CowKind) == Added(rc)
    ensures var k2 := ShareCow(k, src, dst, rc); Protected(k2.entries, k2.rc, k2.attrs)
  {
    var f := k.entries[src].frame;
    var k2 := ShareCow(k, src, dst, rc);
    forall l | l in k2.entries && k2.entries[l].write
      ensures k2.entries[l].frame in k2.rc ==> !k2.rc[k2.entries[l].frame].Cow?
    {
      if k.entries[l].frame == f {
        SoleReference(k.entries, k.rc, src, l);
      }
    }
  }

  lemma ShareCowKeeps(k: Kernel, e: Eager, src: Loc, dst: Loc, rc: RefCount)
    requires Inv(k) && Rel(k, e) && FreshTarget(k, src, dst) && src in k.entries && !k.attrs[src].shared
    requires AddRef(k.rc[k.entries[src].frame], CowKind) == Added(rc)
    ensures Inv(ShareCow(k, src, dst, rc)) && Rel(ShareCow(k, src, dst, rc), CopyCell(e, src, dst))
  {
    ShareCowInv(k, src, dst, rc);
    ShareCowLooks(k, e, src, dst, rc);
    hide Inv, Rel, View, ShareKey, ShareCow;
    NewCellKeeps(k, ShareCow(k, src, dst, rc), e, dst, k.attrs[src], View(k, src));
  }

  lemma ShareCowLooks(k: Kernel, e: Eager, src: Loc, dst: Loc, rc: RefCount)
    requires SameTables(k, e) && SameContents(k, e) && Numbered(k) && FreshTarget(k, src, dst) && src in k.entries && !k.attrs[src].shared
    requires k.entries[src].frame in k.rc && !k.rc[k.entries[src].frame].Shared? && !rc.Shared?
    ensures src in e.attrs && src in e.cellOf && dst !in e.cellOf
    ensures var k2 := ShareCow(k, src, dst, rc);
            && SameTables(k2, NewCell(e, dst, k.attrs[src], View(k, src)))
            && (forall l :: l in e.cellOf ==> View(k2, l) == View(k, l) && ShareKey(k2, l) == ShareKey(k, l))
            && View(k2, dst) == View(k, src) && ShareKey(k2, dst) == None
            && NewCell(e, dst, k.attrs[src], View(k, src)) == CopyCell(e, src, dst)
  {
  }

  /** `SharedToCow`: the source keeps its frame and the clone gets a copy of it. */
  function CopyOut(k: Kernel, src: Loc, dst: Loc): Kernel
    requires k.pool != [] && src in k.entries && src in k.attrs && k.entries[src].frame in k.mem
  {
    var f := k.entries[src].frame;
    var g := k.pool[0];
    k.(mem := k.mem[g := k.mem[f]], rc := k.rc[g := One], pool := k.pool[1..],
       entries := k.entries[src := Entry(f, false)][dst := Entry(g, false)],
       attrs := k.attrs[dst := k.attrs[src]])
  }

  lemma CopyOutInv(k: Kernel, src: Loc, dst: Loc)
    requires Inv(k) && FreshTarget(k, src, dst) && src in k.entries && k.pool != []
    ensures Inv(CopyOut(k, src, dst))
  {
    var f := k.entries[src].frame;
    SetProtection(k.entries, k.rc, src, false);
    FirstReference(k.entries[src := Entry(f, false)], k.rc, dst, k.pool[0], false);
  }

  lemma CopyOutKeeps(k: Kernel, e: Eager, src: Loc, dst: Loc)
    requires Inv(k) && Rel(k, e) && FreshTarget(k, src, dst) && src in k.entries && k.pool != []
    requires !k.attrs[src].shared
    ensures Inv(CopyOut(k, src, dst)) && Rel(CopyOut(k, src, dst), CopyCell(e, src, dst))
  {
    var k2 := CopyOut(k, src, dst);
    forall l | l in e.cellOf
      ensures View(k2, l) == View(k, l) && ShareKey(k2, l) == ShareKey(k, l)
    {
      assert k.pool[0] !in k.rc;
    }
    NewCellKeeps(k, k2, e, dst, k.attrs[src], View(k, src));
    CopyOutInv(k, src, dst);
  }

  /** The lost reference of a copy that ran out of frames. */
  function Lose(k: Kernel, src: Loc, rc: RefCount): Kernel
    requires src in k.entries
  {
    var f := k.entries[src].frame;
    k.(rc := k.rc[f := rc],
       entries := k.entries[src := Entry(f, false)][LostLoc(k.nextLost) := Entry(f, false)],
       nextLost := k.nextLost + 1)
  }

  lemma LoseCounted(k: Kernel, src: Loc, rc: RefCount)
    requires Inv(k) && src in k.entries && AddRef(k.rc[k.entries[src].frame], SharedKind) == Added(rc)
    ensures Counted(Lose(k, src, rc).entries, Lose(k, src, rc).rc)
  {
    var f := k.entries[src].frame;
    SetProtection(k.entries, k.rc, src, false);
    GainReference(k.entries[src := Entry(f, false)], k.rc, LostLoc(k.nextLost), f, false, rc);
  }

  lemma LoseInv(k: Kernel, src: Loc, rc: RefCount)
    requires Inv(k) && src.PageLoc? && src in k.entries
    requires k.rc[k.entries[src].frame].Shared?
    requires AddRef(k.rc[k.entries[src].frame], SharedKind) == Added(rc)
    ensures Inv(Lose(k, src, rc))
  {
    LoseCounted(k, src, rc);
    LoseRest(k, src, rc);
    hide Counted, Protected, Frames, Zeroed, Numbered, Lose;
  }

  lemma LoseRest(k: Kernel, src: Loc, rc: RefCount)
    requires src.PageLoc? && src in k.entries && k.entries[src].frame in k.rc
    requires Protected(k.entries, k.rc, k.attrs) && Frames(k) && Zeroed(k) && Numbered(k)
    requires k.rc[k.entries[src].frame].Shared? && rc.Shared?
    ensures var k2 := Lose(k, src, rc); Protected(k2.entries, k2.rc, k2.attrs) && Frames(k2) && Zeroed(k2) && Numbered(k2)
  {
  }

  lemma LoseLooks(k: Kernel, e: Eager, src: Loc, rc: RefCount)
    requires SameTables(k, e) && Numbered(k) && src.PageLoc? && src in k.entries && k.entries[src].frame in k.rc
    requires k.rc[k.entries[src].frame].Shared? && rc.Shared?
    ensures LooksLike(k, Lose(k, src, rc), e)
  {
  }

  lemma LoseKeeps(k: Kernel, e: Eager, src: Loc, rc: RefCount)
    requires Inv(k) && Rel(k, e) && src.PageLoc? && src in k.entries
    requires k.rc[k.entries[src].frame].Shared?
    requires AddRef(k.rc[k.entries[src].frame], SharedKind) == Added(rc)
    ensures Inv(Lose(k, src, rc)) && Rel(Lose(k, src, rc), e)
  {
    assert SameTables(k, e) && Numbered(k) && k.entries[src].frame in k.rc && rc.Shared?;
    hide Inv, Rel, LooksLike, Lose, AddRef, SameTables, Numbered;
    LoseInv(k, src, rc);
    LoseLooks(k, e, src, rc);
    LooksLikeKeeps(k, Lose(k, src, rc), e);
  }

  function ShareShared(k: Kernel, src: Loc, dst: Loc, rc: RefCount): Kernel
    requires src in k.entries && src in k.attrs
  {
    var f := k.entries[src].frame;
    k.(rc := k.rc[f := rc],
       entries := k.entries[dst := Entry(f, k.attrs[src].write)],
       attrs := k.attrs[dst := k.attrs[src]])
  }

  lemma ZeroIsNotOne(k: Kernel, src: Loc)
    requires Inv(k) && src in k.entries && src != ZeroLoc && k.entries[src].frame == k.zero
    ensures k.rc[k.zero].Cow?
  {
    TwoReferences(k.entries, k.rc, src, ZeroLoc);
  }

  lemma ShareSharedInv(k: Kernel, src: Loc, dst: Loc, rc: RefCount)
    requires Inv(k) && FreshTarget(k, src, dst) && src in k.entries
    requires AddRef(k.rc[k.entries[src].frame], SharedKind) == Added(rc)
    ensures Inv(ShareShared(k, src, dst, rc))
  {
    var f := k.entries[src].frame;
    if f == k.zero {
      ZeroIsNotOne(k, src);
    }
    GainReference(k.entries, k.rc, dst, f, k.attrs[src].write, rc);
  }

  /** A count of one that turns `Shared` had no other tracked location. */
  lemma BecomesShared(k: Kernel, e: Eager, src: Loc)
    requires Inv(k) && Rel(k, e) && src in k.entries && k.rc[k.entries[src].frame].One?
    ensures forall l :: l in e.cellOf && l != src ==> l !in k.entries || k.entries[l].frame != k.entries[src].frame
  {
    forall l | l in e.cellOf && l != src && l in k.entries
      ensures k.entries[l].frame != k.entries[src].frame
    {
      if k.entries[l].frame == k.entries[src].frame {
        SoleReference(k.entries, k.rc, src, l);
      }
    }
  }

  lemma ShareSharedKeeps(k: Kernel, e: Eager, src: Loc, dst: Loc, rc: RefCount)
    requires Inv(k) && Rel(k, e) && FreshTarget(k, src, dst) && src in k.entries && k.attrs[src].shared
    requires AddRef(k.rc[k.entries[src].frame], SharedKind) == Added(rc)
    ensures Inv(ShareShared(k, src, dst, rc)) && Rel(ShareShared(k, src, dst, rc), CopyCell(e, src, dst))
  {
    var k2 := ShareShared(k, src, dst, rc);
    if k.rc[k.entries[src].frame].One? {
      BecomesShared(k, e, src);
    }
    AliasKeeps(k, k2, e, CopyCell(e, src, dst), src, dst, k.entries[src].frame);
    ShareSharedInv(k, src, dst, rc);
  }

  /** `CowToShared`: both pages move to a new frame that starts out shared by the two. */
  function MoveShared(k: Kernel, src: Loc, dst: Loc): Kernel
    requires k.pool != [] && src in k.entries && src in k.attrs
    requires k.entries[src].frame in k.mem && k.entries[src].frame in k.rc
  {
    var f := k.entries[src].frame;
    var g := k.pool[0];
    k.(mem := k.mem[g := k.mem[f]],
       rc := AfterRemoval(k.rc, f)[g := Shared(2)], pool := k.pool[1..],
       entries := k.entries[src := Entry(g, k.entries[src].write)][dst := Entry(g, k.attrs[src].write)],
       attrs := k.attrs[dst := k.attrs[src]])
  }

  lemma MoveSharedCounted(k: Kernel, src: Loc, dst: Loc)
    requires Inv(k) && FreshTarget(k, src, dst) && src in k.entries && k.pool != []
    requires k.rc[k.entries[src].frame].Cow?
    ensures Counted(MoveShared(k, src, dst).entries, MoveShared(k, src, dst).rc)
  {
    var f := k.entries[src].frame;
    var g := k.pool[0];
    var w := k.entries[src].write;
    var rest := k.entries - {src};
    var rc := AfterRemoval(k.rc, f);
    LoseReference(k.entries, k.rc, src);
    FirstReference(rest, rc, src, g, w);
    assert rest[src := Entry(g, w)] == k.entries[src := Entry(g, w)];
    GainReference(rest[src := Entry(g, w)], rc[g := One], dst, g, k.attrs[src].write, Shared(2));
    assert rc[g := One][g := Shared(2)] == rc[g := Shared(2)];
  }

  lemma MoveSharedInv(k: Kernel, src: Loc, dst: Loc)
    requires Inv(k) && FreshTarget(k, src, dst) && src in k.entries && k.pool != []
    requires k.rc[k.entries[src].frame].Cow?
    ensures Inv(MoveShared(k, src, dst))
  {
    MoveSharedCounted(k, src, dst);
  }

  lemma MoveSharedKeeps(k: Kernel, e: Eager, src: Loc, dst: Loc)
    requires Inv(k) && Rel(k, e) && FreshTarget(k, src, dst) && src in k.entries && k.pool != []
    requires k.rc[k.entries[src].frame].Cow? && k.attrs[src].shared
    ensures Inv(MoveShared(k, src, dst)) && Rel(MoveShared(k, src, dst), CopyCell(e, src, dst))
  {
    var k2 := MoveShared(k, src, dst);
    forall l | l in e.cellOf && l != src
      ensures View(k2, l) == View(k, l) && ShareKey(k2, l) == ShareKey(k, l)
    {
      assert k.pool[0] !in k.rc;
    }
    AliasKeeps(k, k2, e, CopyCell(e, src, dst), src, dst, k.pool[0]);
    MoveSharedInv(k, src, dst);
  }
}
