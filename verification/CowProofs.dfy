/**
 Lazy sharing behaves like eager copying.

 `Rel` relates a kernel state to an eager state: every page reads the same in both, and two pages
 (or borrowed frames) are one cell exactly when they share a frame whose count is of kind `Shared`.
 Each step of the kernel keeps the invariant and the relation.
 */
module CowProofs {
  import opened Common
  import opened RefCounts
  import opened CowModel
  import opened CowEager
  import opened CowInvariant

  predicate Tracked(k: Kernel, l: Loc) {
    l in k.attrs || (l.HandleLoc? && l in k.entries)
  }

  /** The frame through which a location shares writes with others, if it does. */
  function ShareKey(k: Kernel, l: Loc): Option<nat> {
    if l in k.entries && k.entries[l].frame in k.rc && k.rc[k.entries[l].frame].Shared?
    then Some(k.entries[l].frame) else None
  }

  ghost predicate SameTables(k: Kernel, e: Eager) {
    && e.attrs == k.attrs && e.spaces == k.spaces
    && e.nextSpace == k.nextSpace && e.nextHandle == k.nextHandle
    && (forall l :: l in e.cellOf <==> Tracked(k, l))
  }

  ghost predicate SameContents(k: Kernel, e: Eager) {
    forall l :: l in e.cellOf ==>
      e.cellOf[l] < e.nextCell && e.cellOf[l] in e.cells && e.cells[e.cellOf[l]] == View(k, l)
  }

  ghost predicate SameAliases(k: Kernel, e: Eager) {
    forall l1, l2 :: l1 in e.cellOf && l2 in e.cellOf && l1 != l2 ==>
      (e.cellOf[l1] == e.cellOf[l2] <==> ShareKey(k, l1).Some? && ShareKey(k, l1) == ShareKey(k, l2))
  }

  ghost predicate Rel(k: Kernel, e: Eager) {
    SameTables(k, e) && SameContents(k, e) && SameAliases(k, e)
  }

  // ----- single references -----

  /** What an eager state sees of a kernel state; two kernels that agree here are related alike. */
  ghost predicate LooksLike(k: Kernel, k2: Kernel, e: Eager) {
    && k2.attrs == k.attrs && k2.spaces == k.spaces
    && k2.nextSpace == k.nextSpace && k2.nextHandle == k.nextHandle
    && (forall l :: l in e.cellOf && l.HandleLoc? ==> l in k2.entries)
    && (forall l :: l in k2.entries && l.HandleLoc? ==> l in k.entries)
    && (forall l :: l in e.cellOf ==> View(k2, l) == View(k, l) && ShareKey(k2, l) == ShareKey(k, l))
  }

  lemma LooksLikeKeeps(k: Kernel, k2: Kernel, e: Eager)
    requires Rel(k, e) && LooksLike(k, k2, e)
    ensures Rel(k2, e)
  {
  }

  /** A page without an entry gets a fresh zeroed frame: nothing that can be read changes. */
  function Fill(k: Kernel, l: Loc): Kernel
    requires k.pool != [] && l in k.attrs
  {
    var k1 := InitFrame(k, One).value.0;
    k1.(entries := k1.entries[l := Entry(k.pool[0], k.attrs[l].write)])
  }

  lemma FillInv(k: Kernel, l: Loc)
    requires Inv(k) && l in k.attrs && l !in k.entries && k.pool != []
    ensures Inv(Fill(k, l))
  {
    FirstReference(k.entries, k.rc, l, k.pool[0], k.attrs[l].write);
  }

  lemma FillKeeps(k: Kernel, e: Eager, l: Loc)
    requires Inv(k) && Rel(k, e) && l in k.attrs && l !in k.entries && k.pool != []
    ensures Inv(Fill(k, l)) && Rel(Fill(k, l), e) && View(Fill(k, l), l) == View(k, l)
  {
    FillInv(k, l);
    assert LooksLike(k, Fill(k, l), e);
    LooksLikeKeeps(k, Fill(k, l), e);
  }

  /** Changing only the protection of an entry, within what the count and the grant allow. */
  function Protect(k: Kernel, l: Loc, w: bool): Kernel
    requires l in k.entries
  {
    k.(entries := k.entries[l := Entry(k.entries[l].frame, w)])
  }

  lemma ProtectKeeps(k: Kernel, e: Eager, l: Loc, w: bool)
    requires Inv(k) && Rel(k, e) && l in k.entries && l.PageLoc?
    requires w ==> !k.rc[k.entries[l].frame].Cow? && (l in k.attrs ==> k.attrs[l].write)
    ensures Inv(Protect(k, l, w)) && Rel(Protect(k, l, w), e)
    ensures forall m :: View(Protect(k, l, w), m) == View(k, m)
  {
    ProtectInv(k, l, w);
    ProtectLooks(k, e, l, w);
    hide Inv, Rel, LooksLike, View;
    LooksLikeKeeps(k, Protect(k, l, w), e);
  }

  lemma ProtectInv(k: Kernel, l: Loc, w: bool)
    requires Inv(k) && l in k.entries && l.PageLoc?
    requires w ==> !k.rc[k.entries[l].frame].Cow? && (l in k.attrs ==> k.attrs[l].write)
    ensures Inv(Protect(k, l, w))
  {
    SetProtection(k.entries, k.rc, l, w);
    hide Counted;
  }

  lemma ProtectLooks(k: Kernel, e: Eager, l: Loc, w: bool)
    requires l in k.entries && l.PageLoc? && SameTables(k, e) && Numbered(k)
    ensures LooksLike(k, Protect(k, l, w), e)
    ensures forall m :: View(Protect(k, l, w), m) == View(k, m)
  {
  }

  /** The write fault on a copy-on-write page: it moves to a private copy. */
  function BreakCow(k: Kernel, l: Loc): Kernel
    requires k.pool != [] && l in k.entries && k.entries[l].frame in k.rc && k.entries[l].frame in k.mem
  {
    var f := k.entries[l].frame;
    var g := k.pool[0];
    k.(mem := k.mem[g := k.mem[f]],
       rc := AfterRemoval(k.rc, f)[g := One],
       pool := k.pool[1..],
       entries := k.entries[l := Entry(g, true)])
  }

  lemma BreakCowCounted(k: Kernel, l: Loc)
    requires Inv(k) && l in k.entries && k.pool != [] && k.rc[k.entries[l].frame].Cow?
    ensures Counted(BreakCow(k, l).entries, BreakCow(k, l).rc)
    ensures k.entries[l].frame in AfterRemoval(k.rc, k.entries[l].frame) && !AfterRemoval(k.rc, k.entries[l].frame)[k.entries[l].frame].Shared?
  {
    var f := k.entries[l].frame;
    var g := k.pool[0];
    LoseReference(k.entries, k.rc, l);
    FirstReference(k.entries - {l}, AfterRemoval(k.rc, f), l, g, true);
    assert (k.entries - {l})[l := Entry(g, true)] == BreakCow(k, l).entries;
  }

  lemma BreakCowTables(k: Kernel, l: Loc)
    requires l in k.entries && l in k.attrs && k.attrs[l].write && k.pool != [] && k.entries[l].frame in k.rc && k.entries[l].frame in k.mem
    requires Protected(k.entries, k.rc, k.attrs) && Numbered(k) && k.pool[0] !in k.rc && k.rc[k.entries[l].frame].Cow?
    requires forall m :: m in k.entries ==> k.entries[m].frame in k.rc
    ensures Protected(BreakCow(k, l).entries, BreakCow(k, l).rc, BreakCow(k, l).attrs)
    ensures Numbered(BreakCow(k, l))
  {
  }

  lemma BreakCowFrames(k: Kernel, l: Loc)
    requires l in k.entries && l != ZeroLoc && k.pool != [] && k.entries[l].frame in k.rc && k.entries[l].frame in k.mem
    requires Frames(k) && Zeroed(k) && k.rc[k.entries[l].frame].Cow? && k.rc[k.entries[l].frame].n >= 2
    requires k.entries[l].frame in AfterRemoval(k.rc, k.entries[l].frame) && !AfterRemoval(k.rc, k.entries[l].frame)[k.entries[l].frame].Shared?
    ensures Frames(BreakCow(k, l)) && Zeroed(BreakCow(k, l))
  {
  }

  lemma BreakCowInv(k: Kernel, l: Loc)
    requires Inv(k) && l in k.entries && l in k.attrs && k.attrs[l].write && k.pool != []
    requires k.rc[k.entries[l].frame].Cow?
    ensures Inv(BreakCow(k, l))
  {
    BreakCowCounted(k, l);
    BreakCowTables(k, l);
    BreakCowFrames(k, l);
    hide Counted, Protected, Frames, Zeroed, Numbered, BreakCow;
  }

  lemma BreakCowKeeps(k: Kernel, e: Eager, l: Loc)
    requires Inv(k) && Rel(k, e) && l in k.entries && l in k.attrs && k.attrs[l].write && k.pool != []
    requires k.rc[k.entries[l].frame].Cow?
    ensures Inv(BreakCow(k, l)) && Rel(BreakCow(k, l), e) && View(BreakCow(k, l), l) == View(k, l)
  {
    var k2 := BreakCow(k, l);
    forall m | m in e.cellOf
      ensures View(k2, m) == View(k, m) && ShareKey(k2, m) == ShareKey(k, m)
    {
      assert k.pool[0] !in k.rc;
    }
    LooksLikeKeeps(k, k2, e);
    BreakCowInv(k, l);
  }

  /** The code's order of allocating, copying, remapping and freeing amounts to `BreakCow`. */
  lemma BreakCowIsCode(k: Kernel, l: Loc)
    requires Inv(k) && l in k.entries && l in k.attrs && k.attrs[l].write
    requires k.rc[k.entries[l].frame].Cow?
    ensures CorrectInner(k, l, WriteAccess) ==
            if k.pool == [] then FaultOom else Corrected(BreakCow(k, l))
  {
    var f := k.entries[l].frame;
    if k.pool != [] {
      var g := k.pool[0];
      assert g !in k.rc by {
        assert g in k.pool;
      }
      assert k.rc[g := One][f := RemoveRef(k.rc[f]).value] == AfterRemoval(k.rc, f)[g := One];
      assert k.mem[g := ZeroPage()][g := k.mem[f]] == k.mem[g := k.mem[f]];
    }
  }

  /** An allowed access needs a free frame and there is none: the page has no frame yet, or is
      written while its frame is copy-on-write. */
  predicate FaultShort(k: Kernel, l: Loc, access: Access)
    requires Sound(k)
  {
    && l in k.attrs && (access.WriteAccess? ==> k.attrs[l].write) && (access.FetchAccess? ==> k.attrs[l].exec)
    && k.pool == []
    && (l !in k.entries || (access.WriteAccess? && k.rc[k.entries[l].frame].Cow?))
  }

  lemma FaultKeeps(k: Kernel, e: Eager, l: Loc, access: Access)
    requires Inv(k) && Rel(k, e) && l.PageLoc?
    ensures Sound(k) && (CorrectInner(k, l, access).FaultOom? <==> FaultShort(k, l, access))
    // refused exactly when there is no grant, or the grant does not allow the access
    ensures CorrectInner(k, l, access).FaultSegv? <==>
            l !in k.attrs || (access.WriteAccess? && !k.attrs[l].write) || (access.FetchAccess? && !k.attrs[l].exec)
    ensures CorrectInner(k, l, access).Corrected? ==>
              var k1 := CorrectInner(k, l, access).k;
              && Inv(k1) && Rel(k1, e) && l in k1.entries && View(k1, l) == View(k, l)
              // the entry is writable as far as the grant allows, unless the frame is copy-on-write
              && k1.entries[l].frame in k1.rc && (k1.entries[l].write <==> k.attrs[l].write && !k1.rc[k1.entries[l].frame].Cow?)
              && (access.WriteAccess? ==> k1.entries[l].write)
  {
    if l !in k.attrs || !Permits(k.attrs[l], access) {
    } else if l !in k.entries {
      if k.pool != [] {
        FillKeeps(k, e, l);
        assert CorrectInner(k, l, access) == Corrected(Fill(k, l));
      }
    } else {
      var f := k.entries[l].frame;
      if !access.WriteAccess? {
        ProtectKeeps(k, e, l, k.attrs[l].write && AllowsWritable(k.rc[f]));
      } else if AllowsWritable(k.rc[f]) {
        ProtectKeeps(k, e, l, true);
      } else {
        BreakCowIsCode(k, l);
        if k.pool != [] {
          BreakCowKeeps(k, e, l);
        }
      }
    }
  }
}
