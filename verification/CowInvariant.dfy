/**
 The invariant of the copy-on-write kernel, and how each change of a reference keeps it.

 It contains what `check_consistency` (src/debugger.rs) asserts: a mapped frame has a count, a
 copy-on-write frame is never writable, and no entry is more permissive than its grant. It adds
 that every count is exact.
 */
module CowInvariant {
  import opened Common
  import opened RefCounts
  import opened CowModel

  ghost function Refs(entries: map<Loc, Entry>, f: nat): set<Loc> {
    set l | l in entries && entries[l].frame == f
  }

  ghost predicate Counted(entries: map<Loc, Entry>, rc: map<nat, RefCount>) {
    && (forall l :: l in entries ==> entries[l].frame in rc)
    && (forall f :: f in rc ==> WellFormed(rc[f]) && |Refs(entries, f)| == Count(rc[f]))
  }

  ghost predicate Protected(entries: map<Loc, Entry>, rc: map<nat, RefCount>, attrs: map<Loc, Attr>) {
    forall l :: l in entries && entries[l].write ==>
      && (entries[l].frame in rc ==> !rc[entries[l].frame].Cow?)
      && (l in attrs ==> attrs[l].write)
  }

  ghost predicate Frames(k: Kernel) {
    && (forall i, j | 0 <= i < j < |k.pool| :: k.pool[i] != k.pool[j])
    && (forall f :: f in k.mem <==> f in k.rc || f in k.pool)
    && (forall f :: f in k.pool ==> f !in k.rc)
  }

  ghost predicate Zeroed(k: Kernel) {
    && ZeroLoc in k.entries && k.entries[ZeroLoc] == Entry(k.zero, false)
    && k.zero in k.rc && !k.rc[k.zero].Shared?
    && k.zero in k.mem && k.mem[k.zero] == ZeroPage()
  }

  /** Numbers given out so far are below the counters; grants and handles are where they belong. */
  ghost predicate Numbered(k: Kernel) {
    && (forall l :: l in k.attrs ==> l.PageLoc? && l.space < k.nextSpace)
    && (forall l :: l in k.entries ==>
          match l
          case PageLoc(s, _) => s < k.nextSpace && (s in k.spaces ==> l in k.attrs)
          case HandleLoc(h) => h < k.nextHandle && k.entries[l].write
          case LostLoc(i) => i < k.nextLost
          case ZeroLoc => true)
    && (forall s :: s in k.spaces ==> s < k.nextSpace)
  }

  ghost predicate Inv(k: Kernel) {
    && Counted(k.entries, k.rc)
    && Protected(k.entries, k.rc, k.attrs)
    && Frames(k)
    && Zeroed(k)
    && Numbered(k)
  }

  // ----- counting -----

  lemma RefsOfUpdate(entries: map<Loc, Entry>, l: Loc, e: Entry, f: nat)
    ensures Refs(entries[l := e], f) ==
            (if e.frame == f then Refs(entries, f) + {l} else Refs(entries, f) - {l})
  {
  }

  lemma RefsOfRemoval(entries: map<Loc, Entry>, l: Loc, f: nat)
    ensures Refs(entries - {l}, f) == Refs(entries, f) - {l}
  {
  }

  lemma SoleReference(entries: map<Loc, Entry>, rc: map<nat, RefCount>, l1: Loc, l2: Loc)
    requires Counted(entries, rc)
    requires l1 in entries && l2 in entries && entries[l1].frame == entries[l2].frame
    requires rc[entries[l1].frame].One?
    ensures l1 == l2
  {
    var f := entries[l1].frame;
    var rest := Refs(entries, f) - {l1};
    assert |rest| == 0;
    assert l1 != l2 ==> l2 in rest;
  }

  lemma TwoReferences(entries: map<Loc, Entry>, rc: map<nat, RefCount>, l1: Loc, l2: Loc)
    requires Counted(entries, rc)
    requires l1 in entries && l2 in entries && l1 != l2 && entries[l1].frame == entries[l2].frame
    ensures !rc[entries[l1].frame].One?
  {
    if rc[entries[l1].frame].One? {
      SoleReference(entries, rc, l1, l2);
    }
  }

  /** A reference gained: the new location counts once. */
  lemma GainReference(entries: map<Loc, Entry>, rc: map<nat, RefCount>, l: Loc, f: nat, w: bool, new': RefCount)
    requires Counted(entries, rc) && l !in entries && f in rc
    requires WellFormed(new') && Count(new') == Count(rc[f]) + 1
    ensures Counted(entries[l := Entry(f, w)], rc[f := new'])
  {
    forall g | g in rc
      ensures |Refs(entries[l := Entry(f, w)], g)| == Count(rc[f := new'][g])
    {
      RefsOfUpdate(entries, l, Entry(f, w), g);
      assert l !in Refs(entries, g);
      if g != f {
        assert Refs(entries, g) - {l} == Refs(entries, g);
      }
    }
  }

  /** A frame fresh from the allocator has the one reference that is made to it. */
  lemma FirstReference(entries: map<Loc, Entry>, rc: map<nat, RefCount>, l: Loc, f: nat, w: bool)
    requires Counted(entries, rc) && l !in entries && f !in rc
    ensures Counted(entries[l := Entry(f, w)], rc[f := One])
  {
    forall g | g in rc || g == f
      ensures |Refs(entries[l := Entry(f, w)], g)| == Count(rc[f := One][g])
    {
      RefsOfUpdate(entries, l, Entry(f, w), g);
      assert l !in Refs(entries, g);
      if g == f {
        assert Refs(entries, g) == {};
        assert Refs(entries, g) + {l} == {l};
      } else {
        assert Refs(entries, g) - {l} == Refs(entries, g);
      }
    }
  }

  function AfterRemoval(rc: map<nat, RefCount>, f: nat): map<nat, RefCount>
    requires f in rc
  {
    match RemoveRef(rc[f])
    case None => rc - {f}
    case Some(r) => rc[f := r]
  }

  /** A reference lost: the count drops with it, and the frame is freed exactly with its last one. */
  lemma LoseReference(entries: map<Loc, Entry>, rc: map<nat, RefCount>, l: Loc)
    requires Counted(entries, rc) && l in entries
    ensures Counted(entries - {l}, AfterRemoval(rc, entries[l].frame))
    ensures entries[l].frame in AfterRemoval(rc, entries[l].frame) <==>
            Refs(entries - {l}, entries[l].frame) != {}
  {
    var f := entries[l].frame;
    forall g | g in rc
      ensures |Refs(entries - {l}, g)| == Count(rc[g]) - (if g == f then 1 else 0)
    {
      RefsOfRemoval(entries, l, g);
      if g == f {
        assert l in Refs(entries, g);
      } else {
        assert Refs(entries, g) - {l} == Refs(entries, g);
      }
    }
    assert rc[f].One? ==> Refs(entries - {l}, f) == {};
    forall m | m in entries - {l}
      ensures (entries - {l})[m].frame in AfterRemoval(rc, f)
    {
      if entries[m].frame == f {
        assert m in Refs(entries - {l}, f);
      }
    }
  }

  /** Changing the protection of an entry moves no reference. */
  lemma SetProtection(entries: map<Loc, Entry>, rc: map<nat, RefCount>, l: Loc, w: bool)
    requires Counted(entries, rc) && l in entries
    ensures Counted(entries[l := entries[l].(write := w)], rc)
  {
    forall g | g in rc
      ensures Refs(entries[l := entries[l].(write := w)], g) == Refs(entries, g)
    {
    }
  }
}
