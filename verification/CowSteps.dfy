/**
 Unmapping, stores, zeroed mappings and borrowed frames against the eager specification.
 */
module CowSteps {
  import opened Common
  import opened RefCounts
  import opened CowModel
  import opened CowEager
  import opened CowInvariant
  import opened CowProofs
  import opened CowCopy

  // ----- dropping a location -----

  /** The state after `l` has given up its reference and its grant. */
  function Dropped(k: Kernel, l: Loc): Kernel
    requires l in k.entries && k.entries[l].frame in k.rc
  {
    var f := k.entries[l].frame;
    k.(entries := k.entries - {l}, attrs := k.attrs - {l}, rc := AfterRemoval(k.rc, f),
       pool := if k.rc[f].One? then [f] + k.pool else k.pool)
  }

  lemma DroppedIsCode(k: Kernel, l: Loc)
    requires Inv(k) && l in k.entries
    ensures DropPage(k, l) == Dropped(k, l)
  {
  }

  lemma DropInv(k: Kernel, l: Loc)
    requires Inv(k) && (l.PageLoc? || l.HandleLoc?) && l in k.entries
    ensures Inv(Dropped(k, l))
  {
    LoseReference(k.entries, k.rc, l);
    if k.entries[l].frame == k.zero {
      ZeroIsNotOne(k, l);
    }
    DropRest(k, l);
    hide Counted, Protected, Frames, Zeroed, Numbered;
  }

  lemma DropRest(k: Kernel, l: Loc)
    requires (l.PageLoc? || l.HandleLoc?) && l in k.entries && k.entries[l].frame in k.rc && WellFormed(k.rc[k.entries[l].frame])
    requires k.entries[l].frame == k.zero ==> k.rc[k.zero].Cow?
    requires Protected(k.entries, k.rc, k.attrs) && Frames(k) && Zeroed(k) && Numbered(k)
    ensures var k2 := Dropped(k, l);
            Protected(k2.entries, k2.rc, k2.attrs) && Frames(k2) && Zeroed(k2) && Numbered(k2)
  {
  }

  /** Another location keeps its share key, unless the frame is no longer `Shared`. */
  lemma DropKey(k: Kernel, l: Loc, m: Loc)
    requires l in k.entries && k.entries[l].frame in k.rc && m != l
    ensures var f := k.entries[l].frame;
            var rc := AfterRemoval(k.rc, f);
            ShareKey(Dropped(k, l), m) ==
            if ShareKey(k, m) == Some(f) && !(f in rc && rc[f].Shared?) then None else ShareKey(k, m)
  {
  }

  /** Two other locations share a frame after the drop exactly if they did before: had they shared
      the frame of `l`, its count was at least three. */
  lemma DropPair(k: Kernel, l: Loc, l1: Loc, l2: Loc)
    requires Counted(k.entries, k.rc) && l in k.entries && l1 != l2 && l1 != l && l2 != l
    ensures ShareKey(Dropped(k, l), l1).Some? && ShareKey(Dropped(k, l), l1) == ShareKey(Dropped(k, l), l2) <==>
            ShareKey(k, l1).Some? && ShareKey(k, l1) == ShareKey(k, l2)
  {
    var f := k.entries[l].frame;
    DropKey(k, l, l1);
    DropKey(k, l, l2);
    if ShareKey(k, l1) == Some(f) && ShareKey(k, l2) == Some(f) {
      ThreeReferences(k.entries, k.rc, l, l1, l2);
    }
  }

  lemma ThreeReferences(entries: map<Loc, Entry>, rc: map<nat, RefCount>, l: Loc, l1: Loc, l2: Loc)
    requires Counted(entries, rc) && l in entries && l1 in entries && l2 in entries
    requires l != l1 && l != l2 && l1 != l2
    requires entries[l].frame == entries[l1].frame == entries[l2].frame
    ensures Count(rc[entries[l].frame]) >= 3
  {
    var all := Refs(entries, entries[l].frame);
    assert {l, l1, l2} <= all;
    assert |all - {l, l1, l2}| == |all| - |{l, l1, l2}|;
  }

  lemma DropAliasPair(k: Kernel, e: Eager, l: Loc, l1: Loc, l2: Loc)
    requires Inv(k) && SameAliases(k, e) && l in k.entries
    requires l1 in e.cellOf && l2 in e.cellOf && l1 != l2 && l1 != l && l2 != l
    ensures k.entries[l].frame in k.rc
    ensures e.cellOf[l1] == e.cellOf[l2] <==>
            ShareKey(Dropped(k, l), l1).Some? && ShareKey(Dropped(k, l), l1) == ShareKey(Dropped(k, l), l2)
  {
    DropPair(k, l, l1, l2);
  }

  lemma DropAliases(k: Kernel, e: Eager, l: Loc)
    requires Inv(k) && SameAliases(k, e) && l in k.entries
    ensures SameAliases(Dropped(k, l), DropCell(e, l))
  {
    var k1, e1 := Dropped(k, l), DropCell(e, l);
    assert forall m :: m in e1.cellOf ==> m in e.cellOf && m != l && e1.cellOf[m] == e.cellOf[m];
    hide Inv, ShareKey, Dropped, DropCell;
    forall l1, l2 | l1 in e1.cellOf && l2 in e1.cellOf && l1 != l2
      ensures e1.cellOf[l1] == e1.cellOf[l2] <==> ShareKey(k1, l1).Some? && ShareKey(k1, l1) == ShareKey(k1, l2)
    {
      DropAliasPair(k, e, l, l1, l2);
    }
  }

  lemma DropContents(k: Kernel, e: Eager, l: Loc)
    requires l in k.entries && k.entries[l].frame in k.rc && SameContents(k, e)
    ensures SameContents(Dropped(k, l), DropCell(e, l))
  {
  }

  lemma DropTables(k: Kernel, e: Eager, l: Loc)
    requires l in k.entries && k.entries[l].frame in k.rc && SameTables(k, e)
    ensures SameTables(Dropped(k, l), DropCell(e, l))
  {
  }

  lemma DropKeeps(k: Kernel, e: Eager, l: Loc)
    requires Inv(k) && Rel(k, e) && (l.PageLoc? || l.HandleLoc?)
    requires l in k.entries ==> l in e.cellOf
    ensures Inv(DropPage(k, l)) && Rel(DropPage(k, l), DropCell(e, l))
  {
    if l in k.entries {
      DroppedIsCode(k, l);
      DropInv(k, l);
      DropAliases(k, e, l);
      DropContents(k, e, l);
      DropTables(k, e, l);
    } else {
      DropAbsent(k, e, l);
    }
  }

  lemma DropAbsent(k: Kernel, e: Eager, l: Loc)
    requires Inv(k) && Rel(k, e) && l !in k.entries
    ensures Inv(DropPage(k, l)) && Rel(DropPage(k, l), DropCell(e, l))
  {
    assert forall m :: View(DropPage(k, l), m) == View(k, m) && ShareKey(DropPage(k, l), m) == ShareKey(k, m);
  }

  lemma {:induction false} DropPagesKeeps(k: Kernel, e: Eager, s: nat, pages: seq<nat>)
    requires Inv(k) && Rel(k, e)
    requires forall p :: p in pages && PageLoc(s, p) in k.entries ==> PageLoc(s, p) in k.attrs
    ensures Inv(DropPages(k, s, pages)) && Rel(DropPages(k, s, pages), DropCells(e, s, pages))
    decreases |pages|
  {
    if pages != [] {
      var l := PageLoc(s, pages[0]);
      assert pages[0] in pages;
      DropKeeps(k, e, l);
      assert forall p :: p in pages[1..] ==> p in pages;
      DropPagesKeeps(DropPage(k, l), DropCell(e, l), s, pages[1..]);
    }
  }

  /** Losing only the grant of a page whose space is not live: its reference stays. */
  lemma OrphanOneKeeps(k: Kernel, e: Eager, t: nat, p: nat)
    requires Inv(k) && Rel(k, e) && t !in k.spaces
    ensures var k2 := k.(attrs := k.attrs - {PageLoc(t, p)});
            Inv(k2) && Rel(k2, DropCell(e, PageLoc(t, p)))
  {
    var k2 := k.(attrs := k.attrs - {PageLoc(t, p)});
    assert forall m :: View(k2, m) == View(k, m) && ShareKey(k2, m) == ShareKey(k, m);
  }

  lemma {:induction false} OrphanKeeps(k: Kernel, e: Eager, t: nat, pages: seq<nat>)
    requires Inv(k) && Rel(k, e) && t !in k.spaces
    ensures Inv(Orphan(k, t, pages)) && Rel(Orphan(k, t, pages), DropCells(e, t, pages))
    decreases |pages|
  {
    if pages != [] {
      OrphanOneKeeps(k, e, t, pages[0]);
      OrphanKeeps(k.(attrs := k.attrs - {PageLoc(t, pages[0])}), DropCell(e, PageLoc(t, pages[0])), t, pages[1..]);
    }
  }

  // ----- stores -----

  lemma StoreInv(k: Kernel, l: Loc, off: nat, v: Byte)
    requires Inv(k) && l in k.entries && k.entries[l].write
    ensures Inv(StoreAt(k, l, off, v))
  {
    if k.entries[l].frame == k.zero {
      ZeroIsNotOne(k, l);
      assert false;
    }
  }

  /** The other locations on the frame of a writable location are in its cell. */
  lemma StoreReaches(k: Kernel, e: Eager, l: Loc, m: Loc)
    requires Inv(k) && Rel(k, e) && l in e.cellOf && m in e.cellOf && l in k.entries && k.entries[l].write
    ensures m in k.entries && k.entries[m].frame == k.entries[l].frame <==> e.cellOf[m] == e.cellOf[l]
  {
    if m != l && m in k.entries && k.entries[m].frame == k.entries[l].frame {
      TwoReferences(k.entries, k.rc, l, m);
    }
  }

  /** A store through a writable location changes exactly the locations in its cell. */
  lemma StoreKeeps(k: Kernel, e: Eager, l: Loc, off: nat, v: Byte)
    requires Inv(k) && Rel(k, e) && l in e.cellOf && l in k.entries && k.entries[l].write
    ensures Inv(StoreAt(k, l, off, v)) && Rel(StoreAt(k, l, off, v), WriteCell(e, l, off, v))
  {
    StoreInv(k, l, off, v);
    forall m | m in e.cellOf
      ensures m in k.entries && k.entries[m].frame == k.entries[l].frame <==> e.cellOf[m] == e.cellOf[l]
    {
      StoreReaches(k, e, l, m);
    }
    StoreRel(k, e, l, off, v);
  }

  lemma StoreRel(k: Kernel, e: Eager, l: Loc, off: nat, v: Byte)
    requires Rel(k, e) && l in e.cellOf && l in k.entries && k.entries[l].frame in k.mem
    requires forall m :: m in e.cellOf ==>
               (m in k.entries && k.entries[m].frame == k.entries[l].frame <==> e.cellOf[m] == e.cellOf[l])
    ensures Rel(StoreAt(k, l, off, v), WriteCell(e, l, off, v))
  {
    assert forall m :: ShareKey(StoreAt(k, l, off, v), m) == ShareKey(k, m);
  }

  // ----- zeroed mappings -----

  lemma GrantOneKeeps(k: Kernel, e: Eager, l: Loc, attr: Attr)
    requires Inv(k) && Rel(k, e) && l.PageLoc? && l.space < k.nextSpace
    requires l !in k.attrs && l !in k.entries
    ensures var k2 := k.(attrs := k.attrs[l := attr]);
            Inv(k2) && Rel(k2, NewCell(e, l, attr, ZeroPage()))
  {
    NewCellKeeps(k, k.(attrs := k.attrs[l := attr]), e, l, attr, ZeroPage());
  }

  /** A page of a live space without a grant is not mapped. */
  lemma NotMapped(k: Kernel, l: Loc)
    requires Inv(k) && l.PageLoc? && l.space in k.spaces && l !in k.attrs
    ensures l !in k.entries && l.space < k.nextSpace
  {
  }

  lemma {:induction false} GrantPagesKeeps(k: Kernel, e: Eager, s: nat, base: nat, count: nat, attr: Attr)
    requires Inv(k) && Rel(k, e) && s in k.spaces && NoConflict(k.attrs, s, base, count)
    ensures var k2 := k.(attrs := GrantPages(k.attrs, s, base, count, attr));
            Inv(k2) && Rel(k2, ZeroCells(e, s, base, count, attr))
    ensures forall p | base <= p < base + count ::
              PageLoc(s, p) in GrantPages(k.attrs, s, base, count, attr) && PageLoc(s, p) !in k.entries
    ensures forall l :: l in k.attrs ==> l in GrantPages(k.attrs, s, base, count, attr)
    decreases count
  {
    GrantPagesAdd(k.attrs, s, base, count, attr);
    forall p | base <= p < base + count
      ensures PageLoc(s, p) !in k.entries
    {
      NotMapped(k, PageLoc(s, p));
    }
    if count > 0 {
      var l := PageLoc(s, base);
      NotMapped(k, l);
      hide Inv, Rel;
      GrantOneKeeps(k, e, l, attr);
      GrantPagesKeeps(k.(attrs := k.attrs[l := attr]), NewCell(e, l, attr, ZeroPage()), s, base + 1, count - 1, attr);
    }
  }

  lemma {:induction false} GrantPagesAdd(attrs: map<Loc, Attr>, s: nat, base: nat, count: nat, attr: Attr)
    ensures forall p | base <= p < base + count :: PageLoc(s, p) in GrantPages(attrs, s, base, count, attr)
    ensures forall l :: l in attrs ==> l in GrantPages(attrs, s, base, count, attr)
    decreases count
  {
    if count > 0 {
      var l := PageLoc(s, base);
      GrantPagesAdd(attrs[l := attr], s, base + 1, count - 1, attr);
      assert l in attrs[l := attr];
    }
  }

  function WithZero(k: Kernel, l: Loc, rc: RefCount): Kernel {
    k.(rc := k.rc[k.zero := rc], entries := k.entries[l := Entry(k.zero, false)])
  }

  lemma WithZeroKeeps(k: Kernel, e: Eager, l: Loc, rc: RefCount)
    requires Inv(k) && Rel(k, e) && l in k.attrs && l !in k.entries
    requires AddRef(k.rc[k.zero], CowKind) == Added(rc)
    ensures Inv(WithZero(k, l, rc)) && Rel(WithZero(k, l, rc), e)
  {
    WithZeroInv(k, l, rc);
    WithZeroLooks(k, e, l, rc);
    hide Inv, Rel, LooksLike;
    LooksLikeKeeps(k, WithZero(k, l, rc), e);
  }

  lemma WithZeroLooks(k: Kernel, e: Eager, l: Loc, rc: RefCount)
    requires SameTables(k, e) && Numbered(k) && Zeroed(k) && l in k.attrs && l !in k.entries && !rc.Shared?
    ensures LooksLike(k, WithZero(k, l, rc), e)
  {
  }

  lemma WithZeroInv(k: Kernel, l: Loc, rc: RefCount)
    requires Inv(k) && l in k.attrs && l !in k.entries
    requires AddRef(k.rc[k.zero], CowKind) == Added(rc)
    ensures Inv(WithZero(k, l, rc))
  {
    GainReference(k.entries, k.rc, l, k.zero, false, rc);
    forall m | m in k.entries && k.entries[m].write
      ensures k.entries[m].frame != k.zero
    {
      if k.entries[m].frame == k.zero {
        ZeroIsNotOne(k, m);
      }
    }
  }

  /** The first sixteen pages get the static frame, read-only; the others stay as they are. */
  lemma {:induction false} MapZeroEntries(k: Kernel, s: nat, base: nat, count: nat, i: nat)
    requires i <= count && i <= 16
    ensures var r := MapZero(k, s, base, count, i);
            r.Some? ==>
              forall p | base <= p < base + count ::
                if base + i <= p < base + 16 then PageLoc(s, p) in r.value.entries && r.value.entries[PageLoc(s, p)] == Entry(k.zero, false)
                else && (PageLoc(s, p) in r.value.entries <==> PageLoc(s, p) in k.entries)
                     && (PageLoc(s, p) in k.entries ==> r.value.entries[PageLoc(s, p)] == k.entries[PageLoc(s, p)])
    decreases count - i
  {
    if i != count && i != MAX_EAGER_PAGES && k.zero in k.rc {
      match AddRef(k.rc[k.zero], CowKind)
      case Refused(_) =>
      case Added(rc) => MapZeroEntries(WithZero(k, PageLoc(s, base + i), rc), s, base, count, i + 1);
    }
  }

  lemma {:induction false} MapZeroKeeps(k: Kernel, e: Eager, s: nat, base: nat, count: nat, i: nat)
    requires Inv(k) && Rel(k, e) && i <= count
    requires forall p | base + i <= p < base + count :: PageLoc(s, p) in k.attrs && PageLoc(s, p) !in k.entries
    ensures var r := MapZero(k, s, base, count, i);
            r.Some? ==> Inv(r.value) && Rel(r.value, e)
    decreases count - i
  {
    if i != count && i != MAX_EAGER_PAGES {
      var l := PageLoc(s, base + i);
      match AddRef(k.rc[k.zero], CowKind) {
        case Refused(_) =>
        case Added(rc) =>
          WithZeroKeeps(k, e, l, rc);
          MapZeroKeeps(WithZero(k, l, rc), e, s, base, count, i + 1);
      }
    }
  }

  // ----- borrowed frames -----

  function Handed(k: Kernel, l: Loc, rc: RefCount): Kernel
    requires l in k.entries
  {
    var f := k.entries[l].frame;
    k.(rc := k.rc[f := rc], entries := k.entries[HandleLoc(k.nextHandle) := Entry(f, true)],
       nextHandle := k.nextHandle + 1)
  }

  lemma HandedInv(k: Kernel, l: Loc, rc: RefCount)
    requires Inv(k) && l in k.entries && l.PageLoc?
    requires AddRef(k.rc[k.entries[l].frame], SharedKind) == Added(rc)
    ensures Inv(Handed(k, l, rc))
  {
    var f := k.entries[l].frame;
    if f == k.zero {
      ZeroIsNotOne(k, l);
    }
    GainReference(k.entries, k.rc, HandleLoc(k.nextHandle), f, true, rc);
  }

  function HandedCell(e: Eager, l: Loc): Eager
    requires l in e.cellOf
  {
    e.(cellOf := e.cellOf[HandleLoc(e.nextHandle) := e.cellOf[l]], nextHandle := e.nextHandle + 1)
  }

  lemma HandedRel(k: Kernel, e: Eager, l: Loc, rc: RefCount)
    requires Rel(k, e) && l in e.cellOf && l in k.entries && k.entries[l].frame in k.rc
    requires HandleLoc(k.nextHandle) !in k.entries && HandleLoc(k.nextHandle) !in k.attrs
    requires k.rc[k.entries[l].frame].One? ==>
               forall m :: m in e.cellOf && m != l ==> m !in k.entries || k.entries[m].frame != k.entries[l].frame
    requires AddRef(k.rc[k.entries[l].frame], SharedKind) == Added(rc)
    ensures Rel(Handed(k, l, rc), HandedCell(e, l))
  {
    var k2 := Handed(k, l, rc);
    assert SameTables(k2, HandedCell(e, l));
    AliasKeeps(k, k2, e, HandedCell(e, l), l, HandleLoc(k.nextHandle), k.entries[l].frame);
  }

  lemma HandedKeeps(k: Kernel, e: Eager, l: Loc, rc: RefCount)
    requires Inv(k) && Rel(k, e) && l in e.cellOf && l in k.entries && l.PageLoc?
    requires AddRef(k.rc[k.entries[l].frame], SharedKind) == Added(rc)
    ensures Inv(Handed(k, l, rc)) && Rel(Handed(k, l, rc), HandedCell(e, l))
  {
    if k.rc[k.entries[l].frame].One? {
      BecomesShared(k, e, l);
    }
    HandedRel(k, e, l, rc);
    HandedInv(k, l, rc);
  }
}
