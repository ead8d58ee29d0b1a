/**
 The eager memory is what the history of calls says: location by location, byte by byte.
 */
module CowBytes {
  import opened Common
  import opened CowModel
  import opened CowEager
  import opened CowHistory
  import opened CowSimulation

  // ----- the eager memory, location by location -----

  ghost predicate EagerOk(e: Eager) {
    && CellsOk(e)
    && (forall l :: l in e.attrs <==> l in e.cellOf && l.PageLoc?)
    && (forall l :: l in e.cellOf ==> (l.PageLoc? && l.space < e.nextSpace) || (l.HandleLoc? && l.id < e.nextHandle))
    && (forall s :: s in e.spaces ==> s < e.nextSpace)
  }

  /** The step makes a new cell for the location. */
  predicate NewFor(e: Eager, op: Op, o: Obs, l: Loc) {
    Maps(op, o, l) || (Clones(op, o, l) && From(op, o, l) in e.attrs && !e.attrs[From(op, o, l)].shared)
  }

  predicate Hits(e: Eager, op: Op, o: Obs, l: Loc, b: nat) {
    Stores(op, o) && op.off == b && Target(op) in e.cellOf && l in e.cellOf && e.cellOf[Target(op)] == e.cellOf[l]
  }

  /** What becomes of one location. */
  ghost predicate LocEffect(e: Eager, e1: Eager, op: Op, o: Obs, l: Loc) {
    && (l in e1.cellOf <==> Maps(op, o, l) || (!Removes(op, o, l) && From(op, o, l) in e.cellOf))
    && (l in e1.cellOf ==>
          && (if NewFor(e, op, o, l) then e.nextCell <= e1.cellOf[l] else From(op, o, l) in e.cellOf && e1.cellOf[l] == e.cellOf[From(op, o, l)])
          && (l.PageLoc? ==> l in e1.attrs && (if Maps(op, o, l) then e1.attrs[l] == op.attr else From(op, o, l) in e.attrs && e1.attrs[l] == e.attrs[From(op, o, l)]))
          && (forall b | 0 <= b < PAGE_SIZE ::
                ReadCell(e1, l)[b] ==
                (if Maps(op, o, l) then 0 else if Hits(e, op, o, l, b) then op.value else ReadCell(e, From(op, o, l))[b])))
  }

  /** Two new cells are different. */
  ghost predicate NewDiffer(e: Eager, e1: Eager, op: Op, o: Obs) {
    forall l, m :: l in e1.cellOf && m in e1.cellOf && NewFor(e, op, o, l) && NewFor(e, op, o, m) && e1.cellOf[l] == e1.cellOf[m] ==> l == m
  }

  ghost predicate SpaceEffect(e: Eager, e1: Eager, op: Op, o: Obs) {
    forall s :: s in e1.spaces <==>
                ((op.NewSpace? || op.Clone?) && o == Created(s)) || (!(op == DropSpace(s) && o.Done?) && s in e.spaces)
  }

  ghost predicate Effect(e: Eager, e1: Eager, op: Op, o: Obs) {
    EagerOk(e1) && (forall l :: LocEffect(e, e1, op, o, l)) && NewDiffer(e, e1, op, o) && SpaceEffect(e, e1, op, o)
  }

  // ----- mapping -----

  predicate InRange(l: Loc, s: nat, base: nat, count: nat) {
    l.PageLoc? && l.space == s && base <= l.page < base + count
  }

  /** Each page of the range has a cell of its own, all zero. */
  ghost predicate Zeroed(e: Eager, e1: Eager, s: nat, base: nat, count: nat, attr: Attr) {
    && EagerOk(e1) && e1.spaces == e.spaces && e1.nextSpace == e.nextSpace && e1.nextHandle == e.nextHandle
    && e1.nextCell == e.nextCell + count
    && (forall l :: l in e1.cellOf <==> l in e.cellOf || InRange(l, s, base, count))
    && (forall l :: InRange(l, s, base, count) ==>
          && e1.cellOf[l] == e.nextCell + (l.page - base) && l in e1.attrs && e1.attrs[l] == attr
          && forall b | 0 <= b < PAGE_SIZE :: ReadCell(e1, l)[b] == 0)
    && (forall l :: l in e.cellOf && !InRange(l, s, base, count) ==>
          e1.cellOf[l] == e.cellOf[l] && ReadCell(e1, l) == ReadCell(e, l))
    && (forall l :: l in e.attrs && !InRange(l, s, base, count) ==> l in e1.attrs && e1.attrs[l] == e.attrs[l])
  }

  lemma ZeroNone(e: Eager, s: nat, base: nat, attr: Attr)
    requires EagerOk(e)
    ensures Zeroed(e, e, s, base, 0, attr)
  {
    hide ReadCell, EagerOk;
  }

  lemma NewCellOk(e: Eager, s: nat, p: nat, attr: Attr, data: PageData)
    requires EagerOk(e) && s in e.spaces
    ensures EagerOk(NewCell(e, PageLoc(s, p), attr, data)) && s in NewCell(e, PageLoc(s, p), attr, data).spaces
  {
  }

  lemma NewCellReads(e: Eager, l: Loc, attr: Attr, data: PageData)
    requires CellsOk(e)
    ensures var e1 := NewCell(e, l, attr, data);
            ReadCell(e1, l) == data && forall m :: m in e.cellOf && m != l ==> ReadCell(e1, m) == ReadCell(e, m)
  {
  }

  lemma ZeroFirst(e: Eager, s: nat, base: nat, attr: Attr)
    requires EagerOk(e) && s in e.spaces
    ensures Zeroed(e, NewCell(e, PageLoc(s, base), attr, ZeroPage()), s, base, 1, attr)
  {
    NewCellReads(e, PageLoc(s, base), attr, ZeroPage());
    hide ReadCell, EagerOk;
    NewCellOk(e, s, base, attr, ZeroPage());
    assert forall l :: InRange(l, s, base, 1) <==> l == PageLoc(s, base);
  }

  lemma ZeroJoin(e: Eager, e1: Eager, e2: Eager, s: nat, base: nat, count: nat, attr: Attr)
    requires Zeroed(e, e1, s, base, 1, attr) && Zeroed(e1, e2, s, base + 1, count, attr)
    ensures Zeroed(e, e2, s, base, count + 1, attr)
  {
    hide EagerOk, ReadCell;
    forall l
      ensures InRange(l, s, base, count + 1) <==> InRange(l, s, base, 1) || InRange(l, s, base + 1, count)
    {
    }
  }

  lemma {:induction false} ZeroCellsAre(e: Eager, s: nat, base: nat, count: nat, attr: Attr)
    requires EagerOk(e) && s in e.spaces
    ensures Zeroed(e, ZeroCells(e, s, base, count, attr), s, base, count, attr)
    decreases count
  {
    hide Zeroed, EagerOk, NewCell, ReadCell;
    if count == 0 {
      ZeroNone(e, s, base, attr);
    } else {
      var e1 := NewCell(e, PageLoc(s, base), attr, ZeroPage());
      ZeroFirst(e, s, base, attr);
      NewCellOk(e, s, base, attr, ZeroPage());
      ZeroCellsAre(e1, s, base + 1, count - 1, attr);
      ZeroJoin(e, e1, ZeroCells(e1, s, base + 1, count - 1, attr), s, base, count - 1, attr);
    }
  }

  lemma ZeroMapEffect(e: Eager, s: nat, base: nat, count: nat, attr: Attr)
    requires EagerOk(e) && s in e.spaces
    ensures Effect(e, ZeroCells(e, s, base, count, attr), ZeroMap(s, base, count, attr), Done)
  {
    ZeroCellsAre(e, s, base, count, attr);
    var e1, op := ZeroCells(e, s, base, count, attr), ZeroMap(s, base, count, attr);
    hide ReadCell, EagerOk;
    forall l
      ensures LocEffect(e, e1, op, Done, l)
    {
      assert Maps(op, Done, l) <==> InRange(l, s, base, count);
      AttrsPages(e1, l);
      AttrsPages(e, l);
    }
  }

  lemma AttrsPages(e: Eager, l: Loc)
    requires EagerOk(e)
    ensures l in e.attrs <==> l in e.cellOf && l.PageLoc?
    ensures l in e.cellOf ==> e.cellOf[l] in e.cells && e.cellOf[l] < e.nextCell
  {
  }

  // ----- cloning -----

  /** The pages of space `t` are copies of those of `s`: aliases of the shared ones, new cells for the others. */
  ghost predicate CopiesOf(e: Eager, e1: Eager, s: nat, t: nat, pages: seq<nat>) {
    && CellsOk(e1) && e.nextCell <= e1.nextCell
    && (forall l :: l in e1.cellOf <==> l in e.cellOf || (InSpace(l, t) && l.page in pages))
    && (forall l :: l in e1.attrs <==> l in e.attrs || (InSpace(l, t) && l.page in pages))
    && (forall l :: l in e.cellOf && !(InSpace(l, t) && l.page in pages) ==> e1.cellOf[l] == e.cellOf[l] && ReadCell(e1, l) == ReadCell(e, l))
    && (forall l :: l in e.attrs && !(InSpace(l, t) && l.page in pages) ==> e1.attrs[l] == e.attrs[l])
    && (forall p :: p in pages ==> CopyOf(e, e1, PageLoc(s, p), PageLoc(t, p)))
    && (forall p, q :: p in pages && q in pages && p != q && e.nextCell <= e1.cellOf[PageLoc(t, p)] ==> e1.cellOf[PageLoc(t, p)] != e1.cellOf[PageLoc(t, q)])
  }

  ghost predicate CopyOf(e: Eager, e1: Eager, src: Loc, dst: Loc) {
    && src in e.cellOf && src in e.attrs && dst in e1.cellOf && dst in e1.attrs && e1.attrs[dst] == e.attrs[src]
    && ReadCell(e1, dst) == ReadCell(e, src)
    && (if e.attrs[src].shared then e1.cellOf[dst] == e.cellOf[src] else e.nextCell <= e1.cellOf[dst] < e1.nextCell)
  }

  /** Before cloning the rest. */
  ghost predicate CopyReady(e: Eager, s: nat, t: nat, pages: seq<nat>) {
    && CellsOk(e) && s != t
    && (forall i, j | 0 <= i < j < |pages| :: pages[i] != pages[j])
    && (forall p :: p in pages ==> PageLoc(s, p) in e.cellOf && PageLoc(s, p) in e.attrs && PageLoc(t, p) !in e.cellOf)
  }

  lemma CopyFirst(e: Eager, s: nat, t: nat, p: nat)
    requires CopyReady(e, s, t, [p])
    ensures p in [p] && PageLoc(s, p) in e.attrs && PageLoc(s, p) in e.cellOf
    ensures CopiesOf(e, CopyCell(e, PageLoc(s, p), PageLoc(t, p)), s, t, [p])
  {
    assert p in [p];
  }

  lemma CopyJoinOne(e: Eager, e1: Eager, e2: Eager, s: nat, t: nat, pages: seq<nat>, p: nat)
    requires pages != [] && CopyReady(e, s, t, pages) && CopiesOf(e, e1, s, t, [pages[0]]) && CopiesOf(e1, e2, s, t, pages[1..])
    requires p in pages
    ensures CopyOf(e, e2, PageLoc(s, p), PageLoc(t, p))
  {
    hide ReadCell, CellsOk;
    assert pages[0] in [pages[0]] && pages[0] !in pages[1..];
    if p != pages[0] {
      assert p in pages[1..];
      assert CopyOf(e1, e2, PageLoc(s, p), PageLoc(t, p));
    } else {
      assert CopyOf(e, e1, PageLoc(s, p), PageLoc(t, p));
    }
  }

  lemma CopyJoin(e: Eager, e1: Eager, e2: Eager, s: nat, t: nat, pages: seq<nat>)
    requires pages != [] && CopyReady(e, s, t, pages) && CopiesOf(e, e1, s, t, [pages[0]]) && CopiesOf(e1, e2, s, t, pages[1..])
    ensures CopiesOf(e, e2, s, t, pages)
  {
    hide ReadCell, CellsOk;
    assert forall p :: p in pages <==> p in [pages[0]] || p in pages[1..];
    assert pages[0] in [pages[0]] && pages[0] !in pages[1..];
    forall p | p in pages
      ensures CopyOf(e, e2, PageLoc(s, p), PageLoc(t, p))
    {
      CopyJoinOne(e, e1, e2, s, t, pages, p);
    }
    forall p, q | p in pages && q in pages && p != q && e.nextCell <= e2.cellOf[PageLoc(t, p)]
      ensures e2.cellOf[PageLoc(t, p)] != e2.cellOf[PageLoc(t, q)]
    {
      CopyDiffer(e, e1, e2, s, t, pages, p, q);
    }
  }

  lemma CopyDiffer(e: Eager, e1: Eager, e2: Eager, s: nat, t: nat, pages: seq<nat>, p: nat, q: nat)
    requires pages != [] && CopyReady(e, s, t, pages) && CopiesOf(e, e1, s, t, [pages[0]]) && CopiesOf(e1, e2, s, t, pages[1..])
    requires p in pages && q in pages && p != q && PageLoc(t, p) in e2.cellOf && PageLoc(t, q) in e2.cellOf
    requires e.nextCell <= e2.cellOf[PageLoc(t, p)]
    ensures e2.cellOf[PageLoc(t, p)] != e2.cellOf[PageLoc(t, q)]
  {
    hide ReadCell;
    var first := pages[0];
    assert first in [first] && first !in pages[1..];
    assert CopyOf(e, e1, PageLoc(s, first), PageLoc(t, first));
    if p == first {
      assert q in pages[1..];
      assert CopyOf(e1, e2, PageLoc(s, q), PageLoc(t, q));
      assert e1.cellOf[PageLoc(s, q)] == e.cellOf[PageLoc(s, q)];
    } else if q == first {
      assert p in pages[1..];
      assert CopyOf(e1, e2, PageLoc(s, p), PageLoc(t, p));
      assert e1.cellOf[PageLoc(s, p)] == e.cellOf[PageLoc(s, p)];
    } else {
      assert p in pages[1..] && q in pages[1..];
      assert CopyOf(e1, e2, PageLoc(s, p), PageLoc(t, p));
      assert e1.cellOf[PageLoc(s, p)] == e.cellOf[PageLoc(s, p)];
    }
  }

  lemma CopyReadyRest(e: Eager, e1: Eager, s: nat, t: nat, pages: seq<nat>)
    requires pages != [] && CopyReady(e, s, t, pages) && CopiesOf(e, e1, s, t, [pages[0]])
    ensures CopyReady(e1, s, t, pages[1..])
  {
    hide ReadCell, CopyOf;
    assert forall p :: p in pages[1..] ==> p in pages && p != pages[0];
  }

  lemma {:induction false} CopyCellsAre(e: Eager, s: nat, t: nat, pages: seq<nat>)
    requires CopyReady(e, s, t, pages)
    ensures CopiesOf(e, CopyCells(e, s, t, pages), s, t, pages)
    decreases |pages|
  {
    if pages != [] {
      var e1 := CopyCell(e, PageLoc(s, pages[0]), PageLoc(t, pages[0]));
      CopyReadyFirst(e, s, t, pages);
      CopyFirst(e, s, t, pages[0]);
      hide CopiesOf, CopyReady, CopyCell;
      CopyReadyRest(e, e1, s, t, pages);
      CopyCellsAre(e1, s, t, pages[1..]);
      CopyJoin(e, e1, CopyCells(e1, s, t, pages[1..]), s, t, pages);
    }
  }

  lemma CopyReadyFirst(e: Eager, s: nat, t: nat, pages: seq<nat>)
    requires pages != [] && CopyReady(e, s, t, pages)
    ensures CopyReady(e, s, t, [pages[0]])
  {
    assert forall p :: p in [pages[0]] ==> p in pages;
  }

  /** The pages to clone are there, and the new space is empty. */
  lemma CloneReady(e: Eager, s: nat, plan: seq<Region>)
    requires EagerOk(e) && s in e.spaces && IsPlan(e.attrs, s, plan)
    ensures CopyReady(e.(nextSpace := e.nextSpace + 1), s, e.nextSpace, Flatten(plan))
  {
    hide Flatten, ReadCell;
    var pages := Flatten(plan);
    forall p | p in pages
      ensures PageLoc(s, p) in e.cellOf && PageLoc(s, p) in e.attrs && PageLoc(e.nextSpace, p) !in e.cellOf
    {
      var i :| 0 <= i < |pages| && pages[i] == p;
      assert PageLoc(s, pages[i]) in e.attrs;
    }
  }

  /** A page of the clone comes from the page of the original, and from nowhere if there is none. */
  lemma CloneLoc(e: Eager, e1: Eager, s: nat, t: nat, pages: seq<nat>, op: Op, l: Loc)
    requires EagerOk(e) && EagerOk(e1) && CopiesOf(e, e1, s, t, pages) && op.Clone? && op.space == s && s < t
    requires forall m :: m in e.cellOf ==> !InSpace(m, t)
    requires forall m :: m in e.attrs && InSpace(m, s) ==> m.page in pages
    ensures LocEffect(e, e1, op, Created(t), l)
  {
    hide ReadCell;
    var o := Created(t);
    AttrsPages(e, l);
    AttrsPages(e1, l);
    AttrsPages(e, From(op, o, l));
    if Clones(op, o, l) {
      if l.page in pages {
        assert CopyOf(e, e1, PageLoc(s, l.page), PageLoc(t, l.page));
      }
    }
  }

  /** The numbering of spaces is no part of it. */
  lemma Renumbered(e: Eager, e0: Eager, e2: Eager, e1: Eager, s: nat, t: nat, pages: seq<nat>)
    requires CopiesOf(e0, e2, s, t, pages)
    requires e0 == e.(nextSpace := e0.nextSpace) && e1 == e2.(spaces := e1.spaces)
    ensures CopiesOf(e, e1, s, t, pages)
  {
    assert forall l :: ReadCell(e0, l) == ReadCell(e, l) && ReadCell(e1, l) == ReadCell(e2, l);
    hide ReadCell;
    forall p | p in pages
      ensures CopyOf(e, e1, PageLoc(s, p), PageLoc(t, p))
    {
      assert CopyOf(e0, e2, PageLoc(s, p), PageLoc(t, p));
    }
  }

  lemma CloneOk(e: Eager, e1: Eager, s: nat, t: nat, pages: seq<nat>)
    requires EagerOk(e) && CopiesOf(e, e1, s, t, pages)
    requires e1.nextSpace == e.nextSpace + 1 && t == e.nextSpace && e1.spaces == e.spaces + {t} && e1.nextHandle == e.nextHandle
    ensures EagerOk(e1)
  {
    hide ReadCell, CopyOf;
  }

  lemma CloneDiffer(e: Eager, e1: Eager, s: nat, t: nat, pages: seq<nat>, op: Op)
    requires CopiesOf(e, e1, s, t, pages) && op.Clone? && op.space == s && s < t
    requires forall m :: m in e.cellOf ==> !InSpace(m, t)
    ensures NewDiffer(e, e1, op, Created(t))
  {
    hide ReadCell;
    var o := Created(t);
    forall l, m | l in e1.cellOf && m in e1.cellOf && NewFor(e, op, o, l) && NewFor(e, op, o, m) && e1.cellOf[l] == e1.cellOf[m]
      ensures l == m
    {
      assert l == PageLoc(t, l.page) && m == PageLoc(t, m.page);
      assert CopyOf(e, e1, PageLoc(s, l.page), PageLoc(t, l.page));
    }
  }

  lemma PlanHasAll(e: Eager, s: nat, plan: seq<Region>)
    requires EagerOk(e) && s in e.spaces && IsPlan(e.attrs, s, plan)
    ensures s < e.nextSpace && (forall m :: m in e.cellOf ==> !InSpace(m, e.nextSpace))
    ensures forall m :: m in e.attrs && InSpace(m, s) ==> m.page in Flatten(plan)
  {
  }

  lemma CloneEffect(e: Eager, s: nat, plan: seq<Region>)
    requires EagerOk(e) && s in e.spaces && IsPlan(e.attrs, s, plan)
    ensures Effect(e, EagerStep(e, Clone(s, plan)).0, Clone(s, plan), Created(e.nextSpace))
  {
    hide EagerOk, IsPlan, CopyCells, Flatten, CopiesOf, CopyReady, LocEffect, NewDiffer;
    var t, pages := e.nextSpace, Flatten(plan);
    var e0 := e.(nextSpace := t + 1);
    var e2 := CopyCells(e0, s, t, pages);
    var e1 := e2.(spaces := e.spaces + {t});
    PlanHasAll(e, s, plan);
    CloneReady(e, s, plan);
    CopyCellsAre(e0, s, t, pages);
    CopyCellsGrow(e0, s, t, pages);
    Renumbered(e, e0, e2, e1, s, t, pages);
    CloneOk(e, e1, s, t, pages);
    forall l
      ensures LocEffect(e, e1, Clone(s, plan), Created(t), l)
    {
      CloneLoc(e, e1, s, t, pages, Clone(s, plan), l);
    }
    CloneDiffer(e, e1, s, t, pages, Clone(s, plan));
  }

  // ----- the other steps -----

  lemma WriteEffect(e: Eager, op: Op)
    requires EagerOk(e) && (op.Store? || op.HandleStore?) && Target(op) in e.cellOf
    ensures Effect(e, WriteCell(e, Target(op), op.off, op.value), op, Done)
  {
    var e1 := WriteCell(e, Target(op), op.off, op.value);
    forall l | l in e.cellOf
      ensures forall b | 0 <= b < PAGE_SIZE :: ReadCell(e1, l)[b] == if Hits(e, op, Done, l, b) then op.value else ReadCell(e, l)[b]
    {
    }
    hide ReadCell;
  }

  /** A location that stays as it is, or goes. */
  lemma KeptLoc(e: Eager, e1: Eager, op: Op, o: Obs, l: Loc)
    requires EagerOk(e) && EagerOk(e1) && From(op, o, l) == l && !Maps(op, o, l) && !Clones(op, o, l) && !Stores(op, o)
    requires l in e1.cellOf <==> !Removes(op, o, l) && l in e.cellOf
    requires l in e1.cellOf ==> e1.cellOf[l] == e.cellOf[l] && e1.cells == e.cells
    requires l in e1.attrs && l in e.attrs ==> e1.attrs[l] == e.attrs[l]
    ensures LocEffect(e, e1, op, o, l)
  {
    hide ReadCell, EagerOk, From, Removes, Maps, Clones, Stores;
    AttrsPages(e, l);
    AttrsPages(e1, l);
    SameCell(e, e1, l);
    HitsNothing(e, op, o, l);
  }

  lemma SameCell(e: Eager, e1: Eager, l: Loc)
    ensures l in e1.cellOf && l in e.cellOf && e1.cellOf[l] == e.cellOf[l] && e1.cells == e.cells ==> ReadCell(e1, l) == ReadCell(e, l)
  {
  }

  lemma HitsNothing(e: Eager, op: Op, o: Obs, l: Loc)
    requires !Stores(op, o)
    ensures forall b :: !Hits(e, op, o, l, b)
  {
  }

  lemma NoneNew(e: Eager, e1: Eager, op: Op, o: Obs)
    requires !(op.ZeroMap? && o.Done?) && !(op.Clone? && o.Created?)
    ensures NewDiffer(e, e1, op, o)
  {
  }

  lemma UnmapEffect(e: Eager, s: nat, pages: seq<nat>)
    requires EagerOk(e) && s in e.spaces
    ensures Effect(e, DropCells(e, s, pages), Unmap(s, pages), Done)
  {
    DropCellsIs(e, s, pages);
    DropCellsCells(e, s, pages);
    var e1 := DropCells(e, s, pages);
    hide ReadCell, DropCells;
    assert EagerOk(e1);
    hide EagerOk, LocEffect;
    forall l
      ensures LocEffect(e, e1, Unmap(s, pages), Done, l)
    {
      KeptLoc(e, e1, Unmap(s, pages), Done, l);
    }
    NoneNew(e, e1, Unmap(s, pages), Done);
  }

  lemma {:induction false} DropCellsCells(e: Eager, s: nat, pages: seq<nat>)
    ensures DropCells(e, s, pages).nextCell == e.nextCell
    decreases |pages|
  {
    if pages != [] {
      DropCellsCells(DropCell(e, PageLoc(s, pages[0])), s, pages[1..]);
    }
  }

  /** The borrowed frame is the page it was taken from. */
  lemma LentLoc(e: Eager, e1: Eager, s: nat, p: nat, l: Loc)
    requires EagerOk(e) && EagerOk(e1) && PageLoc(s, p) in e.cellOf
    requires e1 == e.(cellOf := e.cellOf[HandleLoc(e.nextHandle) := e.cellOf[PageLoc(s, p)]], nextHandle := e.nextHandle + 1)
    ensures LocEffect(e, e1, Borrow(s, p), Created(e.nextHandle), l)
  {
    var h := HandleLoc(e.nextHandle);
    if l == h {
      assert ReadCell(e1, h) == ReadCell(e, PageLoc(s, p));
      hide ReadCell, EagerOk;
    } else {
      hide ReadCell, EagerOk, LocEffect;
      KeptLoc(e, e1, Borrow(s, p), Created(e.nextHandle), l);
    }
  }

  lemma LentOk(e: Eager, s: nat, p: nat)
    requires EagerOk(e) && PageLoc(s, p) in e.cellOf
    ensures EagerOk(e.(cellOf := e.cellOf[HandleLoc(e.nextHandle) := e.cellOf[PageLoc(s, p)]], nextHandle := e.nextHandle + 1))
  {
  }

  lemma LendEffect(e: Eager, s: nat, p: nat)
    requires EagerOk(e)
    ensures Effect(e, EagerStep(e, Borrow(s, p)).0, Borrow(s, p), EagerStep(e, Borrow(s, p)).1)
  {
    hide EagerOk, LocEffect, ReadCell;
    var (e1, o) := EagerStep(e, Borrow(s, p));
    if o.Created? {
      LentOk(e, s, p);
      forall l
        ensures LocEffect(e, e1, Borrow(s, p), o, l)
      {
        LentLoc(e, e1, s, p, l);
      }
      NoneNew(e, e1, Borrow(s, p), o);
    } else {
      QuietEffect(e, e1, Borrow(s, p), o);
    }
  }

  lemma ReleasedOk(e: Eager, h: nat)
    requires EagerOk(e)
    ensures EagerOk(DropCell(e, HandleLoc(h)))
  {
  }

  lemma ReleaseEffect(e: Eager, h: nat)
    requires EagerOk(e)
    ensures Effect(e, EagerStep(e, Release(h)).0, Release(h), EagerStep(e, Release(h)).1)
  {
    hide EagerOk, LocEffect, ReadCell;
    var (e1, o) := EagerStep(e, Release(h));
    if o.Done? {
      ReleasedOk(e, h);
      forall l
        ensures LocEffect(e, e1, Release(h), o, l)
      {
        KeptLoc(e, e1, Release(h), o, l);
      }
      NoneNew(e, e1, Release(h), o);
    } else {
      QuietEffect(e, e1, Release(h), o);
    }
  }

  /** Nothing about the locations changes. */
  lemma QuietEffect(e: Eager, e1: Eager, op: Op, o: Obs)
    requires EagerOk(e) && EagerOk(e1) && e1.cellOf == e.cellOf && e1.cells == e.cells && e1.attrs == e.attrs && e1.nextCell == e.nextCell
    requires SpaceEffect(e, e1, op, o)
    requires !(op.ZeroMap? && o.Done?) && !(op.Unmap? && o.Done?) && !(op.Release? && o.Done?) && !(op.Clone? && o.Created?) && !(op.Borrow? && o.Created?) && !Stores(op, o)
    ensures Effect(e, e1, op, o)
  {
    hide ReadCell, EagerOk, LocEffect, SpaceEffect;
    forall l
      ensures LocEffect(e, e1, op, o, l)
    {
      KeptLoc(e, e1, op, o, l);
    }
    NoneNew(e, e1, op, o);
  }

  /** Every step changes the locations as its call and its report say. */
  lemma StepEffect(e: Eager, op: Op, o: Obs)
    requires EagerOk(e) && (o.OutOfMemory? || o.Panicked? || o == EagerStep(e, op).1)
    ensures Effect(e, Advance(e, op, o), op, o)
  {
    var e1 := Advance(e, op, o);
    if o.OutOfMemory? || o.Panicked? {
      QuietEffect(e, e1, op, o);
    } else {
      hide Effect;
      match op
      case ZeroMap(s, base, count, attr) =>
        if o.Done? {
          ZeroMapEffect(e, s, base, count, attr);
        } else {
          QuietEffect(e, e1, op, o);
        }
      case Store(s, p, off, v) =>
        if o.Done? {
          WriteEffect(e, op);
        } else {
          QuietEffect(e, e1, op, o);
        }
      case HandleStore(h, off, v) =>
        if o.Done? {
          WriteEffect(e, op);
        } else {
          QuietEffect(e, e1, op, o);
        }
      case Clone(s, plan) =>
        if o.Created? {
          CloneEffect(e, s, plan);
        } else {
          QuietEffect(e, e1, op, o);
        }
      case Unmap(s, pages) =>
        if o.Done? {
          UnmapEffect(e, s, pages);
        } else {
          QuietEffect(e, e1, op, o);
        }
      case Borrow(s, p) => LendEffect(e, s, p);
      case Release(h) => ReleaseEffect(e, h);
      case _ => QuietEffect(e, e1, op, o);
    }
  }
}
