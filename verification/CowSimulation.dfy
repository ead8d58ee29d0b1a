/**
 Every step of the kernel is a step of the eager specification: clones with their failures first,
 then one lemma for each kind of step.
 */
module CowSimulation {
  import opened Common
  import opened RefCounts
  import opened CowModel
  import opened CowEager
  import opened CowInvariant
  import opened CowProofs
  import opened CowCopy
  import opened CowClone
  import opened CowSteps

  // ----- eager clones touch only the new space -----

  ghost predicate CellsOk(e: Eager) {
    forall l :: l in e.cellOf ==> e.cellOf[l] in e.cells && e.cellOf[l] < e.nextCell
  }

  predicate InSpace(l: Loc, t: nat) {
    l.PageLoc? && l.space == t
  }

  ghost predicate Untouched(e: Eager, t: nat) {
    && CellsOk(e)
    && (forall l :: l in e.cellOf || l in e.attrs ==> !InSpace(l, t))
  }

  /** `e1` is `e0` with some pages of space `t` added. */
  ghost predicate Grown(e0: Eager, e1: Eager, t: nat, pages: seq<nat>) {
    && (forall l :: l in e0.cellOf && !InSpace(l, t) ==> l in e1.cellOf && e1.cellOf[l] == e0.cellOf[l])
    && (forall l :: l in e0.attrs && !InSpace(l, t) ==> l in e1.attrs && e1.attrs[l] == e0.attrs[l])
    && (forall l :: l in e1.cellOf && l !in e0.cellOf ==> InSpace(l, t) && l.page in pages)
    && (forall l :: l in e1.attrs && l !in e0.attrs ==> InSpace(l, t) && l.page in pages)
    && (forall c :: c in e0.cells && c < e0.nextCell ==> c in e1.cells && e1.cells[c] == e0.cells[c])
    && e1.nextCell >= e0.nextCell
    && e1.spaces == e0.spaces && e1.nextSpace == e0.nextSpace && e1.nextHandle == e0.nextHandle
  }

  lemma {:induction false} CopyCellsGrow(e: Eager, s: nat, t: nat, pages: seq<nat>)
    requires s != t
    ensures Grown(e, CopyCells(e, s, t, pages), t, pages)
    decreases |pages|
  {
    if pages != [] {
      var src, dst := PageLoc(s, pages[0]), PageLoc(t, pages[0]);
      var e1 := if src in e.attrs && src in e.cellOf then CopyCell(e, src, dst) else e;
      CopyCellsGrow(e1, s, t, pages[1..]);
      assert forall p :: p in pages[1..] ==> p in pages;
    }
  }

  lemma {:induction false} CopyCellsAppend(e: Eager, s: nat, t: nat, a: seq<nat>, b: seq<nat>)
    ensures CopyCells(e, s, t, a + b) == CopyCells(CopyCells(e, s, t, a), s, t, b)
    decreases |a|
  {
    if a == [] {
      assert a + b == b;
    } else {
      var src, dst := PageLoc(s, a[0]), PageLoc(t, a[0]);
      var e1 := if src in e.attrs && src in e.cellOf then CopyCell(e, src, dst) else e;
      assert (a + b)[1..] == a[1..] + b;
      CopyCellsAppend(e1, s, t, a[1..], b);
    }
  }

  /** `DropCells` removes exactly the listed pages. */
  lemma {:induction false} DropCellsIs(e: Eager, t: nat, pages: seq<nat>)
    ensures var e1 := DropCells(e, t, pages);
            && (forall l :: l in e1.cellOf <==> l in e.cellOf && !(InSpace(l, t) && l.page in pages))
            && (forall l :: l in e1.attrs <==> l in e.attrs && !(InSpace(l, t) && l.page in pages))
            && (forall l :: l in e1.cellOf ==> e1.cellOf[l] == e.cellOf[l])
            && (forall l :: l in e1.attrs ==> e1.attrs[l] == e.attrs[l])
            && e1.cells == e.cells && e1.spaces == e.spaces
            && e1.nextSpace == e.nextSpace && e1.nextHandle == e.nextHandle
    decreases |pages|
  {
    if pages != [] {
      DropCellsIs(DropCell(e, PageLoc(t, pages[0])), t, pages[1..]);
      assert forall p :: p in pages <==> p == pages[0] || p in pages[1..];
    }
  }

  /** Removing the pages of the new space again leaves the eager state as it was, up to unused cells. */
  lemma CopyThenDrop(e0: Eager, s: nat, t: nat, done: seq<nat>, part: seq<nat>, rest: seq<nat>)
    requires s != t && Untouched(e0, t)
    requires forall p :: p in part ==> p in rest
    ensures var e2 := DropCells(DropCells(CopyCells(e0, s, t, done + part), t, done), t, rest);
            && e2.cellOf == e0.cellOf && e2.attrs == e0.attrs && e2.spaces == e0.spaces
            && e2.nextSpace == e0.nextSpace && e2.nextHandle == e0.nextHandle
            && (forall l :: l in e0.cellOf ==>
                  e0.cellOf[l] in e2.cells && e2.cells[e0.cellOf[l]] == e0.cells[e0.cellOf[l]])
  {
    var e1 := CopyCells(e0, s, t, done + part);
    CopyCellsGrow(e0, s, t, done + part);
    DropCellsIs(e1, t, done);
    DropCellsIs(DropCells(e1, t, done), t, rest);
    hide CopyCells, DropCells;
    var e2 := DropCells(DropCells(e1, t, done), t, rest);
    assert forall l :: l in e2.cellOf <==> l in e0.cellOf;
    assert forall l :: l in e2.attrs <==> l in e0.attrs;
  }

  lemma SameCells(k: Kernel, e2: Eager, e0: Eager)
    requires Rel(k, e2) && CellsOk(e0)
    requires e2.cellOf == e0.cellOf && e2.attrs == e0.attrs && e2.spaces == e0.spaces
    requires e2.nextSpace == e0.nextSpace && e2.nextHandle == e0.nextHandle
    requires forall l :: l in e0.cellOf ==>
               e0.cellOf[l] in e2.cells && e2.cells[e0.cellOf[l]] == e0.cells[e0.cellOf[l]]
    ensures Rel(k, e0)
  {
  }

  // ----- try_clone -----

  lemma PendingSplit(k: Kernel, s: nat, t: nat, a: seq<nat>, b: seq<nat>)
    requires Pending(k, s, t, a + b)
    ensures Pending(k, s, t, a)
    ensures forall p :: p in a ==> p !in b
  {
    assert forall i | 0 <= i < |a| :: (a + b)[i] == a[i];
    assert forall i | 0 <= i < |b| :: (a + b)[|a| + i] == b[i];
    assert forall p :: p in a ==> p in a + b;
  }

  lemma PendingAfter(k: Kernel, k1: Kernel, s: nat, t: nat, a: seq<nat>, b: seq<nat>)
    requires Pending(k, s, t, a + b) && PagesFrame(k, k1, s, t, a)
    ensures Pending(k1, s, t, b)
  {
    PendingSplit(k, s, t, a, b);
    assert forall i | 0 <= i < |b| :: (a + b)[|a| + i] == b[i];
    assert forall p :: p in b ==> p in a + b;
  }

  /** The grants of the new space that are complete. */
  ghost predicate Complete(k: Kernel, t: nat, done: seq<nat>) {
    forall p :: p in done ==> PageLoc(t, p) in k.attrs
  }

  /** Every entry of the new space is under one of its grants. */
  ghost predicate Tidy(k: Kernel, t: nat) {
    forall l :: l in k.entries && InSpace(l, t) ==> l in k.attrs
  }

  lemma TidyAfter(k: Kernel, k1: Kernel, s: nat, t: nat, done: seq<nat>, pages: seq<nat>)
    requires Tidy(k, t) && PagesFrame(k, k1, s, t, pages) && Complete(k1, t, done + pages)
    requires forall l :: l in k.attrs ==> l in k1.attrs
    ensures Tidy(k1, t)
  {
    assert forall p :: p in pages ==> p in done + pages;
  }

  lemma GrantCopied(k: Kernel, e0: Eager, s: nat, t: nat, done: seq<nat>, pages: seq<nat>, rest: seq<nat>)
    requires Inv(k) && s != t && Rel(k, CopyCells(e0, s, t, done)) && Tidy(k, t)
    requires Pending(k, s, t, pages + rest) && Complete(k, t, done)
    requires CopyPages(k, s, t, pages).Copied?
    ensures var k1 := CopyPages(k, s, t, pages).k;
            && Inv(k1) && Rel(k1, CopyCells(e0, s, t, done + pages))
            && Pending(k1, s, t, rest) && Complete(k1, t, done + pages) && Tidy(k1, t)
  {
    var e := CopyCells(e0, s, t, done);
    PendingSplit(k, s, t, pages, rest);
    CopyPagesFrame(k, e, s, t, pages);
    PendingAfter(k, CopyPages(k, s, t, pages).k, s, t, pages, rest);
    var n := CopyPagesKeeps(k, e, s, t, pages);
    CompleteAfter(k, CopyPages(k, s, t, pages).k, e, s, t, done, pages);
    CopyCellsAppend(e0, s, t, done, pages);
    CopyCellsKeep(e, s, t, pages);
    TidyAfter(k, CopyPages(k, s, t, pages).k, s, t, done, pages);
  }

  lemma GrantFailed(k: Kernel, e0: Eager, s: nat, t: nat, done: seq<nat>, pages: seq<nat>)
    requires Inv(k) && s != t && Untouched(e0, t) && Rel(k, CopyCells(e0, s, t, done))
    requires Pending(k, s, t, pages) && Complete(k, t, done)
    requires CopyPages(k, s, t, pages).CopyNoMem?
    ensures var k1 := Orphan(DropPages(CopyPages(k, s, t, pages).k, t, done), t, pages);
            Inv(k1) && Rel(k1, e0)
  {
    var e := CopyCells(e0, s, t, done);
    CopyPagesFrame(k, e, s, t, pages);
    var n := CopyPagesKeeps(k, e, s, t, pages);
    CompleteAfter(k, CopyPages(k, s, t, pages).k, e, s, t, done, pages[..n]);
    CopyCellsAppend(e0, s, t, done, pages[..n]);
    assert forall p :: p in done ==> p in done + pages[..n];
    CloneUndone(CopyPages(k, s, t, pages).k, e0, s, t, done, pages, n);
  }

  lemma {:induction false} CloneKeeps(k: Kernel, e0: Eager, s: nat, t: nat, done: seq<nat>, todo: seq<Region>)
    requires Inv(k) && s != t && Untouched(e0, t) && Rel(k, CopyCells(e0, s, t, done))
    requires Pending(k, s, t, Flatten(todo)) && Complete(k, t, done) && Tidy(k, t)
    ensures var r := CloneRegions(k, s, t, done, todo);
            && (r.Copied? ==> Inv(r.k) && Rel(r.k, CopyCells(e0, s, t, done + Flatten(todo))) && Tidy(r.k, t))
            && (r.CopyNoMem? ==> Inv(r.k) && Rel(r.k, e0))
    decreases |todo|
  {
    hide Inv, Rel, Untouched, Pending, Tidy, Complete;
    if todo == [] {
      assert done + Flatten(todo) == done;
    } else {
      var pages, rest := Pages(todo[0]), Flatten(todo[1..]);
      PendingSplit(k, s, t, pages, rest);
      var r := CopyPages(k, s, t, pages);
      if r.CopyNoMem? {
        GrantFailed(k, e0, s, t, done, pages);
      } else if r.Copied? {
        GrantCopied(k, e0, s, t, done, pages, rest);
        CloneKeeps(r.k, e0, s, t, done + pages, todo[1..]);
        assert (done + pages) + rest == done + (pages + rest);
      }
    }
  }

  lemma CompleteAfter(k: Kernel, k1: Kernel, e: Eager, s: nat, t: nat, done: seq<nat>, pages: seq<nat>)
    requires Complete(k, t, done) && s != t
    requires Rel(k, e) && Rel(k1, CopyCells(e, s, t, pages))
    requires forall p :: p in pages ==> PageLoc(s, p) in k.attrs
    ensures Complete(k1, t, done + pages)
  {
    CopyCellsKeep(e, s, t, pages);
  }

  lemma {:induction false} CopyCellsKeep(e: Eager, s: nat, t: nat, pages: seq<nat>)
    requires s != t
    requires forall p :: p in pages ==> PageLoc(s, p) in e.attrs && PageLoc(s, p) in e.cellOf
    ensures forall l :: l in e.attrs ==> l in CopyCells(e, s, t, pages).attrs
    ensures forall p :: p in pages ==> PageLoc(t, p) in CopyCells(e, s, t, pages).attrs
    decreases |pages|
  {
    if pages != [] {
      var src, dst := PageLoc(s, pages[0]), PageLoc(t, pages[0]);
      assert pages[0] in pages;
      assert forall p :: p in pages[1..] ==> p in pages;
      CopyCellsKeep(CopyCell(e, src, dst), s, t, pages[1..]);
      assert dst in CopyCell(e, src, dst).attrs;
      assert forall p :: p in pages ==> p == pages[0] || p in pages[1..];
    }
  }

  lemma CloneUndone(k: Kernel, e0: Eager, s: nat, t: nat, done: seq<nat>, pages: seq<nat>, n: nat)
    requires Inv(k) && s != t && Untouched(e0, t) && n <= |pages| && t !in k.spaces
    requires Rel(k, CopyCells(e0, s, t, done + pages[..n]))
    requires Complete(k, t, done)
    ensures var k1 := Orphan(DropPages(k, t, done), t, pages);
            Inv(k1) && Rel(k1, e0)
  {
    var e1 := CopyCells(e0, s, t, done + pages[..n]);
    DropPagesKeeps(k, e1, t, done);
    var k1 := DropPages(k, t, done);
    DropCellsIs(e1, t, done);
    OrphanKeeps(k1, DropCells(e1, t, done), t, pages);
    CopyThenDrop(e0, s, t, done, pages[..n], pages);
    SameCells(Orphan(k1, t, pages), DropCells(DropCells(e1, t, done), t, pages), e0);
  }

  // ----- steps -----

  /** The eager state that goes with an outcome: a step that failed for lack of memory did nothing. */
  function Advance(e: Eager, op: Op, o: Obs): Eager {
    if o.OutOfMemory? then EagerFailed(e, op)
    else if o.Panicked? then e
    else EagerStep(e, op).0
  }

  /** One step of the kernel is one step of the specification. */
  ghost predicate Simulates(k: Kernel, e: Eager, op: Op)
    requires Sound(k)
  {
    var (k1, o) := Step(k, op);
    && Inv(k1) && Rel(k1, Advance(e, op, o))
    && (o.OutOfMemory? || o.Panicked? || o == EagerStep(e, op).1)
  }

  /** The two states agree on what decides the branch of a step. */
  lemma RelTables(k: Kernel, e: Eager)
    requires Inv(k) && Rel(k, e)
    ensures Sound(k)
    ensures e.attrs == k.attrs && e.spaces == k.spaces
    ensures e.nextSpace == k.nextSpace && e.nextHandle == k.nextHandle
    ensures forall l :: l in k.attrs ==> l in e.cellOf && ReadCell(e, l) == View(k, l)
    ensures forall h :: HandleLoc(h) in k.entries <==> HandleLoc(h) in e.cellOf
    ensures forall l: Loc :: l.HandleLoc? && l in k.entries ==> k.entries[l].write && ReadCell(e, l) == View(k, l)
  {
  }

  lemma NewSpaceStep(k: Kernel, e: Eager)
    requires Inv(k) && Rel(k, e)
    ensures Simulates(k, e, NewSpace)
  {
    hide Inv, Rel;
    NewSpaceInv(k);
    NewSpaceRel(k, e);
    RelTables(k, e);
  }

  lemma NewSpaceInv(k: Kernel)
    requires Inv(k)
    ensures Sound(k) && Inv(Step(k, NewSpace).0)
  {
  }

  lemma NewSpaceRel(k: Kernel, e: Eager)
    requires Inv(k) && Rel(k, e) && Sound(k)
    ensures Rel(Step(k, NewSpace).0, EagerStep(e, NewSpace).0)
  {
    var k1 := Step(k, NewSpace).0;
    assert forall m :: View(k1, m) == View(k, m) && ShareKey(k1, m) == ShareKey(k, m);
  }

  lemma ZeroMapStep(k: Kernel, e: Eager, s: nat, base: nat, count: nat, attr: Attr)
    requires Inv(k) && Rel(k, e)
    ensures Simulates(k, e, ZeroMap(s, base, count, attr))
  {
    if s in k.spaces && NoConflict(k.attrs, s, base, count) {
      GrantPagesKeeps(k, e, s, base, count, attr);
      MapZeroKeeps(k.(attrs := GrantPages(k.attrs, s, base, count, attr)),
                   ZeroCells(e, s, base, count, attr), s, base, count, 0);
    }
  }

  lemma LoadStep(k: Kernel, e: Eager, s: nat, p: nat, access: Access)
    requires Inv(k) && Rel(k, e)
    ensures Simulates(k, e, Load(s, p, access))
  {
    FaultKeeps(k, e, PageLoc(s, p), access);
  }

  lemma StoreStep(k: Kernel, e: Eager, s: nat, p: nat, off: nat, v: Byte)
    requires Inv(k) && Rel(k, e)
    ensures Simulates(k, e, Store(s, p, off, v))
    ensures Sound(k) && (Step(k, Store(s, p, off, v)).1.Panicked? <==> FaultShort(k, PageLoc(s, p), WriteAccess))
  {
    var l := PageLoc(s, p);
    if l in k.entries && l in k.attrs && k.entries[l].write {
      StoreKeeps(k, e, l, off, v);
    } else {
      FaultKeeps(k, e, l, WriteAccess);
      var r := CorrectInner(k, l, WriteAccess);
      if r.Corrected? {
        StoreKeeps(r.k, e, l, off, v);
      }
    }
  }

  /** The two locations are one, or are on one frame of kind `Shared`. */
  predicate OneMemory(k: Kernel, l: Loc, m: Loc) {
    l == m || (ShareKey(k, l).Some? && ShareKey(k, l) == ShareKey(k, m))
  }

  lemma CellsAndViews(k: Kernel, e: Eager, l: Loc, m: Loc)
    requires Rel(k, e) && Tracked(k, m)
    ensures m in e.cellOf && ReadCell(e, m) == View(k, m)
    ensures Tracked(k, l) ==> l in e.cellOf && (e.cellOf[l] == e.cellOf[m] <==> OneMemory(k, l, m))
  {
  }

  lemma WrittenCell(e: Eager, l: Loc, off: nat, v: Byte, m: Loc, b: nat)
    requires CellsOk(e) && l in e.cellOf && m in e.cellOf && b < PAGE_SIZE
    ensures var e1 := WriteCell(e, l, off, v);
            m in e1.cellOf && ReadCell(e1, m)[b] == if b == off && e.cellOf[l] == e.cellOf[m] then v else ReadCell(e, m)[b]
  {
  }

  lemma RelCellsOk(k: Kernel, e: Eager)
    requires Rel(k, e)
    ensures CellsOk(e)
  {
  }

  /** A store that is done writes its byte in its page and in every location that is one memory with it;
      every other byte that can be read stays as it was. A store that is refused changes nothing. */
  lemma StoreBytes(k: Kernel, e: Eager, s: nat, p: nat, off: nat, v: Byte)
    requires Inv(k) && Rel(k, e)
    ensures Sound(k)
    ensures var (k1, o) := Step(k, Store(s, p, off, v));
            && (o.Done? <==> PageLoc(s, p) in k.attrs && k.attrs[PageLoc(s, p)].write && !o.Panicked?)
            && forall m, b | Tracked(k, m) && 0 <= b < PAGE_SIZE ::
                 View(k1, m)[b] == if o.Done? && b == off && OneMemory(k, PageLoc(s, p), m) then v else View(k, m)[b]
  {
    RelTables(k, e);
    StoreStep(k, e, s, p, off, v);
    RelCellsOk(k, e);
    var l := PageLoc(s, p);
    var (k1, o) := Step(k, Store(s, p, off, v));
    var e1 := Advance(e, Store(s, p, off, v), o);
    StoreRejects(k, e, s, p, off, v);
    hide Inv, Step, View, ReadCell, WriteCell, OneMemory, Sound;
    forall m, b | Tracked(k, m) && 0 <= b < PAGE_SIZE
      ensures View(k1, m)[b] == if o.Done? && b == off && OneMemory(k, l, m) then v else View(k, m)[b]
    {
      CellsAndViews(k, e, l, m);
      StillTracked(k, k1, e, e1, l, off, v, m);
      CellsAndViews(k1, e1, l, m);
      if o.Done? {
        WrittenCell(e, l, off, v, m, b);
      }
    }
  }

  lemma StoreRejects(k: Kernel, e: Eager, s: nat, p: nat, off: nat, v: Byte)
    requires Inv(k) && Rel(k, e) && Sound(k) && Simulates(k, e, Store(s, p, off, v))
    ensures var o := Step(k, Store(s, p, off, v)).1;
            && (o.Done? || o.Segv? || o.Panicked?)
            && (o.Done? <==> PageLoc(s, p) in k.attrs && k.attrs[PageLoc(s, p)].write && !o.Panicked?)
            && (o.Done? ==> PageLoc(s, p) in k.attrs && Advance(e, Store(s, p, off, v), o) == WriteCell(e, PageLoc(s, p), off, v))
            && (!o.Done? ==> Advance(e, Store(s, p, off, v), o) == e)
  {
    hide Inv;
    RelTables(k, e);
  }

  lemma StillTracked(k: Kernel, k1: Kernel, e: Eager, e1: Eager, l: Loc, off: nat, v: Byte, m: Loc)
    requires Rel(k, e) && Rel(k1, e1) && Tracked(k, m) && (e1 == e || e1 == WriteCell(e, l, off, v))
    ensures Tracked(k1, m)
  {
  }

  lemma UnmapStep(k: Kernel, e: Eager, s: nat, pages: seq<nat>)
    requires Inv(k) && Rel(k, e)
    ensures Simulates(k, e, Unmap(s, pages))
  {
    if s in k.spaces {
      DropPagesKeeps(k, e, s, pages);
    }
  }

  lemma DropSpaceStep(k: Kernel, e: Eager, s: nat)
    requires Inv(k) && Rel(k, e)
    ensures Simulates(k, e, DropSpace(s))
  {
    LessSpaces(k, e, k.spaces - {s});
    hide Inv, SameContents, SameAliases;
  }

  /** Forgetting that a space is live changes nothing that is counted or read. */
  lemma LessSpaces(k: Kernel, e: Eager, spaces: set<nat>)
    requires Inv(k) && Rel(k, e) && spaces <= k.spaces
    ensures Inv(k.(spaces := spaces)) && Rel(k.(spaces := spaces), e.(spaces := spaces))
  {
    var k1 := k.(spaces := spaces);
    assert forall m :: View(k1, m) == View(k, m) && ShareKey(k1, m) == ShareKey(k, m);
    assert Inv(k1) by {
      hide Counted, Protected;
    }
    hide View, ShareKey, Inv;
  }

  lemma WritableIsNotCow(k: Kernel, l: Loc)
    requires Inv(k) && l in k.entries && k.entries[l].write
    ensures k.entries[l].frame in k.rc && !k.rc[k.entries[l].frame].Cow?
    ensures l in k.attrs ==> k.attrs[l].write
  {
  }

  lemma BorrowStep(k: Kernel, e: Eager, s: nat, p: nat)
    requires Inv(k) && Rel(k, e)
    ensures Simulates(k, e, Borrow(s, p))
    ensures !Step(k, Borrow(s, p)).1.Panicked?
  {
    hide Inv, Rel;
    RelTables(k, e);
    var l := PageLoc(s, p);
    if l in k.attrs && !k.attrs[l].shared {
      FaultKeeps(k, e, l, WriteAccess);
      var r := if l in k.entries && k.entries[l].write then Corrected(k) else CorrectInner(k, l, WriteAccess);
      if r.Corrected? {
        RelTables(r.k, e);
        WritableIsNotCow(r.k, l);
        var more := AddRef(r.k.rc[r.k.entries[l].frame], SharedKind);
        if more.Added? {
          HandedKeeps(r.k, e, l, more.rc);
        }
      }
    }
  }

  lemma HandleSteps(k: Kernel, e: Eager, h: nat, off: nat, v: Byte)
    requires Inv(k) && Rel(k, e)
    ensures Simulates(k, e, HandleLoad(h))
    ensures Simulates(k, e, HandleStore(h, off, v))
    ensures Simulates(k, e, Release(h))
  {
    hide Inv, Rel;
    RelTables(k, e);
    if HandleLoc(h) in k.entries {
      StoreKeeps(k, e, HandleLoc(h), off, v);
      DropKeeps(k, e, HandleLoc(h));
    }
  }

  lemma ReorderInv(k: Kernel, pool: seq<nat>)
    requires Inv(k) && multiset(pool) == multiset(k.pool)
    ensures Inv(k.(pool := pool))
  {
    assert forall f :: f in pool <==> f in multiset(pool);
    assert forall f :: f in k.pool <==> f in multiset(k.pool);
    NoRepeats(k.pool, pool);
  }

  lemma ReorderStep(k: Kernel, e: Eager, pool: seq<nat>)
    requires Inv(k) && Rel(k, e)
    ensures Simulates(k, e, Reorder(pool))
  {
    hide Inv, Rel;
    RelTables(k, e);
    if multiset(pool) == multiset(k.pool) {
      ReorderInv(k, pool);
      PoolUnseen(k, e, pool);
    }
  }

  lemma PoolUnseen(k: Kernel, e: Eager, pool: seq<nat>)
    requires Rel(k, e)
    ensures Rel(k.(pool := pool), e)
  {
    var k1 := k.(pool := pool);
    assert forall m :: View(k1, m) == View(k, m) && ShareKey(k1, m) == ShareKey(k, m);
  }

  /** A permutation of a sequence without repetitions has none. */
  lemma NoRepeats(a: seq<nat>, b: seq<nat>)
    requires multiset(a) == multiset(b)
    requires forall i, j | 0 <= i < j < |a| :: a[i] != a[j]
    ensures forall i, j | 0 <= i < j < |b| :: b[i] != b[j]
  {
    forall i, j | 0 <= i < j < |b|
      ensures b[i] != b[j]
    {
      Occurrences(a, b[i]);
      assert b == b[..i] + [b[i]] + b[i + 1..j] + [b[j]] + b[j + 1..];
    }
  }

  lemma {:induction false} Occurrences(a: seq<nat>, x: nat)
    requires forall i, j | 0 <= i < j < |a| :: a[i] != a[j]
    ensures multiset(a)[x] <= 1
    decreases |a|
  {
    if a != [] {
      assert a == [a[0]] + a[1..];
      Occurrences(a[1..], x);
      assert a[0] !in a[1..];
    }
  }

  lemma CloneStep(k: Kernel, e: Eager, s: nat, plan: seq<Region>)
    requires Inv(k) && Rel(k, e)
    ensures Simulates(k, e, Clone(s, plan))
  {
    hide Inv, Rel, Untouched, Pending, Tidy, IsPlan;
    RelTables(k, e);
    if s in k.spaces && IsPlan(k.attrs, s, plan) {
      var t := k.nextSpace;
      var k0, e0 := k.(nextSpace := t + 1), e.(nextSpace := t + 1);
      CloneStarts(k, e, s, plan);
      assert Complete(k0, t, []);
      CloneKeeps(k0, e0, s, t, [], plan);
      assert [] + Flatten(plan) == Flatten(plan);
      var r := CloneRegions(k0, s, t, [], plan);
      if r.Copied? {
        CopyCellsGrow(e0, s, t, Flatten(plan));
        RelTables(r.k, CopyCells(e0, s, t, Flatten(plan)));
        CloneEnds(r.k, CopyCells(e0, s, t, Flatten(plan)), t);
      }
    }
  }

  lemma CloneStarts(k: Kernel, e: Eager, s: nat, plan: seq<Region>)
    requires Inv(k) && Rel(k, e) && s in k.spaces && IsPlan(k.attrs, s, plan)
    ensures var t := k.nextSpace;
            var k0, e0 := k.(nextSpace := t + 1), e.(nextSpace := t + 1);
            && Inv(k0) && Rel(k0, e0) && s != t && Untouched(e0, t)
            && Pending(k0, s, t, Flatten(plan)) && Tidy(k0, t)
  {
    var k0 := k.(nextSpace := k.nextSpace + 1);
    assert forall m :: View(k0, m) == View(k, m) && ShareKey(k0, m) == ShareKey(k, m);
  }

  lemma CloneEnds(k: Kernel, e: Eager, t: nat)
    requires Inv(k) && Rel(k, e) && Tidy(k, t) && t < k.nextSpace
    ensures var k1 := k.(spaces := k.spaces + {t});
            Inv(k1) && Rel(k1, e.(spaces := e.spaces + {t}))
  {
    var k1 := k.(spaces := k.spaces + {t});
    assert forall m :: View(k1, m) == View(k, m) && ShareKey(k1, m) == ShareKey(k, m);
  }

  lemma StepKeeps(k: Kernel, e: Eager, op: Op)
    requires Inv(k) && Rel(k, e)
    ensures Simulates(k, e, op)
  {
    match op
    case NewSpace => NewSpaceStep(k, e);
    case ZeroMap(s, base, count, attr) => ZeroMapStep(k, e, s, base, count, attr);
    case Load(s, p, access) => LoadStep(k, e, s, p, access);
    case Store(s, p, off, v) => StoreStep(k, e, s, p, off, v);
    case Clone(s, plan) => CloneStep(k, e, s, plan);
    case Unmap(s, pages) => UnmapStep(k, e, s, pages);
    case DropSpace(s) => DropSpaceStep(k, e, s);
    case Borrow(s, p) => BorrowStep(k, e, s, p);
    case HandleLoad(h) => HandleSteps(k, e, h, 0, 0);
    case HandleStore(h, off, v) => HandleSteps(k, e, h, off, v);
    case Release(h) => HandleSteps(k, e, h, 0, 0);
    case Reorder(pool) => ReorderStep(k, e, pool);
  }
}
