/**
 When a count is the number of live references.

 `Inv` counts every reference, also those that nobody can give back. The property one would want is
 that a frame's count is the number of entries in live page tables, borrowed frames and the static
 reference. That is false after some clones that ran out of memory part way: the pages copied for
 an unfinished grant, and a reference taken for a copy that could not be made, are never released.
 Which clones these are is decided by the state before them, and nothing else breaks the property.
 */
module CowStranded {
  import opened Common
  import opened RefCounts
  import opened CowModel
  import opened CowEager
  import opened CowInvariant
  import opened CowProofs
  import opened CowCopy
  import opened CowClone
  import opened CowSteps
  import opened CowSimulation
  import opened CowPlain
  import opened CowDemand
  import opened CowOutcome
  import opened CowRuns

  predicate Live(spaces: set<nat>, l: Loc) {
    match l
    case PageLoc(s, _) => s in spaces
    case HandleLoc(_) => true
    case ZeroLoc => true
    case LostLoc(_) => false
  }

  ghost predicate NoneStranded(k: Kernel) {
    forall l :: l in k.entries ==> Live(k.spaces, l)
  }

  ghost function LiveRefs(k: Kernel, f: nat): set<Loc> {
    set l | l in k.entries && k.entries[l].frame == f && Live(k.spaces, l)
  }

  /** Counts are live references exactly when nothing is stranded. */
  lemma ExactIffNoneStranded(k: Kernel)
    requires Inv(k)
    ensures (forall f :: f in k.rc ==> Count(k.rc[f]) == |LiveRefs(k, f)|) <==> NoneStranded(k)
  {
    assert Counted(k.entries, k.rc);
    hide Inv;
    forall f | f in k.rc
      ensures Count(k.rc[f]) == |LiveRefs(k, f)| <==> forall l :: l in k.entries && k.entries[l].frame == f ==> Live(k.spaces, l)
    {
      LiveCount(k, f);
    }
    if !NoneStranded(k) {
      var l :| l in k.entries && !Live(k.spaces, l);
      assert k.entries[l].frame in k.rc;
    }
  }

  lemma LiveCount(k: Kernel, f: nat)
    requires f in k.rc && |Refs(k.entries, f)| == Count(k.rc[f])
    ensures Count(k.rc[f]) == |LiveRefs(k, f)| <==> forall l :: l in k.entries && k.entries[l].frame == f ==> Live(k.spaces, l)
  {
    var live, stranded := LiveRefs(k, f), Refs(k.entries, f) - LiveRefs(k, f);
    assert live + stranded == Refs(k.entries, f);
    if l :| l in k.entries && k.entries[l].frame == f && !Live(k.spaces, l) {
      assert l in stranded;
    } else {
      assert stranded == {};
    }
  }

  // ----- when a step strands -----

  ghost predicate NewOnlyIn(k: Kernel, k1: Kernel, s: nat, t: nat) {
    forall l :: l in k1.entries ==> l in k.entries || InSpace(l, s) || InSpace(l, t)
  }

  /** The step strands a reference: a clone that stops for lack of memory, either inside a grant of
      which it has already copied a page that was present or shared, or at a private page on a frame
      of kind `Shared` for whose copy it had added a reference. */
  ghost predicate Strands(k: Kernel, op: Op) {
    op.Clone? && op.space in k.spaces && IsPlan(k.attrs, op.space, op.plan) && CloneStrands(k, op.space, op.plan)
  }

  ghost predicate CloneStrands(k: Kernel, s: nat, plan: seq<Region>) {
    exists n: nat :: StrandsAt(k, s, plan, n)
  }

  ghost predicate StrandsAt(k: Kernel, s: nat, plan: seq<Region>, n: nat) {
    && CloneStops(k, s, plan, n)
    && !DemandOf(k, PageLoc(s, Flatten(plan)[n])).Fresh?
    && LeavesBehind(k, s, Flatten(plan), GrantStart(plan, n), n)
  }

  lemma CloneStrandsIff(k: Kernel, e: Eager, s: nat, plan: seq<Region>)
    requires Inv(k) && Rel(k, e) && Plain(k) && Housed(k) && s in k.spaces && IsPlan(k.attrs, s, plan)
    ensures Sound(k) && (NoneStranded(Step(k, Clone(s, plan)).0) <==> !CloneStrands(k, s, plan))
  {
    hide Inv, Rel, Plain, IsPlan, Granted, DemandOf, LeavesBehind, LeftBehind, OldOrOf, CloneStops, CloneRegions, GrantStart, Flatten, NoneStranded, Housed;
    var n := CloneFate(k, e, s, plan);
    var (k1, o) := Step(k, Clone(s, plan));
    NewIsDead(k);
    if o.OutOfMemory? {
      DroppedClone(k, k1, s, k.nextSpace);
    } else if o.Created? {
      FinishedClone(k, k1, s, k.nextSpace);
    } else {
      HousedStrandsNone(k);
    }
    StrandCases(k, s, plan, n);
  }

  lemma HousedStrandsNone(k: Kernel)
    requires Housed(k)
    ensures NoneStranded(k)
  {
  }

  lemma StrandCases(k: Kernel, s: nat, plan: seq<Region>, n: nat)
    requires Granted(k, s, Flatten(plan)) && n <= |Flatten(plan)|
    requires forall m: nat :: CloneStops(k, s, plan, m) <==> m == n < |Flatten(plan)|
    ensures CloneStrands(k, s, plan) <==>
            n < |Flatten(plan)| && !DemandOf(k, PageLoc(s, Flatten(plan)[n])).Fresh? && LeavesBehind(k, s, Flatten(plan), GrantStart(plan, n), n)
  {
    hide DemandOf, LeavesBehind, CloneStops, Flatten;
    if n < |Flatten(plan)| && !DemandOf(k, PageLoc(s, Flatten(plan)[n])).Fresh? && LeavesBehind(k, s, Flatten(plan), GrantStart(plan, n), n) {
      assert StrandsAt(k, s, plan, n);
    }
  }

  lemma NewIsDead(k: Kernel)
    requires Inv(k)
    ensures k.nextSpace !in k.spaces
  {
  }

  lemma DroppedClone(k: Kernel, k1: Kernel, s: nat, t: nat)
    requires Housed(k) && OldOrOf(k, k1, s, t) && s in k.spaces && t !in k.spaces
    ensures NoneStranded(k1) <==> !LeftBehind(k, k1, t)
  {
    if LeftBehind(k, k1, t) {
      var l :| l in k1.entries && (InSpace(l, t) || (l.LostLoc? && l !in k.entries));
      assert !Live(k1.spaces, l);
    }
  }

  lemma FinishedClone(k: Kernel, k1: Kernel, s: nat, t: nat)
    requires Housed(k) && OldOrOf(k, k1.(spaces := k.spaces), s, t) && s in k.spaces && k1.spaces == k.spaces + {t}
    requires forall l :: l in k1.entries && l.LostLoc? ==> l in k.entries
    ensures NoneStranded(k1)
  {
  }

  lemma {:induction false} MapZeroAdds(k: Kernel, s: nat, base: nat, count: nat, i: nat)
    requires i <= count
    ensures var r := MapZero(k, s, base, count, i);
            r.Some? ==> NewOnlyIn(k, r.value, s, s) && r.value.spaces == k.spaces
    decreases count - i
  {
    if i != count && i != MAX_EAGER_PAGES && k.zero in k.rc {
      match AddRef(k.rc[k.zero], CowKind)
      case Refused(_) =>
      case Added(rc) => MapZeroAdds(WithZero(k, PageLoc(s, base + i), rc), s, base, count, i + 1);
    }
  }

  lemma FaultAdds(k: Kernel, l: Loc, access: Access)
    requires Sound(k)
    ensures var r := CorrectInner(k, l, access);
            r.Corrected? ==> r.k.spaces == k.spaces && forall m :: m in r.k.entries ==> m in k.entries || m == l
  {
  }

  /** The grants of a kernel with nothing stranded belong to live spaces too. */
  ghost predicate Housed(k: Kernel) {
    NoneStranded(k) && forall l :: l in k.attrs ==> Live(k.spaces, l)
  }

  /** A fresh kernel strands nothing. */
  lemma BootIsHoused(zero: nat, pool: seq<nat>)
    ensures Housed(Boot(zero, pool))
  {
  }

  /** Of the steps that map or fault, none strands a reference. */
  lemma FaultsStrandNothing(k: Kernel, op: Op)
    requires Sound(k) && Housed(k)
    requires op.Load? || op.Store? || op.Borrow? || op.ZeroMap?
    ensures NoneStranded(Step(k, op).0)
  {
    match op
    case Load(s, p, access) => FaultAdds(k, PageLoc(s, p), access);
    case Store(s, p, off, v) => FaultAdds(k, PageLoc(s, p), WriteAccess);
    case Borrow(s, p) => FaultAdds(k, PageLoc(s, p), WriteAccess);
    case ZeroMap(s, base, count, attr) =>
      MapZeroAdds(k.(attrs := GrantPages(k.attrs, s, base, count, attr)), s, base, count, 0);
  }

  lemma DropStrandsNothing(k: Kernel, s: nat)
    requires Inv(k) && NoneStranded(k)
    ensures Sound(k) && NoneStranded(Step(k, DropSpace(s)).0)
  {
  }

  lemma UnmapStrandsNothing(k: Kernel, s: nat, pages: seq<nat>)
    requires Sound(k) && NoneStranded(k)
    ensures NoneStranded(Step(k, Unmap(s, pages)).0)
  {
    DropPagesEntries(k, s, pages);
  }

  /** A step strands a reference exactly when it is a clone whose state before it says so. */
  lemma StepStrandsIff(k: Kernel, e: Eager, op: Op)
    requires Inv(k) && Rel(k, e) && Plain(k) && Housed(k)
    ensures Sound(k) && (NoneStranded(Step(k, op).0) <==> !Strands(k, op))
  {
    hide Inv, Rel, Plain, CloneStrands;
    RelTables(k, e);
    match op
    case Clone(s, plan) =>
      if s in k.spaces && IsPlan(k.attrs, s, plan) {
        CloneStrandsIff(k, e, s, plan);
      }
    case Unmap(s, pages) => UnmapStrandsNothing(k, s, pages);
    case DropSpace(s) => DropStrandsNothing(k, s);
    case Load(_, _, _) => FaultsStrandNothing(k, op);
    case Store(_, _, _, _) => FaultsStrandNothing(k, op);
    case Borrow(_, _) => FaultsStrandNothing(k, op);
    case ZeroMap(_, _, _, _) => FaultsStrandNothing(k, op);
    case _ =>
  }

  // ----- stranded for good -----

  lemma CloneStrandedStays(k: Kernel, e: Eager, s: nat, plan: seq<Region>, l: Loc)
    requires Inv(k) && Rel(k, e) && Plain(k) && l in k.entries && !Live(k.spaces, l)
    ensures Sound(k) && l in Step(k, Clone(s, plan)).0.entries && !Live(Step(k, Clone(s, plan)).0.spaces, l)
  {
    hide Inv, Rel, Plain, IsPlan, CloneStops, Granted, DemandOf, LeavesBehind, LeftBehind, CloneRegions, GrantStart, Flatten;
    RelTables(k, e);
    StrandedNumber(k, l);
    if s in k.spaces && IsPlan(k.attrs, s, plan) {
      var n := CloneFate(k, e, s, plan);
    }
  }

  /** A holder that nobody can release stays one. */
  lemma StrandedStays(k: Kernel, e: Eager, op: Op, l: Loc)
    requires Inv(k) && Rel(k, e) && Plain(k) && l in k.entries && !Live(k.spaces, l)
    ensures Sound(k) && l in Step(k, op).0.entries && !Live(Step(k, op).0.spaces, l)
  {
    hide Inv, Rel, Plain;
    RelTables(k, e);
    StrandedNumber(k, l);
    match op
    case Clone(s, plan) => CloneStrandedStays(k, e, s, plan, l);
    case Unmap(s, pages) => DropPagesEntries(k, s, pages);
    case Load(s, p, access) => FaultGrows(k, PageLoc(s, p), access);
    case Store(s, p, _, _) => FaultGrows(k, PageLoc(s, p), WriteAccess);
    case Borrow(s, p) => FaultGrows(k, PageLoc(s, p), WriteAccess);
    case ZeroMap(s, base, count, attr) =>
      MapZeroGrows(k.(attrs := GrantPages(k.attrs, s, base, count, attr)), s, base, count, 0);
    case _ =>
  }

  lemma StrandedNumber(k: Kernel, l: Loc)
    requires Inv(k) && l in k.entries && !Live(k.spaces, l)
    ensures l.LostLoc? || (l.PageLoc? && l.space < k.nextSpace && l.space !in k.spaces)
  {
  }

  lemma FaultGrows(k: Kernel, l: Loc, access: Access)
    requires Sound(k)
    ensures var r := CorrectInner(k, l, access);
            r.Corrected? ==> r.k.spaces == k.spaces && forall m :: m in k.entries ==> m in r.k.entries
  {
  }

  lemma {:induction false} MapZeroGrows(k: Kernel, s: nat, base: nat, count: nat, i: nat)
    requires i <= count
    ensures var r := MapZero(k, s, base, count, i);
            r.Some? ==> r.value.spaces == k.spaces && forall m :: m in k.entries ==> m in r.value.entries
    decreases count - i
  {
    if i != count && i != MAX_EAGER_PAGES && k.zero in k.rc {
      match AddRef(k.rc[k.zero], CowKind)
      case Refused(_) =>
      case Added(rc) => MapZeroGrows(WithZero(k, PageLoc(s, base + i), rc), s, base, count, i + 1);
    }
  }

  // ----- over runs -----

  ghost predicate EagerHoused(e: Eager) {
    forall l :: l in e.attrs ==> l.PageLoc? && l.space in e.spaces
  }

  lemma {:induction false} ZeroCellsHoused(e: Eager, s: nat, base: nat, count: nat, attr: Attr)
    requires EagerHoused(e) && s in e.spaces
    ensures EagerHoused(ZeroCells(e, s, base, count, attr))
    decreases count
  {
    if count > 0 {
      ZeroCellsHoused(NewCell(e, PageLoc(s, base), attr, ZeroPage()), s, base + 1, count - 1, attr);
    }
  }

  lemma EagerStaysHoused(e: Eager, op: Op, o: Obs)
    requires EagerHoused(e) && (forall s :: s in e.spaces ==> s < e.nextSpace)
    ensures EagerHoused(Advance(e, op, o))
  {
    match op
    case ZeroMap(s, base, count, attr) =>
      if s in e.spaces {
        ZeroCellsHoused(e, s, base, count, attr);
      }
    case Clone(s, plan) =>
      if s in e.spaces {
        CopyCellsGrow(e.(nextSpace := e.nextSpace + 1), s, e.nextSpace, Flatten(plan));
      }
    case Unmap(s, pages) => DropCellsIs(e, s, pages);
    case _ =>
  }

  lemma InvBoundsSpaces(k: Kernel, e: Eager)
    requires Inv(k) && Rel(k, e)
    ensures forall s :: s in e.spaces ==> s < e.nextSpace
    ensures EagerHoused(e) && NoneStranded(k) ==> Housed(k)
  {
  }

  /** No clone of the first `i` steps stranded a reference, judged by the states before them. */
  ghost predicate NoStranding(r: Run, i: nat)
    requires i <= |r.ops| && |r.states| == |r.ops| + 1
  {
    forall j | 0 <= j < i :: !Strands(r.states[j], r.ops[j])
  }

  lemma {:induction false} RunStrandsIff(r: Run, zero: nat, pool: seq<nat>, i: nat)
    requires zero !in pool && Distinct(pool) && IsRun(r, zero, pool) && i <= |r.ops|
    ensures NoneStranded(r.states[i]) <==> NoStranding(r, i)
    ensures EagerHoused(EagerAt(r, i))
    decreases i
  {
    hide Inv, Rel, Plain, Strands, Report;
    if i == 0 {
      BootIsHoused(zero, pool);
    } else {
      var k, e, op := r.states[i - 1], EagerAt(r, i - 1), r.ops[i - 1];
      RunStrandsIff(r, zero, pool, i - 1);
      LazyRefinesEager(r, zero, pool, i - 1);
      InvBoundsSpaces(k, e);
      assert Step(k, op) == (r.states[i], r.obs[i - 1]);
      EagerStaysHoused(e, op, r.obs[i - 1]);
      if NoneStranded(k) {
        StepStrandsIff(k, e, op);
      } else {
        var l :| l in k.entries && !Live(k.spaces, l);
        StrandedStays(k, e, op, l);
      }
    }
  }

  /** In every run, each count is the number of live page-table entries and borrowed frames on its
      frame, plus one for the static zeroed frame, exactly when no clone before has stranded a
      reference. */
  lemma CountsAreLiveIff(r: Run, zero: nat, pool: seq<nat>, i: nat)
    requires zero !in pool && Distinct(pool) && IsRun(r, zero, pool) && i <= |r.ops|
    ensures (forall f :: f in r.states[i].rc ==> Count(r.states[i].rc[f]) == |LiveRefs(r.states[i], f)|) <==> NoStranding(r, i)
  {
    hide Inv, Rel, Plain, Report, NoStranding;
    RunStrandsIff(r, zero, pool, i);
    LazyRefinesEager(r, zero, pool, i);
    ExactIffNoneStranded(r.states[i]);
  }

  // ----- the lost reference -----

  const RW: Attr := Attr(false, true, false)
  const P: Loc := PageLoc(0, 0)

  /** A kernel with two frames and one private page, just mapped. */
  function Mapped(): Kernel {
    Kernel(map f | f in [2, 1] :: ZeroPage(), map[1 := Cow(2)], [2],
           map[ZeroLoc := Entry(1, false), P := Entry(1, false)], map[P := RW], {0}, 1, 1, 0, 0)
  }

  lemma MapStep()
    ensures var k1 := Step(Boot(1, [2]), NewSpace).0;
            Step(k1, ZeroMap(0, 0, 1, RW)) == (Mapped(), Done)
  {
    var k1 := Step(Boot(1, [2]), NewSpace).0;
    assert GrantPages(k1.attrs[P := RW], 0, 1, 0, RW) == k1.attrs[P := RW];
    var start := k1.(attrs := map[P := RW]);
    var mapped := start.(rc := start.rc[1 := Cow(2)], entries := start.entries[P := Entry(1, false)]);
    assert MapZero(start, 0, 0, 1, 0) == MapZero(mapped, 0, 0, 1, 1);
    assert mapped == Mapped();
  }

  /** The page written: it has the second frame to itself and none is left. */
  ghost predicate Written(k: Kernel) {
    && k.rc == map[1 := One, 2 := One] && k.pool == [] && k.attrs == map[P := RW] && k.spaces == {0}
    && k.entries == map[ZeroLoc := Entry(1, false), P := Entry(2, true)]
    && 1 in k.mem && 2 in k.mem && k.zero == 1 && k.nextSpace == 1 && k.nextHandle == 0 && k.nextLost == 0
  }

  lemma WriteStep()
    ensures Step(Mapped(), Store(0, 0, 0, 7)).1 == Done && Written(Step(Mapped(), Store(0, 0, 0, 7)).0)
  {
  }

  lemma BorrowWritten(k: Kernel)
    requires Written(k)
    ensures Sound(k)
    ensures Step(k, Borrow(0, 0)) ==
            (k.(rc := map[1 := One, 2 := Shared(2)], entries := k.entries[HandleLoc(0) := Entry(2, true)],
                nextHandle := 1),
             Created(0))
  {
    assert k.rc[2 := Shared(2)] == map[1 := One, 2 := Shared(2)];
  }

  lemma CloneBorrowed(k: Kernel, k4: Kernel)
    requires Written(k)
    requires k4 == k.(rc := map[1 := One, 2 := Shared(2)], entries := k.entries[HandleLoc(0) := Entry(2, true)],
                      nextHandle := 1)
    ensures Sound(k4)
    ensures var (k5, o) := Step(k4, Clone(0, [Region(0, 1)]));
            o == OutOfMemory && 2 in k5.rc && k5.rc[2] == Shared(3) && LiveRefs(k5, 2) == {P, HandleLoc(0)}
  {
    var plan := [Region(0, 1)];
    assert Pages(plan[0]) == [0] && plan[1..] == [];
    assert Flatten(plan) == [0];
    assert IsPlan(k4.attrs, 0, plan);
    var k0 := k4.(nextSpace := 2);
    var k1 := CopyFails(k0);
    hide CopyPages, CopyPage;
    assert Orphan(k1, 1, [0]) == k1.(attrs := k1.attrs - {PageLoc(1, 0)});
    assert CloneRegions(k0, 0, 1, [], plan) == CopyNoMem(k1.(attrs := k1.attrs - {PageLoc(1, 0)}));
  }

  /** The frame is of kind Shared and the pool is empty: the copy adds a reference and gives up. */
  lemma CopyFails(k0: Kernel) returns (k1: Kernel)
    requires Sound(k0) && k0.pool == [] && k0.nextLost == 0 && P in k0.attrs && !k0.attrs[P].shared
    requires P in k0.entries && k0.entries[P].frame == 2 && 2 in k0.rc && k0.rc[2] == Shared(2)
    ensures k1 == k0.(entries := k0.entries[P := Entry(2, false)][LostLoc(0) := Entry(2, false)],
                      rc := k0.rc[2 := Shared(3)], nextLost := 1)
    ensures CopyPages(k0, 0, 1, [0]) == CopyNoMem(k1)
  {
    k1 := k0.(entries := k0.entries[P := Entry(2, false)][LostLoc(0) := Entry(2, false)],
              rc := k0.rc[2 := Shared(3)], nextLost := 1);
    assert CopyOwned(k0, P, PageLoc(1, 0)) == CopyNoMem(k1);
  }

  /** One page is mapped, written and borrowed; the clone then finds no frame for its copy. */
  lemma FailedCloneStrands() returns (r: Run)
    ensures IsRun(r, 1, [2]) && |r.ops| == 5 && r.ops[4].Clone? && r.obs[4] == OutOfMemory
    ensures 2 in r.states[5].rc && Count(r.states[5].rc[2]) == 3 && |LiveRefs(r.states[5], 2)| == 2
  {
    hide Step, LiveRefs, Boot, Mapped, Written, Sound;
    var k0 := Boot(1, [2]);
    BootIsSound();
    var k1, o1 := Step(k0, NewSpace).0, Step(k0, NewSpace).1;
    MapStep();
    WriteStep();
    var k2 := Mapped();
    var k3 := Step(k2, Store(0, 0, 0, 7)).0;
    BorrowWritten(k3);
    var k4 := Step(k3, Borrow(0, 0)).0;
    CloneBorrowed(k3, k4);
    var plan := [Region(0, 1)];
    var k5 := Step(k4, Clone(0, plan)).0;
    var ops := [NewSpace, ZeroMap(0, 0, 1, RW), Store(0, 0, 0, 7), Borrow(0, 0), Clone(0, plan)];
    r := Run([k0, k1, k2, k3, k4, k5], ops, [o1, Done, Done, Created(0), OutOfMemory]);
    forall i | 0 <= i < 5
      ensures Sound(r.states[i]) ==> Step(r.states[i], ops[i]) == (r.states[i + 1], r.obs[i])
    {
      assert i == 0 || i == 1 || i == 2 || i == 3 || i == 4;
    }
  }

  lemma BootIsSound()
    ensures Sound(Boot(1, [2])) && Sound(Step(Boot(1, [2]), NewSpace).0) && Sound(Mapped())
  {
  }

  // ----- the unfinished grant -----

  const SHARED: Attr := Attr(true, true, false)
  const Q: Loc := PageLoc(0, 1)

  /** A kernel with two frames and two shared pages, just mapped: both are on the zeroed frame. */
  function MappedShared(): Kernel {
    Kernel(map f | f in [2, 1] :: ZeroPage(), map[1 := Cow(3)], [2],
           map[ZeroLoc := Entry(1, false), P := Entry(1, false), Q := Entry(1, false)],
           map[P := SHARED, Q := SHARED], {0}, 1, 1, 0, 0)
  }

  lemma MapSharedStep()
    ensures Sound(Step(Boot(1, [2]), NewSpace).0) && Sound(MappedShared())
    ensures Step(Step(Boot(1, [2]), NewSpace).0, ZeroMap(0, 0, 2, SHARED)) == (MappedShared(), Done)
  {
    var k1 := Step(Boot(1, [2]), NewSpace).0;
    var attrs := k1.attrs[P := SHARED][Q := SHARED];
    assert GrantPages(k1.attrs, 0, 0, 2, SHARED) == GrantPages(k1.attrs[P := SHARED], 0, 1, 1, SHARED) == GrantPages(attrs, 0, 2, 0, SHARED);
    var start := k1.(attrs := attrs);
    var one := start.(rc := start.rc[1 := Cow(2)], entries := start.entries[P := Entry(1, false)]);
    var two := one.(rc := one.rc[1 := Cow(3)], entries := one.entries[Q := Entry(1, false)]);
    assert MapZero(start, 0, 0, 2, 0) == MapZero(one, 0, 0, 2, 1) == MapZero(two, 0, 0, 2, 2);
    assert two == MappedShared();
  }

  lemma SharedPlan()
    ensures Sound(MappedShared()) && Pages(Region(0, 2)) == [0, 1] && IsPlan(MappedShared().attrs, 0, [Region(0, 2)])
  {
    var plan := [Region(0, 2)];
    assert Pages(plan[0]) == [0, 1] && plan[1..] == [];
    assert Flatten(plan) == [0, 1];
  }

  /** The first page moves to the last frame, together with its image; the second finds none. */
  lemma CloneUnfinished() returns (k3: Kernel)
    ensures Sound(MappedShared()) && Step(MappedShared(), Clone(0, [Region(0, 2)])) == (k3, OutOfMemory)
    ensures 2 in k3.rc && k3.rc[2] == Shared(2) && LiveRefs(k3, 2) == {P}
  {
    hide CopyPages, Orphan, IsPlan, Pages, Sound;
    SharedPlan();
    var k := MappedShared();
    var k0 := k.(nextSpace := 2);
    var plan := [Region(0, 2)];
    var one := SharedMoves(k0);
    k3 := Orphan(one, 1, [0, 1]);
    OrphanEntries(one, 1, [0, 1]);
    OrphanCounts(one, 1, [0, 1]);
    assert CloneRegions(k0, 0, 1, [], plan) == CopyNoMem(k3) by {
      assert plan[0] == Region(0, 2);
    }
    OnlyP(k3);
  }

  lemma OnlyP(k: Kernel)
    requires k.spaces == {0}
    requires k.entries == map[ZeroLoc := Entry(1, false), P := Entry(2, false), Q := Entry(1, false), PageLoc(1, 0) := Entry(2, true)]
    ensures LiveRefs(k, 2) == {P}
  {
  }

  lemma {:induction false} OrphanCounts(k: Kernel, t: nat, pages: seq<nat>)
    ensures Orphan(k, t, pages).rc == k.rc
    decreases |pages|
  {
    if pages != [] {
      OrphanCounts(k.(attrs := k.attrs - {PageLoc(t, pages[0])}), t, pages[1..]);
    }
  }

  lemma SharedMoves(k0: Kernel) returns (one: Kernel)
    requires k0 == MappedShared().(nextSpace := 2)
    ensures CopyPages(k0, 0, 1, [0, 1]) == CopyNoMem(one)
    ensures one.rc == map[1 := Cow(2), 2 := Shared(2)] && one.spaces == {0}
    ensures one.entries == map[ZeroLoc := Entry(1, false), P := Entry(2, false), Q := Entry(1, false), PageLoc(1, 0) := Entry(2, true)]
  {
    one := k0.(mem := k0.mem[2 := ZeroPage()], rc := map[1 := Cow(2), 2 := Shared(2)], pool := [],
               entries := k0.entries[P := Entry(2, false)][PageLoc(1, 0) := Entry(2, true)],
               attrs := k0.attrs[PageLoc(1, 0) := SHARED]);
    assert CopyPage(k0, P, PageLoc(1, 0)) == Copied(one) by {
      assert k0.rc[2 := Shared(2)][1 := Cow(2)] == one.rc;
    }
    assert CopyPage(one, Q, PageLoc(1, 1)) == CopyNoMem(one);
    assert CopyPages(one, 0, 1, [1]) == CopyNoMem(one);
    assert [0, 1][1..] == [1];
  }

  /** Two shared pages are mapped; the clone copies the first and finds no frame for the second. */
  lemma UnfinishedGrantStrands() returns (r: Run)
    ensures IsRun(r, 1, [2]) && |r.ops| == 3 && r.ops[2].Clone? && r.obs[2] == OutOfMemory
    ensures 2 in r.states[3].rc && Count(r.states[3].rc[2]) == 2 && |LiveRefs(r.states[3], 2)| == 1
  {
    hide Step, LiveRefs, Boot, MappedShared, Sound;
    var k0 := Boot(1, [2]);
    BootIsSound();
    MapSharedStep();
    var k3 := CloneUnfinished();
    var k1, o1 := Step(k0, NewSpace).0, Step(k0, NewSpace).1;
    var ops := [NewSpace, ZeroMap(0, 0, 2, SHARED), Clone(0, [Region(0, 2)])];
    r := Run([k0, k1, MappedShared(), k3], ops, [o1, Done, OutOfMemory]);
    forall i | 0 <= i < 3
      ensures Sound(r.states[i]) ==> Step(r.states[i], ops[i]) == (r.states[i + 1], r.obs[i])
    {
      assert i == 0 || i == 1 || i == 2;
    }
  }
}
