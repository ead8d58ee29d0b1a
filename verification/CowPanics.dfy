/**
 Runs in which the kernel panics for lack of a frame. A page is mapped and written: its page fault
 finds no frame for the copy. Seventeen shared pages are mapped, of which the last gets no frame, and
 the others are unmapped again: the clone finds no frame for the last.
 */
module CowPanics {
  import opened Common
  import opened RefCounts
  import opened CowModel
  import opened CowEager
  import opened CowInvariant
  import opened CowProofs
  import opened CowSteps
  import opened CowSimulation
  import opened CowPlain
  import opened CowDemand
  import opened CowOutcome
  import opened CowRuns

  const SHARED: Attr := Attr(true, true, false)

  /** The first page that `Grant::zeroed` leaves without a frame. */
  const LAZY: Loc := PageLoc(0, MAX_EAGER_PAGES)

  const FIRST: Region := Region(0, MAX_EAGER_PAGES)
  const PLAN: seq<Region> := [Region(MAX_EAGER_PAGES, 1)]

  /** Only the static frame exists, and address space 0. */
  ghost predicate OneFrame(k: Kernel) {
    k.mem.Keys == {1} && k.zero == 1 && k.spaces == {0}
  }

  lemma {:induction false} MapZeroRest(k: Kernel, s: nat, base: nat, count: nat, i: nat)
    requires i <= count
    ensures var r := MapZero(k, s, base, count, i);
            r.Some? ==>
              && r.value.mem == k.mem && r.value.zero == k.zero && r.value.spaces == k.spaces && r.value.attrs == k.attrs
              && (i <= MAX_EAGER_PAGES ==>
                    forall l :: l in r.value.entries && l !in k.entries ==> l.PageLoc? && l.page < base + MAX_EAGER_PAGES)
    decreases count - i
  {
    if i != count && i != MAX_EAGER_PAGES && k.zero in k.rc {
      match AddRef(k.rc[k.zero], CowKind)
      case Refused(_) =>
      case Added(rc) => MapZeroRest(WithZero(k, PageLoc(s, base + i), rc), s, base, count, i + 1);
    }
  }

  lemma {:induction false} GrantPagesAre(attrs: map<Loc, Attr>, s: nat, base: nat, count: nat, attr: Attr)
    ensures var a := GrantPages(attrs, s, base, count, attr);
            forall l :: l in a <==> l in attrs || (l.PageLoc? && l.space == s && base <= l.page < base + count)
    ensures forall l :: l in GrantPages(attrs, s, base, count, attr) && l !in attrs ==> GrantPages(attrs, s, base, count, attr)[l] == attr
    ensures forall l :: l in attrs ==> attrs[l] == attr ==> GrantPages(attrs, s, base, count, attr)[l] == attr
    decreases count
  {
    if count > 0 {
      GrantPagesAre(attrs[PageLoc(s, base) := attr], s, base + 1, count - 1, attr);
    }
  }

  lemma {:induction false} DropPagesRest(k: Kernel, s: nat, pages: seq<nat>)
    ensures var k1 := DropPages(k, s, pages);
            && k1.mem == k.mem && k1.zero == k.zero && k1.spaces == k.spaces
            && (forall l :: l in k1.attrs <==> l in k.attrs && !(l.PageLoc? && l.space == s && l.page in pages))
            && (forall l :: l in k1.attrs ==> k1.attrs[l] == k.attrs[l])
    decreases |pages|
  {
    if pages != [] {
      DropPagesRest(DropPage(k, PageLoc(s, pages[0])), s, pages[1..]);
      assert forall p :: p in pages <==> p == pages[0] || p in pages[1..];
    }
  }

  lemma FirstIsIn(pool: seq<nat>)
    requires pool != []
    ensures exists f :: f in pool
  {
    assert pool[0] in pool;
  }

  lemma NoneFree(k: Kernel)
    requires Inv(k) && OneFrame(k)
    ensures k.pool == []
  {
    if k.pool != [] {
      FirstIsIn(k.pool);
      assert false;
    }
  }

  lemma MapSeventeen(k: Kernel, e: Eager) returns (k1: Kernel)
    requires Inv(k) && Rel(k, e) && OneFrame(k) && k.attrs == map[] && k.entries == map[ZeroLoc := Entry(1, false)] && k.rc == map[1 := One]
    ensures Sound(k) && Step(k, ZeroMap(0, 0, MAX_EAGER_PAGES + 1, SHARED)) == (k1, Done)
    ensures OneFrame(k1) && LAZY !in k1.entries && LAZY in k1.attrs && k1.attrs[LAZY] == SHARED
    ensures forall l :: l in k1.attrs ==> l.PageLoc? && l.space == 0 && l.page <= MAX_EAGER_PAGES
  {
    var op := ZeroMap(0, 0, MAX_EAGER_PAGES + 1, SHARED);
    RelTables(k, e);
    ZeroMapReports(k, e, 0, 0, MAX_EAGER_PAGES + 1, SHARED);
    hide Inv, Rel, MapZero, GrantPages;
    GrantPagesAre(k.attrs, 0, 0, MAX_EAGER_PAGES + 1, SHARED);
    var start := k.(attrs := GrantPages(k.attrs, 0, 0, MAX_EAGER_PAGES + 1, SHARED));
    MapZeroRest(start, 0, 0, MAX_EAGER_PAGES + 1, 0);
    k1 := Step(k, op).0;
    assert NoConflict(k.attrs, 0, 0, MAX_EAGER_PAGES + 1);
  }

  /** The lazy page alone is left. */
  ghost predicate Lone(k: Kernel) {
    && OneFrame(k) && LAZY !in k.entries && LAZY in k.attrs && k.attrs[LAZY] == SHARED
    && forall l :: l in k.attrs ==> l == LAZY
  }

  lemma UnmapSixteen(k: Kernel)
    requires Sound(k) && OneFrame(k) && LAZY !in k.entries && LAZY in k.attrs && k.attrs[LAZY] == SHARED
    requires forall l :: l in k.attrs ==> l.PageLoc? && l.space == 0 && l.page <= MAX_EAGER_PAGES
    ensures Step(k, Unmap(0, Pages(FIRST))).1 == Done && Lone(Step(k, Unmap(0, Pages(FIRST))).0)
  {
    hide DropPages, Sound;
    DropPagesRest(k, 0, Pages(FIRST));
    DropPagesEntries(k, 0, Pages(FIRST));
    SixteenPages();
    var k1 := Step(k, Unmap(0, Pages(FIRST))).0;
    assert forall l :: l in k1.attrs ==> l in k.attrs && l.page !in Pages(FIRST);
  }

  lemma SixteenPages()
    ensures forall p: nat :: p in Pages(FIRST) <==> p < MAX_EAGER_PAGES
  {
    var pages := Pages(FIRST);
    forall p: nat | p < MAX_EAGER_PAGES
      ensures p in pages
    {
      assert pages[p] == p;
    }
  }

  lemma CloneLone(k: Kernel, e: Eager)
    requires Inv(k) && Rel(k, e) && Plain(k) && Lone(k)
    ensures Sound(k) && Step(k, Clone(0, PLAN)) == (k, Panicked)
  {
    hide Inv, Rel, Plain, CloneRegions;
    RelTables(k, e);
    NoneFree(k);
    CloneReports(k, e, 0, PLAN);
    assert Pages(PLAN[0]) == [MAX_EAGER_PAGES] && PLAN[1..] == [];
    assert Flatten(PLAN) == [MAX_EAGER_PAGES];
    assert IsPlan(k.attrs, 0, PLAN);
    AtFirst(k, 0, Flatten(PLAN));
    assert CloneStops(k, 0, PLAN, 0);
    assert Panics(k, Clone(0, PLAN));
  }

  lemma FirstSpace() returns (k: Kernel, e: Eager)
    ensures Sound(Boot(1, [])) && Step(Boot(1, []), NewSpace) == (k, Created(0))
    ensures Inv(k) && Rel(k, e) && Plain(k) && OneFrame(k) && k.attrs == map[] && k.entries == map[ZeroLoc := Entry(1, false)] && k.rc == map[1 := One]
  {
    hide Inv, Rel, Plain;
    BootKeeps(1, []);
    BootPlain(1, []);
    RelTables(Boot(1, []), EagerBoot);
    StepKeeps(Boot(1, []), EagerBoot, NewSpace);
    StepPlain(Boot(1, []), EagerBoot, NewSpace);
    k, e := Step(Boot(1, []), NewSpace).0, Advance(EagerBoot, NewSpace, Created(0));
  }

  /** Cloning panics in a run of four steps. */
  lemma LazySharedClonePanics() returns (r: Run)
    ensures IsRun(r, 1, []) && |r.ops| == 4 && r.ops[3].Clone? && r.obs[3] == Panicked
  {
    hide Inv, Rel, Plain, Step, Boot, Advance, Lone, OneFrame, Pages;
    var k1, e1 := FirstSpace();
    var op1, op2, op3 := ZeroMap(0, 0, MAX_EAGER_PAGES + 1, SHARED), Unmap(0, Pages(FIRST)), Clone(0, PLAN);
    var k2 := MapSeventeen(k1, e1);
    StepKeeps(k1, e1, op1);
    StepPlain(k1, e1, op1);
    var e2 := Advance(e1, op1, Done);
    RelTables(k2, e2);
    UnmapSixteen(k2);
    StepKeeps(k2, e2, op2);
    StepPlain(k2, e2, op2);
    var k3 := Step(k2, op2).0;
    CloneLone(k3, Advance(e2, op2, Done));
    r := Run([Boot(1, []), k1, k2, k3, k3], [NewSpace, op1, op2, op3], [Created(0), Done, Done, Panicked]);
    forall i | 0 <= i < 4
      ensures Sound(r.states[i]) ==> Step(r.states[i], r.ops[i]) == (r.states[i + 1], r.obs[i])
    {
      assert i == 0 || i == 1 || i == 2 || i == 3;
    }
  }

  // ----- a store -----

  const RW: Attr := Attr(false, true, false)
  const PAGE: Loc := PageLoc(0, 0)

  lemma MapOne(k: Kernel)
    requires OneFrame(k) && k.attrs == map[] && k.entries == map[ZeroLoc := Entry(1, false)] && k.rc == map[1 := One]
    ensures Sound(k)
    ensures var (k1, o) := Step(k, ZeroMap(0, 0, 1, RW));
            && o == Done && OneFrame(k1) && PAGE in k1.attrs && k1.attrs[PAGE] == RW
            && PAGE in k1.entries && k1.entries[PAGE].frame == 1 && 1 in k1.rc && k1.rc[1].Cow?
  {
    var start := k.(attrs := k.attrs[PAGE := RW]);
    assert GrantPages(k.attrs, 0, 0, 1, RW) == GrantPages(start.attrs, 0, 1, 0, RW);
    var mapped := start.(rc := start.rc[1 := Cow(2)], entries := start.entries[PAGE := Entry(1, false)]);
    assert MapZero(start, 0, 0, 1, 0) == MapZero(mapped, 0, 0, 1, 1);
  }

  /** A user store panics in a run of three steps. */
  lemma StorePanics() returns (r: Run)
    ensures IsRun(r, 1, []) && |r.ops| == 3 && r.ops[2].Store? && r.obs[2] == Panicked
  {
    hide Inv, Rel, Plain, Step, Boot, Advance, OneFrame;
    var k1, e1 := FirstSpace();
    var op1, op2 := ZeroMap(0, 0, 1, RW), Store(0, 0, 0, 7);
    MapOne(k1);
    var k2, e2 := Step(k1, op1).0, Advance(e1, op1, Done);
    StepKeeps(k1, e1, op1);
    NoneFree(k2);
    StoreReports(k2, e2, 0, 0, 0, 7);
    var k3 := Step(k2, op2).0;
    r := Run([Boot(1, []), k1, k2, k3], [NewSpace, op1, op2], [Created(0), Done, Panicked]);
    forall i | 0 <= i < 3
      ensures Sound(r.states[i]) ==> Step(r.states[i], r.ops[i]) == (r.states[i + 1], r.obs[i])
    {
      assert i == 0 || i == 1 || i == 2;
    }
  }
}
