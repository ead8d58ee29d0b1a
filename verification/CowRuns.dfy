/**
 Whole runs: every run of the kernel is a run of the eager specification.
 */
module CowRuns {
  import opened Common
  import opened RefCounts
  import opened CowModel
  import opened CowEager
  import opened CowInvariant
  import opened CowProofs
  import opened CowCopy
  import opened CowClone
  import opened CowSteps
  import opened CowSimulation
  import opened CowPlain
  import opened CowDemand
  import opened CowOutcome

  // ----- runs -----

  datatype Run = Run(states: seq<Kernel>, ops: seq<Op>, obs: seq<Obs>)

  /** A run of the kernel from boot: any steps, in any order, with any outcomes. */
  ghost predicate IsRun(r: Run, zero: nat, pool: seq<nat>) {
    && |r.states| == |r.ops| + 1 && |r.obs| == |r.ops|
    && r.states[0] == Boot(zero, pool)
    && forall i | 0 <= i < |r.ops| ::
         Sound(r.states[i]) ==> Step(r.states[i], r.ops[i]) == (r.states[i + 1], r.obs[i])
  }

  /** The eager state after the first `i` steps. */
  function EagerAt(r: Run, i: nat): Eager
    requires i <= |r.ops| && |r.obs| == |r.ops|
  {
    if i == 0 then EagerBoot else Advance(EagerAt(r, i - 1), r.ops[i - 1], r.obs[i - 1])
  }

  lemma BootKeeps(zero: nat, pool: seq<nat>)
    requires zero !in pool && Distinct(pool)
    ensures Inv(Boot(zero, pool)) && Rel(Boot(zero, pool), EagerBoot)
  {
    var k := Boot(zero, pool);
    assert Refs(k.entries, zero) == {ZeroLoc};
  }

  /** Lazy sharing refines eager copying: in every run, after every step, each page and each borrowed
      frame reads as it would if every clone had copied, and each step reports what the eager memory
      reports, except that it panics or runs out of memory exactly when the state before it says so. */
  lemma {:induction false} LazyRefinesEager(r: Run, zero: nat, pool: seq<nat>, i: nat)
    requires zero !in pool && Distinct(pool) && IsRun(r, zero, pool) && i <= |r.ops|
    ensures Inv(r.states[i]) && Rel(r.states[i], EagerAt(r, i)) && Plain(r.states[i])
    ensures Sound(r.states[i]) && (i < |r.ops| ==> r.obs[i] == Report(r.states[i], EagerAt(r, i), r.ops[i]))
    decreases i
  {
    hide Inv, Rel, Plain, Report;
    if i == 0 {
      BootKeeps(zero, pool);
      BootPlain(zero, pool);
    } else {
      var k, e := r.states[i - 1], EagerAt(r, i - 1);
      LazyRefinesEager(r, zero, pool, i - 1);
      StepKeeps(k, e, r.ops[i - 1]);
      StepPlain(k, e, r.ops[i - 1]);
      assert Step(k, r.ops[i - 1]) == (r.states[i], r.obs[i - 1]);
    }
    RelTables(r.states[i], EagerAt(r, i));
    if i < |r.ops| {
      StepReports(r.states[i], EagerAt(r, i), r.ops[i]);
      assert Step(r.states[i], r.ops[i]) == (r.states[i + 1], r.obs[i]);
    }
  }

  /** The consequences for one state of a run, in the kernel's own terms. */
  lemma ReachableIsConsistent(r: Run, zero: nat, pool: seq<nat>, i: nat)
    requires zero !in pool && Distinct(pool) && IsRun(r, zero, pool) && i <= |r.ops|
    ensures var k := r.states[i];
            // every count is the number of references, so a frame is free exactly when it has none
            && (forall f :: f in k.rc ==> |Refs(k.entries, f)| == Count(k.rc[f]))
            && (forall f :: f in k.mem ==> (f in k.pool <==> Refs(k.entries, f) == {}))
            // no entry on a copy-on-write frame is writable, none exceeds its grant
            && (forall l :: l in k.entries && k.entries[l].write ==>
                  k.entries[l].frame in k.rc && !k.rc[k.entries[l].frame].Cow? && (l in k.attrs ==> k.attrs[l].write))
            // no live page table maps a page outside its grants
            && (forall l :: l in k.entries && l.PageLoc? && l.space in k.spaces ==> l in k.attrs)
            // the frames are conserved
            && (forall f :: f in k.mem <==> f in k.rc || f in k.pool)
  {
    LazyRefinesEager(r, zero, pool, i);
    var k := r.states[i];
    forall f | f in k.mem
      ensures f in k.pool <==> Refs(k.entries, f) == {}
    {
      if f in k.pool {
        assert f !in k.rc;
      } else {
        assert |Refs(k.entries, f)| == Count(k.rc[f]);
      }
    }
  }

  /** Two locations are one cell of the eager memory only on one frame of kind `Shared`. */
  lemma OneCellOneFrame(k: Kernel, e: Eager, l: Loc, m: Loc)
    requires Rel(k, e) && l != m && l in e.cellOf && m in e.cellOf && e.cellOf[l] == e.cellOf[m]
    ensures l in k.entries && m in k.entries && k.entries[l].frame == k.entries[m].frame
    ensures k.entries[l].frame in k.rc && k.rc[k.entries[l].frame].Shared?
  {
  }

  /** A shared page and its image in a clone are one frame right after the clone. */
  lemma ClonesShareFrames(k: Kernel, e: Eager, s: nat, plan: seq<Region>, p: nat)
    requires Inv(k) && Rel(k, e) && s in k.spaces && IsPlan(k.attrs, s, plan)
    requires Step(k, Clone(s, plan)).1.Created?
    requires PageLoc(s, p) in k.attrs && k.attrs[PageLoc(s, p)].shared
    ensures var k1 := Step(k, Clone(s, plan)).0;
            var l, m := PageLoc(s, p), PageLoc(k.nextSpace, p);
            && l in k1.entries && m in k1.entries && k1.entries[l].frame == k1.entries[m].frame
            && k1.entries[l].frame in k1.rc && k1.rc[k1.entries[l].frame].Shared?
  {
    hide Inv, Rel;
    RelTables(k, e);
    CloneStep(k, e, s, plan);
    assert s != k.nextSpace && p in Flatten(plan) by {
      CloneStarts(k, e, s, plan);
    }
    SharedPagesAlias(e.(nextSpace := k.nextSpace + 1), s, k.nextSpace, Flatten(plan), p);
    OneCellOneFrame(Step(k, Clone(s, plan)).0, EagerStep(e, Clone(s, plan)).0,
                    PageLoc(s, p), PageLoc(k.nextSpace, p));
  }

  lemma {:induction false} SharedPagesAlias(e: Eager, s: nat, t: nat, pages: seq<nat>, p: nat)
    requires s != t && p in pages
    requires PageLoc(s, p) in e.attrs && PageLoc(s, p) in e.cellOf && e.attrs[PageLoc(s, p)].shared
    ensures var e1 := CopyCells(e, s, t, pages);
            PageLoc(s, p) in e1.cellOf && PageLoc(t, p) in e1.cellOf
            && e1.cellOf[PageLoc(s, p)] == e1.cellOf[PageLoc(t, p)]
    decreases |pages|
  {
    var src, dst := PageLoc(s, pages[0]), PageLoc(t, pages[0]);
    var e1 := if src in e.attrs && src in e.cellOf then CopyCell(e, src, dst) else e;
    if p in pages[1..] {
      SharedPagesAlias(e1, s, t, pages[1..], p);
    } else {
      assert p == pages[0];
      CopyCellsGrow(e1, s, t, pages[1..]);
      CopyCellsFrame(e1, s, t, pages[1..], p);
    }
  }

  lemma {:induction false} CopyCellsFrame(e: Eager, s: nat, t: nat, pages: seq<nat>, p: nat)
    requires s != t && p !in pages && PageLoc(t, p) in e.cellOf
    ensures PageLoc(t, p) in CopyCells(e, s, t, pages).cellOf
    ensures CopyCells(e, s, t, pages).cellOf[PageLoc(t, p)] == e.cellOf[PageLoc(t, p)]
    decreases |pages|
  {
    if pages != [] {
      var src, dst := PageLoc(s, pages[0]), PageLoc(t, pages[0]);
      assert pages[0] in pages;
      CopyCellsFrame(if src in e.attrs && src in e.cellOf then CopyCell(e, src, dst) else e, s, t, pages[1..], p);
    }
  }
}
