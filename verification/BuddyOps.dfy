/**
 Splitting and merging as changes of the tiling, and what they do to the pages.
 */
module BuddyOps {
  import opened BuddyMath
  import opened BuddyTiling

  /** The block at `f` is handed out. */
  function Take(t: Tiling, f: nat): Tiling
    requires f in t
  {
    t[f := Block(t[f].order, Live)]
  }

  function Release(t: Tiling, f: nat): Tiling
    requires f in t
  {
    t[f := Block(t[f].order, Free)]
  }

  /** One round of the split loop: keep the lower half, free the upper one. */
  function SplitStep(t: Tiling, f: nat): Tiling
    requires f in t && t[f].order > 0
  {
    var o := t[f].order - 1;
    t[f := Block(o, Live)][f + Pow2(o) := Block(o, Free)]
  }

  function Split(t: Tiling, f: nat, min: nat): Tiling
    requires f in t
    decreases t[f].order
  {
    if t[f].order <= min then t
    else
      Pow2Positive(t[f].order - 1);
      Split(SplitStep(t, f), f, min)
  }

  function AllocTiling(t: Tiling, f: nat, min: nat): Tiling
    requires f in t
  {
    Split(Take(t, f), f, min)
  }

  predicate CanMerge(t: Tiling, c: nat)
    requires c in t
  {
    t[c].order < MAX_ORDER && FreeAt(t, FlipBit(c, t[c].order), t[c].order)
  }

  /** One round of the merge loop: the block and its free buddy become one live block. */
  function MergeStep(t: Tiling, c: nat): Tiling
    requires c in t
  {
    var m := t[c].order;
    (t - {c, FlipBit(c, m)})[ClearBit(c, m) := Block(m + 1, Live)]
  }

  /** The block the merge loop ends with. */
  function MergeUp(t: Tiling, c: nat): (Tiling, nat)
    requires c in t
    decreases MAX_ORDER - t[c].order
  {
    if CanMerge(t, c) then MergeUp(MergeStep(t, c), ClearBit(c, t[c].order)) else (t, c)
  }

  lemma {:induction false} MergeUpHead(t: Tiling, c: nat)
    requires c in t
    ensures MergeUp(t, c).1 in MergeUp(t, c).0
    decreases MAX_ORDER - t[c].order
  {
    if CanMerge(t, c) {
      MergeUpHead(MergeStep(t, c), ClearBit(c, t[c].order));
    }
  }

  function FreeTiling(t: Tiling, f: nat): Tiling
    requires f in t
  {
    MergeUpHead(t, f);
    var (t1, c) := MergeUp(t, f);
    Release(t1, c)
  }

  // ----- status changes -----

  lemma InPages(t: Tiling, status: Status, p: nat)
    ensures p in PagesOf(t, status) <==> exists f :: HeadOf(t, f, p) && t[f].status == status
  {
    if f :| HeadOf(t, f, p) && t[f].status == status {
      assert p in Run(f, t[f].order);
    }
  }

  lemma SetStatus(t: Tiling, owned: set<nat>, f: nat, status: Status)
    requires Tiled(t, owned) && f in t
    ensures Tiled(t[f := Block(t[f].order, status)], owned)
  {
    hide Pow2, Aligned, Range;
    var t1 := t[f := Block(t[f].order, status)];
    forall p | p in owned
      ensures exists g :: HeadOf(t1, g, p)
    {
      var g :| HeadOf(t, g, p);
      assert HeadOf(t1, g, p);
    }
  }

  /** The status of a page is that of the block it is in. */
  lemma PageStatus(t: Tiling, f: nat, p: nat, status: Status)
    requires Disjoint(t) && HeadOf(t, f, p)
    ensures p in PagesOf(t, status) <==> t[f].status == status
  {
    InPages(t, status, p);
    assert forall g :: HeadOf(t, g, p) ==> g == f;
  }

  /** Tilings with the same blocks around a page agree on it. */
  lemma SameHeads(t: Tiling, t1: Tiling, p: nat, status: Status)
    requires forall g :: HeadOf(t, g, p) <==> HeadOf(t1, g, p)
    requires forall g :: HeadOf(t, g, p) && g in t1 ==> t1[g].status == t[g].status
    ensures p in PagesOf(t, status) <==> p in PagesOf(t1, status)
  {
    InPages(t, status, p);
    InPages(t1, status, p);
  }

  lemma StatusPage(t: Tiling, owned: set<nat>, f: nat, new': Status, p: nat, s: Status)
    requires Tiled(t, owned) && f in t && t[f].status != new'
    ensures p in PagesOf(t[f := Block(t[f].order, new')], s) <==>
            (if p in Run(f, t[f].order) then s == new' else p in PagesOf(t, s))
    ensures p in Run(f, t[f].order) ==> (p in PagesOf(t, s) <==> s == t[f].status)
  {
    hide Pow2, Aligned, Range, PagesOf, BlocksOk, Covers;
    var t1 := t[f := Block(t[f].order, new')];
    if p in Run(f, t[f].order) {
      PageStatus(t, f, p, s);
      PageStatus(t1, f, p, s);
    } else {
      SameHeads(t, t1, p, s);
    }
  }

  /** The pages of a block change status with it; no other page does. */
  lemma StatusPages(t: Tiling, owned: set<nat>, f: nat, new': Status, s: Status)
    requires Tiled(t, owned) && f in t && t[f].status != new'
    ensures var run := Run(f, t[f].order);
            var after := PagesOf(t[f := Block(t[f].order, new')], s);
            && (s == t[f].status ==> after == PagesOf(t, s) - run && run <= PagesOf(t, s))
            && (s == new' ==> after == PagesOf(t, s) + run && run !! PagesOf(t, s))
            && (s != new' && s != t[f].status ==> after == PagesOf(t, s))
  {
    hide *;
    forall p
      ensures p in PagesOf(t[f := Block(t[f].order, new')], s) <==>
              (if p in Run(f, t[f].order) then s == new' else p in PagesOf(t, s))
      ensures p in Run(f, t[f].order) ==> (p in PagesOf(t, s) <==> s == t[f].status)
    {
      StatusPage(t, owned, f, new', p, s);
    }
  }

  lemma TakeMaximal(t: Tiling, f: nat)
    requires Maximal(t) && f in t
    ensures Maximal(Take(t, f))
  {
  }

  // ----- splitting -----

  lemma SplitStepTiled(t: Tiling, owned: set<nat>, f: nat)
    requires Tiled(t, owned) && f in t && t[f].order > 0
    ensures Tiled(SplitStep(t, f), owned)
  {
    hide Pow2, Aligned, FlipBit, ClearBit, Range;
    var o := t[f].order - 1;
    var hi := f + Pow2(o);
    var t1 := SplitStep(t, f);
    Pow2Double(o);
    SplitHalves(f, o);
    assert Run(f, o) <= Run(f, o + 1) && Run(hi, o) <= Run(f, o + 1);
    forall p | p in owned
      ensures exists g :: HeadOf(t1, g, p)
    {
      var g :| HeadOf(t, g, p);
      if g != f {
        assert HeadOf(t1, g, p);
      } else {
        assert HeadOf(t1, f, p) || HeadOf(t1, hi, p);
      }
    }
  }

  lemma SplitStepMaximal(t: Tiling, owned: set<nat>, f: nat)
    requires Tiled(t, owned) && Maximal(t) && f in t && t[f].order > 0 && t[f].status.Live?
    ensures Maximal(SplitStep(t, f))
  {
    hide Pow2, Aligned, ClearBit, FlipBit, Range;
    var o := t[f].order - 1;
    var hi := f + Pow2(o);
    var t1 := SplitStep(t, f);
    Pow2Double(o);
    SplitHalves(f, o);
    forall g | g in t1 && t1[g].status.Free? && t1[g].order < MAX_ORDER
      ensures !FreeAt(t1, FlipBit(g, t1[g].order), t1[g].order)
    {
      if g != hi && FlipBit(g, t1[g].order) == hi && t1[g].order == o {
        Halves(g, o);
      }
    }
  }

  lemma SplitStepPage(t: Tiling, owned: set<nat>, f: nat, p: nat, s: Status)
    requires Tiled(t, owned) && f in t && t[f].order > 0 && t[f].status.Live?
    ensures var hi := f + Pow2(t[f].order - 1);
            && (p in PagesOf(SplitStep(t, f), s) <==>
                (if p in Run(hi, t[f].order - 1) then s == Free else p in PagesOf(t, s)))
            && (p in Run(hi, t[f].order - 1) ==> (p in PagesOf(t, s) <==> s == Live))
  {
    hide Pow2, Aligned, Range, PagesOf, BlocksOk, Covers;
    var o := t[f].order - 1;
    var hi := f + Pow2(o);
    var t1 := SplitStep(t, f);
    Pow2Double(o);
    SplitStepTiled(t, owned, f);
    SplitTarget(t, owned, f);
    if p in Run(hi, o) {
      PageStatus(t1, hi, p, s);
      PageStatus(t, f, p, s);
    } else if p in Run(f, o) {
      PageStatus(t1, f, p, s);
      PageStatus(t, f, p, s);
    } else {
      SameHeads(t, t1, p, s);
    }
  }

  lemma SplitStepPages(t: Tiling, owned: set<nat>, f: nat)
    requires Tiled(t, owned) && f in t && t[f].order > 0 && t[f].status.Live?
    ensures var o := t[f].order - 1;
            && PagesOf(SplitStep(t, f), Live) == PagesOf(t, Live) - Run(f + Pow2(o), o)
            && PagesOf(SplitStep(t, f), Free) == PagesOf(t, Free) + Run(f + Pow2(o), o)
            && PagesOf(SplitStep(t, f), Reserved) == PagesOf(t, Reserved)
  {
    hide *;
    forall p
      ensures p in PagesOf(SplitStep(t, f), Live) <==> p in PagesOf(t, Live) - Run(f + Pow2(t[f].order - 1), t[f].order - 1)
      ensures p in PagesOf(SplitStep(t, f), Free) <==> p in PagesOf(t, Free) + Run(f + Pow2(t[f].order - 1), t[f].order - 1)
      ensures p in PagesOf(SplitStep(t, f), Reserved) <==> p in PagesOf(t, Reserved)
    {
      SplitStepPage(t, owned, f, p, Live);
      SplitStepPage(t, owned, f, p, Free);
      SplitStepPage(t, owned, f, p, Reserved);
    }
  }

  /** Splitting down keeps the tiling and gives back all but the lowest piece. */
  lemma {:induction false} SplitKeeps(t: Tiling, owned: set<nat>, f: nat, min: nat)
    requires Good(t, owned) && f in t && t[f].status.Live? && min <= t[f].order
    ensures var t1 := Split(t, f, min);
            && Good(t1, owned) && f in t1 && t1[f] == Block(min, Live)
            && PagesOf(t1, Live) == PagesOf(t, Live) - (Run(f, t[f].order) - Run(f, min))
            && PagesOf(t1, Free) == PagesOf(t, Free) + (Run(f, t[f].order) - Run(f, min))
            && PagesOf(t1, Reserved) == PagesOf(t, Reserved)
            && (forall g :: g in t1 && t1[g].status.Live? && g != f ==> g in t && t1[g] == t[g])
            && (forall g :: g in t && t[g].status.Live? && g != f ==> g in t1 && t1[g] == t[g])
    decreases t[f].order
  {
    hide Pow2, Aligned, FlipBit, ClearBit, Range, Tiled, Maximal;
    if t[f].order > min {
      var o := t[f].order - 1;
      var hi := f + Pow2(o);
      Pow2Double(o);
      Pow2Grows(min, o);
      SplitStepTiled(t, owned, f);
      SplitStepMaximal(t, owned, f);
      SplitStepPages(t, owned, f);
      SplitTarget(t, owned, f);
      var t1 := SplitStep(t, f);
      SplitKeeps(t1, owned, f, min);
      assert Run(f, o + 1) == Run(f, o) + Run(hi, o);
    }
  }

  /** No block starts where the upper half will start. */
  lemma SplitTarget(t: Tiling, owned: set<nat>, f: nat)
    requires Tiled(t, owned) && f in t && t[f].order > 0
    ensures f + Pow2(t[f].order - 1) !in t
  {
    Pow2Double(t[f].order - 1);
  }

  /** Allocating takes one aligned run of the requested size out of the free pages, and nothing else. */
  lemma AllocKeeps(t: Tiling, owned: set<nat>, f: nat, min: nat)
    requires Good(t, owned) && f in t && t[f].status.Free? && min <= t[f].order
    ensures var t1 := AllocTiling(t, f, min);
            && Good(t1, owned) && f in t1 && t1[f] == Block(min, Live)
            && Run(f, min) <= PagesOf(t, Free) && Run(f, min) !! PagesOf(t, Live)
            && PagesOf(t1, Free) == PagesOf(t, Free) - Run(f, min)
            && PagesOf(t1, Live) == PagesOf(t, Live) + Run(f, min)
            && PagesOf(t1, Reserved) == PagesOf(t, Reserved)
            && (forall g :: g != f ==> (g in t1 && t1[g].status.Live? <==> g in t && t[g].status.Live?))
            && (forall g :: g != f && g in t && t[g].status.Live? ==> g in t1 && t1[g] == t[g])
  {
    hide Pow2, Aligned, FlipBit, ClearBit, Range, Tiled, Maximal, PagesOf, Split;
    SetStatus(t, owned, f, Live);
    TakeMaximal(t, f);
    StatusPages(t, owned, f, Live, Live);
    StatusPages(t, owned, f, Live, Free);
    StatusPages(t, owned, f, Live, Reserved);
    SplitKeeps(Take(t, f), owned, f, min);
    Pow2Grows(min, t[f].order);
    assert Run(f, min) <= Run(f, t[f].order);
  }

  // ----- merging -----

  lemma MergeStepTiled(t: Tiling, owned: set<nat>, c: nat)
    requires Tiled(t, owned) && c in t && CanMerge(t, c)
    ensures Tiled(MergeStep(t, c), owned)
  {
    hide Pow2, Aligned, FlipBit, ClearBit, Range;
    var m := t[c].order;
    var s, lo := FlipBit(c, m), ClearBit(c, m);
    var t1 := MergeStep(t, c);
    Halves(c, m);
    Pow2Double(m);
    assert Run(lo, m + 1) == Run(c, m) + Run(s, m);
    forall g | g in t1 && g != lo
      ensures g + Pow2(t1[g].order) <= lo || lo + Pow2(m + 1) <= g
    {
      Pow2Positive(t[g].order);
    }
    forall p | p in owned
      ensures exists g :: HeadOf(t1, g, p)
    {
      var g :| HeadOf(t, g, p);
      if g == c || g == s {
        assert HeadOf(t1, lo, p);
      } else {
        assert HeadOf(t1, g, p);
      }
    }
  }

  lemma MergeStepMaximal(t: Tiling, c: nat)
    requires Maximal(t) && c in t
    ensures Maximal(MergeStep(t, c))
  {
  }

  lemma MergeStepPage(t: Tiling, owned: set<nat>, c: nat, p: nat, st: Status)
    requires Tiled(t, owned) && c in t && CanMerge(t, c) && t[c].status.Live?
    ensures var run := Run(FlipBit(c, t[c].order), t[c].order);
            && (p in PagesOf(MergeStep(t, c), st) <==> (if p in run then st == Live else p in PagesOf(t, st)))
            && (p in run ==> (p in PagesOf(t, st) <==> st == Free))
  {
    hide Pow2, Aligned, FlipBit, ClearBit, Range, PagesOf, BlocksOk, Covers;
    var m := t[c].order;
    var s, lo := FlipBit(c, m), ClearBit(c, m);
    var t1 := MergeStep(t, c);
    BlockAligned(t, owned, c);
    Halves(c, m);
    Pow2Double(m);
    MergeStepTiled(t, owned, c);
    if p in Run(s, m) {
      PageStatus(t1, lo, p, st);
      PageStatus(t, s, p, st);
    } else if p in Run(c, m) {
      PageStatus(t1, lo, p, st);
      PageStatus(t, c, p, st);
    } else {
      SameHeads(t, t1, p, st);
    }
  }

  lemma BlockAligned(t: Tiling, owned: set<nat>, c: nat)
    requires Tiled(t, owned) && c in t
    ensures Aligned(c, t[c].order) && t[c].order <= MAX_ORDER && Run(c, t[c].order) <= owned
  {
  }

  lemma MergeStepPages(t: Tiling, owned: set<nat>, c: nat)
    requires Tiled(t, owned) && c in t && CanMerge(t, c) && t[c].status.Live?
    ensures var run := Run(FlipBit(c, t[c].order), t[c].order);
            && PagesOf(MergeStep(t, c), Live) == PagesOf(t, Live) + run
            && PagesOf(MergeStep(t, c), Free) == PagesOf(t, Free) - run
            && PagesOf(MergeStep(t, c), Reserved) == PagesOf(t, Reserved)
            && run <= PagesOf(t, Free) && run !! PagesOf(t, Live)
  {
    hide *;
    var run := Run(FlipBit(c, t[c].order), t[c].order);
    forall p
      ensures p in PagesOf(MergeStep(t, c), Live) <==> p in PagesOf(t, Live) + run
      ensures p in PagesOf(MergeStep(t, c), Free) <==> p in PagesOf(t, Free) - run
      ensures p in PagesOf(MergeStep(t, c), Reserved) <==> p in PagesOf(t, Reserved)
      ensures p in run ==> p in PagesOf(t, Free) && p !in PagesOf(t, Live)
    {
      MergeStepPage(t, owned, c, p, Live);
      MergeStepPage(t, owned, c, p, Free);
      MergeStepPage(t, owned, c, p, Reserved);
    }
  }

  ghost predicate SameOtherLive(t: Tiling, f: nat, t1: Tiling, f1: nat) {
    && (forall g :: g in t1 && t1[g].status.Live? && g != f1 ==> g in t && t1[g] == t[g] && g != f)
    && (forall g :: g in t && t[g].status.Live? && g != f ==> g in t1 && t1[g] == t[g] && g != f1)
  }

  lemma MergeStepLive(t: Tiling, owned: set<nat>, c: nat)
    requires Tiled(t, owned) && c in t && CanMerge(t, c)
    ensures SameOtherLive(t, c, MergeStep(t, c), ClearBit(c, t[c].order))
  {
    hide Pow2, Aligned, FlipBit, ClearBit, Range;
    Halves(c, t[c].order);
  }

  /** The merge loop: the pages gained are free ones next to the block, and it stops only where no
      free buddy of the same order is left. */
  lemma {:induction false} MergeUpKeeps(t: Tiling, owned: set<nat>, c: nat)
    requires Good(t, owned) && c in t && t[c].status.Live?
    ensures var (t1, c1) := MergeUp(t, c);
            && Good(t1, owned) && c1 in t1 && t1[c1].status.Live? && !CanMerge(t1, c1)
            && SameOtherLive(t, c, t1, c1)
            && Run(c, t[c].order) <= Run(c1, t1[c1].order)
            && PagesOf(t1, Live) == PagesOf(t, Live) + (Run(c1, t1[c1].order) - Run(c, t[c].order))
            && PagesOf(t1, Free) == PagesOf(t, Free) - (Run(c1, t1[c1].order) - Run(c, t[c].order))
            && PagesOf(t1, Reserved) == PagesOf(t, Reserved)
            && Run(c1, t1[c1].order) <= PagesOf(t, Free) + Run(c, t[c].order)
    decreases MAX_ORDER - t[c].order
  {
    hide Pow2, Aligned, FlipBit, ClearBit, Range, Tiled, Maximal, PagesOf, FreeAt;
    if CanMerge(t, c) {
      var m := t[c].order;
      MergeStepTiled(t, owned, c);
      MergeStepMaximal(t, c);
      MergeStepPages(t, owned, c);
      MergeStepLive(t, owned, c);
      BlockAligned(t, owned, c);
      Halves(c, m);
      Pow2Double(m);
      assert Run(ClearBit(c, m), m + 1) == Run(c, m) + Run(FlipBit(c, m), m);
      OwnRunNotFree(t, owned, c);
      MergeUpKeeps(MergeStep(t, c), owned, ClearBit(c, m));
    }
  }

  lemma OwnRunNotFree(t: Tiling, owned: set<nat>, c: nat)
    requires Tiled(t, owned) && c in t && t[c].status.Live?
    ensures Run(c, t[c].order) !! PagesOf(t, Free) && Run(c, t[c].order) <= PagesOf(t, Live)
  {
    hide *;
    forall p | p in Run(c, t[c].order)
      ensures p !in PagesOf(t, Free) && p in PagesOf(t, Live)
    {
      StatusPage(t, owned, c, Free, p, Free);
      StatusPage(t, owned, c, Free, p, Live);
    }
  }

  lemma StatusesDisjoint(t: Tiling)
    requires Disjoint(t)
    ensures PagesOf(t, Free) !! PagesOf(t, Live)
  {
    forall p | p in PagesOf(t, Free)
      ensures p !in PagesOf(t, Live)
    {
      InPages(t, Free, p);
      var f :| HeadOf(t, f, p) && t[f].status.Free?;
      PageStatus(t, f, p, Live);
    }
  }

  lemma ReleaseMaximal(t: Tiling, owned: set<nat>, c: nat)
    requires Tiled(t, owned) && Maximal(t) && c in t && !CanMerge(t, c)
    ensures Maximal(Release(t, c))
  {
    hide Pow2, Aligned, FlipBit, ClearBit, Range;
    var t1 := Release(t, c);
    forall g | g in t1 && t1[g].status.Free? && t1[g].order < MAX_ORDER
      ensures !FreeAt(t1, FlipBit(g, t1[g].order), t1[g].order)
    {
      Halves(g, t1[g].order);
    }
  }

  /** Freeing gives exactly the block's pages back, with all merging done. */
  lemma FreeKeeps(t: Tiling, owned: set<nat>, f: nat)
    requires Good(t, owned) && f in t && t[f].status.Live?
    ensures var t1 := FreeTiling(t, f);
            && Good(t1, owned)
            && PagesOf(t1, Free) == PagesOf(t, Free) + Run(f, t[f].order)
            && PagesOf(t1, Live) == PagesOf(t, Live) - Run(f, t[f].order)
            && PagesOf(t1, Reserved) == PagesOf(t, Reserved)
            && Run(f, t[f].order) <= PagesOf(t, Live)
            && (forall g :: g in t1 && t1[g].status.Live? <==> g in t && t[g].status.Live? && g != f)
            && (forall g :: g in t && t[g].status.Live? && g != f ==> g in t1 && t1[g] == t[g])
  {
    hide Pow2, Aligned, FlipBit, ClearBit, Range, BlocksOk, Disjoint, Covers, Maximal, PagesOf, MergeUp, CanMerge;
    MergeUpKeeps(t, owned, f);
    var (t1, c) := MergeUp(t, f);
    SetStatus(t1, owned, c, Free);
    ReleaseMaximal(t1, owned, c);
    StatusPages(t1, owned, c, Free, Live);
    StatusPages(t1, owned, c, Free, Free);
    StatusPages(t1, owned, c, Free, Reserved);
    OwnRunNotFree(t, owned, f);
    StatusesDisjoint(t);
    assert forall p :: p in Run(c, t1[c].order) ==> p in PagesOf(t, Free) || p in Run(f, t[f].order);
  }

  /** Allocating a block through any number of splits and freeing it again restores the same free
      blocks of every order. */
  lemma AllocThenFree(t: Tiling, owned: set<nat>, f: nat, min: nat)
    requires Good(t, owned) && f in t && t[f].status.Free? && min <= t[f].order
    ensures f in AllocTiling(t, f, min)
    ensures var t2 := FreeTiling(AllocTiling(t, f, min), f);
            && Good(t2, owned)
            && (forall g, k :: FreeAt(t2, g, k) <==> FreeAt(t, g, k))
            && PagesOf(t2, Live) == PagesOf(t, Live)
  {
    hide Pow2, Aligned, FlipBit, ClearBit, Range, Tiled, Maximal, PagesOf, Split, FreeTiling, AllocTiling, FreeAt;
    AllocKeeps(t, owned, f, min);
    var t1 := AllocTiling(t, f, min);
    FreeKeeps(t1, owned, f);
    HistoryIndependence(FreeTiling(t1, f), t, owned, owned);
  }
}
