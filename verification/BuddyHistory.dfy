/**
 Whole histories of allocations and frees (src/memory/mod.rs).
 */
module BuddyHistory {
  import opened Common
  import opened BuddyMath
  import opened BuddyTiling
  import opened BuddyOps
  import opened BuddyLists
  import opened BuddyAllocator

  datatype Op = Allocated(frame: nat, order: nat) | Freed(frame: nat)

  /** What an allocation may return, and what a caller may free. */
  predicate Allowed(t: Tiling, op: Op) {
    op.frame in t &&
    match op
    case Allocated(f, order) => t[f].status.Free? && order <= t[f].order
    case Freed(f) => t[f].status.Live?
  }

  function Apply(t: Tiling, op: Op): Tiling
    requires Allowed(t, op)
  {
    match op
    case Allocated(f, order) => AllocTiling(t, f, order)
    case Freed(f) => FreeTiling(t, f)
  }

  ghost predicate IsHistory(t: Tiling, ops: seq<Op>)
    decreases |ops|, 0
  {
    ops == [] || (IsHistory(t, ops[..|ops| - 1]) && Allowed(After(t, ops[..|ops| - 1]), ops[|ops| - 1]))
  }

  ghost function After(t: Tiling, ops: seq<Op>): Tiling
    requires IsHistory(t, ops)
    decreases |ops|, 1
  {
    if ops == [] then t else Apply(After(t, ops[..|ops| - 1]), ops[|ops| - 1])
  }

  /** The blocks handed out and not yet freed, as the callers keep count of them. */
  function Outstanding(held: map<nat, nat>, ops: seq<Op>): map<nat, nat>
    decreases |ops|
  {
    if ops == [] then held
    else
      var before := Outstanding(held, ops[..|ops| - 1]);
      match ops[|ops| - 1]
      case Allocated(f, order) => before[f := order]
      case Freed(f) => before - {f}
  }

  function LiveBlocks(t: Tiling): map<nat, nat> {
    map f | f in t && t[f].status.Live? :: t[f].order
  }

  /** What the allocator does is a step of a history. */
  method AllocateIsStep(a: FrameAllocator, order: nat) returns (r: Option<nat>)
    requires a.Valid()
    modifies a
    ensures a.Valid() && a.infos.Keys == old(a.infos.Keys)
    ensures if r.Some? then Allowed(old(a.tiling), Allocated(r.value, order)) && a.tiling == Apply(old(a.tiling), Allocated(r.value, order))
            else a.tiling == old(a.tiling)
  {
    r := a.Allocate(order);
  }

  /** Every live block may be freed with the order it was handed out with. */
  method DeallocateIsStep(a: FrameAllocator, f: nat, order: nat) returns (panicked: bool)
    requires a.Valid() && f in LiveBlocks(a.tiling) && LiveBlocks(a.tiling)[f] == order
    modifies a
    ensures Allowed(old(a.tiling), Freed(f))
    ensures !panicked ==> a.Valid() && a.infos.Keys == old(a.infos.Keys) && a.tiling == Apply(old(a.tiling), Freed(f))
  {
    panicked := a.Deallocate(f, order);
  }

  lemma StepKeeps(t: Tiling, owned: set<nat>, op: Op)
    requires Good(t, owned) && Allowed(t, op)
    ensures Good(Apply(t, op), owned)
    ensures LiveBlocks(Apply(t, op)) ==
            match op case Allocated(f, order) => LiveBlocks(t)[f := order] case Freed(f) => LiveBlocks(t) - {f}
    ensures PagesOf(Apply(t, op), Reserved) == PagesOf(t, Reserved)
  {
    hide Good, PagesOf, AllocTiling, FreeTiling, Run;
    match op
    case Allocated(f, order) =>
      AllocKeeps(t, owned, f, order);
    case Freed(f) =>
      FreeKeeps(t, owned, f);
  }

  /** Any history keeps the tiling sound and complete, and the live blocks are exactly the ones the
      callers hold, in the sizes they asked for: no two callers ever hold the same page. */
  lemma {:induction false} HistoryKeeps(t: Tiling, owned: set<nat>, ops: seq<Op>)
    requires Good(t, owned) && IsHistory(t, ops)
    ensures Good(After(t, ops), owned)
    ensures LiveBlocks(After(t, ops)) == Outstanding(LiveBlocks(t), ops)
    ensures PagesOf(After(t, ops), Reserved) == PagesOf(t, Reserved)
    decreases |ops|
  {
    hide Good, PagesOf, Apply, LiveBlocks, Allowed;
    if ops != [] {
      HistoryKeeps(t, owned, ops[..|ops| - 1]);
      StepKeeps(After(t, ops[..|ops| - 1]), owned, ops[|ops| - 1]);
    }
  }

  /** Two histories that hand out the same blocks leave the same free blocks, in whatever order
      the calls came. */
  lemma OrderDoesNotMatter(t: Tiling, owned: set<nat>, ops1: seq<Op>, ops2: seq<Op>)
    requires Good(t, owned) && IsHistory(t, ops1) && IsHistory(t, ops2)
    requires Outstanding(LiveBlocks(t), ops1) == Outstanding(LiveBlocks(t), ops2)
    ensures forall f, k :: FreeAt(After(t, ops1), f, k) <==> FreeAt(After(t, ops2), f, k)
    ensures PagesOf(After(t, ops1), Live) == PagesOf(After(t, ops2), Live)
  {
    hide Good, PagesOf, After, LiveBlocks, IsHistory, Outstanding, FreeAt;
    HistoryKeeps(t, owned, ops1);
    HistoryKeeps(t, owned, ops2);
    var t1, t2 := After(t, ops1), After(t, ops2);
    LivePages(t1, t2);
    FreeIsTheRest(t1, owned);
    FreeIsTheRest(t2, owned);
    HistoryIndependence(t1, t2, owned, owned);
  }

  lemma LivePages(t1: Tiling, t2: Tiling)
    requires LiveBlocks(t1) == LiveBlocks(t2)
    ensures PagesOf(t1, Live) == PagesOf(t2, Live)
  {
    LivePagesWithin(t1, t2);
    LivePagesWithin(t2, t1);
  }

  lemma LivePagesWithin(t1: Tiling, t2: Tiling)
    requires LiveBlocks(t1) == LiveBlocks(t2)
    ensures PagesOf(t1, Live) <= PagesOf(t2, Live)
  {
    hide Run;
    forall p | p in PagesOf(t1, Live)
      ensures p in PagesOf(t2, Live)
    {
      var f, q :| f in t1 && t1[f].status == Live && q in Run(f, t1[f].order) && q == p;
      assert f in LiveBlocks(t1) && LiveBlocks(t1)[f] == t1[f].order;
      assert f in LiveBlocks(t2);
    }
  }

  /** Conservation: every owned page is live, reserved or free, and in one of these ways only. */
  lemma FreeIsTheRest(t: Tiling, owned: set<nat>)
    requires Good(t, owned)
    ensures PagesOf(t, Free) == owned - PagesOf(t, Live) - PagesOf(t, Reserved)
    ensures PagesOf(t, Live) !! PagesOf(t, Reserved)
  {
    hide *;
    forall p
      ensures p in PagesOf(t, Free) <==> p in owned && p !in PagesOf(t, Live) && p !in PagesOf(t, Reserved)
      ensures !(p in PagesOf(t, Live) && p in PagesOf(t, Reserved))
    {
      OneStatus(t, owned, p);
    }
  }

  lemma OneStatus(t: Tiling, owned: set<nat>, p: nat)
    requires Good(t, owned)
    ensures p in PagesOf(t, Free) <==> p in owned && p !in PagesOf(t, Live) && p !in PagesOf(t, Reserved)
    ensures !(p in PagesOf(t, Live) && p in PagesOf(t, Reserved))
  {
    hide Pow2, Aligned, Maximal, PagesOf;
    if p in owned {
      var f :| HeadOf(t, f, p);
      PageStatus(t, f, p, Free);
      PageStatus(t, f, p, Live);
      PageStatus(t, f, p, Reserved);
    } else {
      NotOwned(t, owned, p, Free);
      NotOwned(t, owned, p, Live);
    }
  }

  lemma NotOwned(t: Tiling, owned: set<nat>, p: nat, s: Status)
    requires Tiled(t, owned) && p !in owned
    ensures p !in PagesOf(t, s)
  {
  }

  /** After any history a request of order `k` is refused exactly when no aligned run of that size
      is among the pages that are neither held nor reserved. */
  lemma NeverRefusedInVain(t: Tiling, owned: set<nat>, ops: seq<Op>, k: nat)
    requires Good(t, owned) && IsHistory(t, ops) && k <= MAX_ORDER
    ensures var now := After(t, ops);
            (exists b :: b in now && now[b].status.Free? && k <= now[b].order) <==>
            (exists f :: Aligned(f, k) && Run(f, k) <= owned - PagesOf(now, Live) - PagesOf(t, Reserved))
  {
    hide Good, PagesOf, After, IsHistory, LiveBlocks, Outstanding, Aligned;
    HistoryKeeps(t, owned, ops);
    var now := After(t, ops);
    FreeIsTheRest(now, owned);
    ServableIff(now, owned, k);
    assert forall f :: RunFree(now, f, k) <==> Run(f, k) <= owned - PagesOf(now, Live) - PagesOf(t, Reserved);
  }
}
