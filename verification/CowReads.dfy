/**
 Whole runs against the history of calls: what every call reports, and every byte that is read, follow
 from the calls made before and their reports alone.
 */
module CowReads {
  import opened Common
  import opened CowModel
  import opened CowEager
  import opened CowInvariant
  import opened CowProofs
  import opened CowClone
  import opened CowSimulation
  import opened CowPlain
  import opened CowOutcome
  import opened CowRuns
  import opened CowHistory
  import opened CowBytes

  // ----- the eager memory is the history -----

  ghost predicate SameTablesAt(h: History, i: nat, e: Eager)
    requires i <= |h.ops| == |h.obs|
  {
    && (forall l :: l in e.cellOf <==> h.Has(i, l))
    && (forall l :: l in e.attrs ==> e.attrs[l] == h.AttrAt(i, l))
    && (forall s :: s in e.spaces <==> h.LiveSpace(i, s))
  }

  ghost predicate SameObjectsAt(h: History, i: nat, e: Eager)
    requires i <= |h.ops| == |h.obs|
  {
    forall l, m :: l in e.cellOf && m in e.cellOf ==> (e.cellOf[l] == e.cellOf[m] <==> h.Object(i, l) == h.Object(i, m))
  }

  ghost predicate SameBytesAt(h: History, i: nat, e: Eager)
    requires i <= |h.ops| == |h.obs|
  {
    forall l, b | l in e.cellOf && 0 <= b < PAGE_SIZE :: ReadCell(e, l)[b] == h.Content(i, l, b)
  }

  ghost predicate Tracks(h: History, i: nat, e: Eager)
    requires i <= |h.ops| == |h.obs|
  {
    EagerOk(e) && SameTablesAt(h, i, e) && SameObjectsAt(h, i, e) && SameBytesAt(h, i, e)
  }

  /** One step of both. */
  ghost predicate Moves(h: History, i: nat, e: Eager, e1: Eager)
    requires i < |h.ops| == |h.obs|
  {
    Effect(e, e1, h.ops[i], h.obs[i]) && (Stores(h.ops[i], h.obs[i]) ==> Target(h.ops[i]) in e.cellOf)
  }

  lemma EffectAt(h: History, i: nat, e: Eager, e1: Eager, l: Loc)
    requires i < |h.ops| == |h.obs| && Moves(h, i, e, e1)
    ensures LocEffect(e, e1, h.ops[i], h.obs[i], l)
  {
  }

  lemma HasStep(h: History, i: nat, e: Eager, e1: Eager, l: Loc)
    requires i < |h.ops| == |h.obs| && SameTablesAt(h, i, e) && LocEffect(e, e1, h.ops[i], h.obs[i], l)
    ensures l in e1.cellOf <==> h.Has(i + 1, l)
    ensures l in e1.attrs && l in e1.cellOf && l.PageLoc? ==> e1.attrs[l] == h.AttrAt(i + 1, l)
  {
    hide ReadCell, From, Maps, Removes, NewFor, Hits;
  }

  lemma SpaceStep(h: History, i: nat, e: Eager, e1: Eager, s: nat)
    requires i < |h.ops| == |h.obs| && SameTablesAt(h, i, e) && SpaceEffect(e, e1, h.ops[i], h.obs[i])
    ensures s in e1.spaces <==> h.LiveSpace(i + 1, s)
  {
    assert s in e.spaces <==> h.LiveSpace(i, s);
  }

  lemma TablesStep(h: History, i: nat, e: Eager, e1: Eager)
    requires i < |h.ops| == |h.obs| && Tracks(h, i, e) && Moves(h, i, e, e1)
    ensures SameTablesAt(h, i + 1, e1)
  {
    hide SameObjectsAt, SameBytesAt, LocEffect, SpaceEffect, ReadCell, EagerOk;
    forall l
      ensures l in e1.cellOf <==> h.Has(i + 1, l)
      ensures l in e1.attrs ==> e1.attrs[l] == h.AttrAt(i + 1, l)
    {
      EffectAt(h, i, e, e1, l);
      AttrsPages(e1, l);
      HasStep(h, i, e, e1, l);
    }
    forall s
      ensures s in e1.spaces <==> h.LiveSpace(i + 1, s)
    {
      SpaceStep(h, i, e, e1, s);
    }
  }

  /** A location has a new cell exactly when the history makes a new object for it. */
  lemma NewIsMade(h: History, i: nat, e: Eager, e1: Eager, l: Loc)
    requires i < |h.ops| == |h.obs| && SameTablesAt(h, i, e) && EagerOk(e) && LocEffect(e, e1, h.ops[i], h.obs[i], l) && l in e1.cellOf
    ensures NewFor(e, h.ops[i], h.obs[i], l) <==> h.Makes(i, l)
    ensures !h.Makes(i, l) ==> var m := From(h.ops[i], h.obs[i], l); m in e.cellOf && e1.cellOf[l] == e.cellOf[m] && h.Object(i + 1, l) == h.Object(i, m)
    ensures h.Makes(i, l) ==> e.nextCell <= e1.cellOf[l] && h.Object(i + 1, l) == (i + 1, l)
  {
    hide ReadCell, Hits;
    if Clones(h.ops[i], h.obs[i], l) {
      AttrsPages(e, From(h.ops[i], h.obs[i], l));
    }
  }

  lemma ObjectsStep(h: History, i: nat, e: Eager, e1: Eager)
    requires i < |h.ops| == |h.obs| && Tracks(h, i, e) && Moves(h, i, e, e1)
    ensures SameObjectsAt(h, i + 1, e1)
  {
    hide SameTablesAt, SameBytesAt, LocEffect, SpaceEffect, ReadCell, EagerOk;
    var op, o := h.ops[i], h.obs[i];
    forall l, m | l in e1.cellOf && m in e1.cellOf
      ensures e1.cellOf[l] == e1.cellOf[m] <==> h.Object(i + 1, l) == h.Object(i + 1, m)
    {
      EffectAt(h, i, e, e1, l);
      EffectAt(h, i, e, e1, m);
      NewIsMade(h, i, e, e1, l);
      NewIsMade(h, i, e, e1, m);
      ObjectIsOld(h, i, From(op, o, l));
      ObjectIsOld(h, i, From(op, o, m));
      AttrsPages(e, From(op, o, l));
      AttrsPages(e, From(op, o, m));
      hide From, NewFor, History.Makes, History.Object;
    }
  }

  lemma ByteStep(h: History, i: nat, e: Eager, e1: Eager, l: Loc, b: nat)
    requires i < |h.ops| == |h.obs| && Tracks(h, i, e) && Moves(h, i, e, e1) && l in e1.cellOf && b < PAGE_SIZE
    ensures ReadCell(e1, l)[b] == h.Content(i + 1, l, b)
  {
    hide SameTablesAt, SpaceEffect, ReadCell, EagerOk, NewFor;
    EffectAt(h, i, e, e1, l);
  }

  lemma BytesStep(h: History, i: nat, e: Eager, e1: Eager)
    requires i < |h.ops| == |h.obs| && Tracks(h, i, e) && Moves(h, i, e, e1)
    ensures SameBytesAt(h, i + 1, e1)
  {
    hide Tracks, Moves, ReadCell;
    forall l, b | l in e1.cellOf && 0 <= b < PAGE_SIZE
      ensures ReadCell(e1, l)[b] == h.Content(i + 1, l, b)
    {
      ByteStep(h, i, e, e1, l, b);
    }
  }

  /** A store that is done has a target. */
  lemma StoreHasTarget(e: Eager, op: Op)
    requires EagerOk(e) && Stores(op, EagerStep(e, op).1)
    ensures Target(op) in e.cellOf
  {
  }

  lemma {:induction false} RunTracks(r: Run, zero: nat, pool: seq<nat>, i: nat)
    requires zero !in pool && Distinct(pool) && IsRun(r, zero, pool) && i <= |r.ops|
    ensures |r.ops| == |r.obs| && Tracks(History(r.ops, r.obs), i, EagerAt(r, i))
    decreases i
  {
    var h := History(r.ops, r.obs);
    if i > 0 {
      hide Inv, Rel, Plain, Report, Tracks, Effect, EagerOk;
      var e, op, o := EagerAt(r, i - 1), r.ops[i - 1], r.obs[i - 1];
      RunTracks(r, zero, pool, i - 1);
      TracksOk(h, i - 1, e);
      RunSimulates(r, zero, pool, i - 1);
      StepEffect(e, op, o);
      if Stores(op, o) {
        StoreHasTarget(e, op);
      }
      var e1 := EagerAt(r, i);
      TablesStep(h, i - 1, e, e1);
      ObjectsStep(h, i - 1, e, e1);
      BytesStep(h, i - 1, e, e1);
      TracksJoin(h, i, e, e1);
    }
  }

  lemma TracksOk(h: History, i: nat, e: Eager)
    requires i <= |h.ops| == |h.obs| && Tracks(h, i, e)
    ensures EagerOk(e)
  {
  }

  lemma TracksJoin(h: History, i: nat, e: Eager, e1: Eager)
    requires 0 < i <= |h.ops| == |h.obs| && Moves(h, i - 1, e, e1)
    requires SameTablesAt(h, i, e1) && SameObjectsAt(h, i, e1) && SameBytesAt(h, i, e1)
    ensures Tracks(h, i, e1)
  {
    hide EagerOk, SameTablesAt, SameObjectsAt, SameBytesAt, LocEffect, NewDiffer, SpaceEffect;
  }

  lemma RunSimulates(r: Run, zero: nat, pool: seq<nat>, i: nat)
    requires zero !in pool && Distinct(pool) && IsRun(r, zero, pool) && i < |r.ops|
    ensures var o := r.obs[i]; o.OutOfMemory? || o.Panicked? || o == EagerStep(EagerAt(r, i), r.ops[i]).1
  {
    hide Inv, Rel, Plain, Panics, RunsShort;
    LazyRefinesEager(r, zero, pool, i);
  }

  // ----- what is read -----

  /** In every run, each location reads, byte by byte, the last value stored in the piece of memory it
      is, and zero where nothing was stored since it was mapped. */
  lemma ReadsLastStored(r: Run, zero: nat, pool: seq<nat>, i: nat, l: Loc, b: nat)
    requires zero !in pool && Distinct(pool) && IsRun(r, zero, pool) && i <= |r.ops| && b < PAGE_SIZE
    requires |r.ops| == |r.obs| && History(r.ops, r.obs).Has(i, l)
    ensures View(r.states[i], l)[b] == History(r.ops, r.obs).Content(i, l, b)
  {
    hide Inv, Plain, Report, EagerOk, ReadCell;
    RunTracks(r, zero, pool, i);
    LazyRefinesEager(r, zero, pool, i);
    RelTables(r.states[i], EagerAt(r, i));
    CellIsView(r.states[i], EagerAt(r, i), l);
  }

  lemma CellIsView(k: Kernel, e: Eager, l: Loc)
    requires Inv(k) && Rel(k, e) && l in e.cellOf
    ensures ReadCell(e, l) == View(k, l)
  {
  }

  // ----- what is reported -----

  /** The page may not be accessed in this way. */
  predicate Denied(h: History, i: nat, l: Loc, access: Access)
    requires i <= |h.ops| == |h.obs|
  {
    || !h.Has(i, l)
    || (access.WriteAccess? && !h.AttrAt(i, l).write)
    || (access.FetchAccess? && !h.AttrAt(i, l).exec)
  }

  ghost predicate Reads(h: History, i: nat, l: Loc, o: Obs)
    requires i <= |h.ops| == |h.obs|
  {
    o.Value? && forall b | 0 <= b < PAGE_SIZE :: o.data[b] == h.Content(i, l, b)
  }

  predicate InRegion(r: Region, p: nat) {
    r.base <= p < r.base + r.count
  }

  ghost predicate InPlan(plan: seq<Region>, p: nat) {
    exists j | 0 <= j < |plan| :: InRegion(plan[j], p)
  }

  /** No page is in two of the regions. */
  ghost predicate NoOverlap(plan: seq<Region>) {
    forall j, k, p: nat | 0 <= j < k < |plan| :: !(InRegion(plan[j], p) && InRegion(plan[k], p))
  }

  /** The regions do not overlap and are the pages of the space. */
  ghost predicate Exact(h: History, i: nat, s: nat, plan: seq<Region>)
    requires i <= |h.ops| == |h.obs|
  {
    NoOverlap(plan) && forall p: nat :: h.Has(i, PageLoc(s, p)) <==> InPlan(plan, p)
  }

  /** What the history says a call reports when memory does not run out. */
  ghost predicate Told(h: History, i: nat, op: Op, o: Obs)
    requires i <= |h.ops| == |h.obs|
  {
    match op
    case NewSpace => o.Created? && NewNumber(h, i, o.id)
    case ZeroMap(s, base, count, _) =>
      o == if h.LiveSpace(i, s) && (forall p | base <= p < base + count :: !h.Has(i, PageLoc(s, p))) then Done else Rejected
    case Load(s, p, access) => if Denied(h, i, PageLoc(s, p), access) then o.Segv? else Reads(h, i, PageLoc(s, p), o)
    case Store(s, p, _, _) => o == if Denied(h, i, PageLoc(s, p), WriteAccess) then Segv else Done
    case Clone(s, plan) => if h.LiveSpace(i, s) && Exact(h, i, s, plan) then o.Created? && NewNumber(h, i, o.id) else o.Rejected?
    case Unmap(s, _) => o == if h.LiveSpace(i, s) then Done else Rejected
    case DropSpace(s) => o == if h.LiveSpace(i, s) && (forall p :: !h.Has(i, PageLoc(s, p))) then Done else Rejected
    case Borrow(s, p) =>
      if !h.Has(i, PageLoc(s, p)) || h.AttrAt(i, PageLoc(s, p)).shared then o.Rejected?
      else if !h.AttrAt(i, PageLoc(s, p)).write then o.OutOfMemory?
      else o.Created? && !h.Has(i, HandleLoc(o.id))
    case HandleLoad(n) => if h.Has(i, HandleLoc(n)) then Reads(h, i, HandleLoc(n), o) else o.Rejected?
    case HandleStore(n, _, _) => o == if h.Has(i, HandleLoc(n)) then Done else Rejected
    case Release(n) => o == if h.Has(i, HandleLoc(n)) then Done else Rejected
    case Reorder(_) => o.Done?
  }

  /** A number that no address space has. */
  ghost predicate NewNumber(h: History, i: nat, t: nat)
    requires i <= |h.ops| == |h.obs|
  {
    !h.LiveSpace(i, t) && forall p :: !h.Has(i, PageLoc(t, p))
  }

  lemma EagerTells(h: History, i: nat, e: Eager, op: Op)
    requires i <= |h.ops| == |h.obs| && Tracks(h, i, e) && !op.Clone?
    ensures Told(h, i, op, EagerStep(e, op).1)
  {
    hide ReadCell, WriteCell, ZeroCells, DropCells, DropCell, SameObjectsAt, History.Object, History.Content, History.Has, History.AttrAt, History.LiveSpace;
  }

  // ----- plans -----

  ghost predicate NoRepeat(pages: seq<nat>) {
    forall i, j | 0 <= i < j < |pages| :: pages[i] != pages[j]
  }

  lemma NoRepeatJoin(a: seq<nat>, b: seq<nat>)
    ensures NoRepeat(a + b) <==> NoRepeat(a) && NoRepeat(b) && forall p :: p in a ==> p !in b
  {
    var all := a + b;
    if NoRepeat(a) && NoRepeat(b) && forall p :: p in a ==> p !in b {
      forall i, j | 0 <= i < j < |all|
        ensures all[i] != all[j]
      {
        if j < |a| {
          assert all[i] == a[i] && all[j] == a[j];
        } else if i < |a| {
          assert all[i] in a && all[j] in b;
        } else {
          assert all[i] == b[i - |a|] && all[j] == b[j - |a|];
        }
      }
    }
    if NoRepeat(all) {
      forall i, j | 0 <= i < j < |a|
        ensures a[i] != a[j]
      {
        assert all[i] == a[i] && all[j] == a[j];
      }
      forall i, j | 0 <= i < j < |b|
        ensures b[i] != b[j]
      {
        assert all[|a| + i] == b[i] && all[|a| + j] == b[j];
      }
      forall p | p in a
        ensures p !in b
      {
        var i :| 0 <= i < |a| && a[i] == p;
        forall j | 0 <= j < |b|
          ensures b[j] != p
        {
          assert all[i] == p && all[|a| + j] == b[j];
        }
      }
    }
  }

  lemma PagesOfRegion(r: Region, p: nat)
    ensures p in Pages(r) <==> InRegion(r, p)
    ensures NoRepeat(Pages(r))
  {
    if InRegion(r, p) {
      assert Pages(r)[p - r.base] == p;
    }
  }

  lemma InPlanFirst(plan: seq<Region>, p: nat)
    requires plan != []
    ensures InPlan(plan, p) <==> InRegion(plan[0], p) || InPlan(plan[1..], p)
  {
    if j :| 1 <= j < |plan| && InRegion(plan[j], p) {
      assert plan[1..][j - 1] == plan[j];
    }
    if j :| 0 <= j < |plan[1..]| && InRegion(plan[1..][j], p) {
      assert plan[j + 1] == plan[1..][j];
    }
  }

  lemma NoOverlapFirst(plan: seq<Region>)
    requires plan != []
    ensures NoOverlap(plan) <==> NoOverlap(plan[1..]) && forall p: nat :: !(InRegion(plan[0], p) && InPlan(plan[1..], p))
  {
    hide InRegion;
    var rest := plan[1..];
    assert forall k | 0 <= k < |rest| :: rest[k] == plan[k + 1];
    if NoOverlap(rest) && forall p: nat :: !(InRegion(plan[0], p) && InPlan(rest, p)) {
      forall j, k, p: nat | 0 <= j < k < |plan|
        ensures !(InRegion(plan[j], p) && InRegion(plan[k], p))
      {
        assert plan[k] == rest[k - 1];
        if j > 0 {
          assert plan[j] == rest[j - 1];
        }
      }
    }
    if NoOverlap(plan) {
      forall j, k, p: nat | 0 <= j < k < |rest|
        ensures !(InRegion(rest[j], p) && InRegion(rest[k], p))
      {
        assert plan[j + 1] == rest[j] && plan[k + 1] == rest[k];
      }
    }
  }

  /** The pages of a plan in order are those of its regions, without repetition exactly when no two overlap. */
  lemma {:induction false} FlattenIs(plan: seq<Region>)
    ensures forall p :: p in Flatten(plan) <==> InPlan(plan, p)
    ensures NoRepeat(Flatten(plan)) <==> NoOverlap(plan)
    decreases |plan|
  {
    if plan != [] {
      FlattenIs(plan[1..]);
      hide InRegion, InPlan, Pages, NoRepeat, NoOverlap;
      NoRepeatJoin(Pages(plan[0]), Flatten(plan[1..]));
      NoOverlapFirst(plan);
      PagesOfRegion(plan[0], 0);
      forall p: nat
        ensures p in Flatten(plan) <==> InPlan(plan, p)
        ensures p in Pages(plan[0]) <==> InRegion(plan[0], p)
      {
        InPlanFirst(plan, p);
        PagesOfRegion(plan[0], p);
      }
    }
  }

  lemma ExactIsPlan(h: History, i: nat, e: Eager, s: nat, plan: seq<Region>)
    requires i <= |h.ops| == |h.obs| && Tracks(h, i, e)
    ensures IsPlan(e.attrs, s, plan) <==> Exact(h, i, s, plan)
  {
    FlattenIs(plan);
    hide SameObjectsAt, SameBytesAt, ReadCell, Flatten, InPlan, NoOverlap, CellsOk;
    var pages := Flatten(plan);
    forall p: nat
      ensures PageLoc(s, p) in e.attrs <==> h.Has(i, PageLoc(s, p))
    {
    }
    hide EagerOk, SameTablesAt, History.Has;
    if Exact(h, i, s, plan) {
      forall l | l in e.attrs && l.PageLoc? && l.space == s
        ensures l.page in pages
      {
        assert l == PageLoc(s, l.page);
      }
    }
    if IsPlan(e.attrs, s, plan) {
      forall p: nat
        ensures h.Has(i, PageLoc(s, p)) <==> InPlan(plan, p)
      {
        if p in pages {
          var j :| 0 <= j < |pages| && pages[j] == p;
          assert PageLoc(s, pages[j]) in e.attrs;
        }
      }
    }
  }

  lemma CloneTells(h: History, i: nat, e: Eager, s: nat, plan: seq<Region>)
    requires i <= |h.ops| == |h.obs| && Tracks(h, i, e)
    ensures Told(h, i, Clone(s, plan), EagerStep(e, Clone(s, plan)).1)
  {
    ExactIsPlan(h, i, e, s, plan);
    hide IsPlan, Exact, CopyCells, Flatten, ReadCell, SameObjectsAt, SameBytesAt, History.Has, History.LiveSpace;
  }

  /** In every run each step panics or runs out of memory exactly when the state before it says so, and
      otherwise reports what the history of calls says. */
  lemma ReportsFollowHistory(r: Run, zero: nat, pool: seq<nat>, i: nat)
    requires zero !in pool && Distinct(pool) && IsRun(r, zero, pool) && i < |r.ops|
    ensures |r.ops| == |r.obs| && Sound(r.states[i])
    ensures if Panics(r.states[i], r.ops[i]) then r.obs[i].Panicked?
            else if RunsShort(r.states[i], r.ops[i]) then r.obs[i].OutOfMemory?
            else Told(History(r.ops, r.obs), i, r.ops[i], r.obs[i])
  {
    hide Inv, Rel, Plain, Tracks, Told, Panics, RunsShort, EagerStep;
    var h := History(r.ops, r.obs);
    RunTracks(r, zero, pool, i);
    LazyRefinesEager(r, zero, pool, i);
    if r.ops[i].Clone? {
      CloneTells(h, i, EagerAt(r, i), r.ops[i].space, r.ops[i].plan);
    } else {
      EagerTells(h, i, EagerAt(r, i), r.ops[i]);
    }
  }
}
