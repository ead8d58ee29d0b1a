/**
 What every step of the copy-on-write kernel reports, decided by the state before it.

 A step panics or runs out of memory exactly in the cases named here; otherwise it reports what the
 eager memory reports. For a clone the case is given by the first page that cannot be copied.
 */
module CowOutcome {
  import opened Common
  import opened RefCounts
  import opened CowModel
  import opened CowEager
  import opened CowInvariant
  import opened CowProofs
  import opened CowCopy
  import opened CowClone
  import opened CowSteps
  import opened CowSimulation
  import opened CowPlain
  import opened CowDemand

  // ----- clones -----

  /** Where, in the flattened plan, the grant of the `n`th page begins. */
  function GrantStart(plan: seq<Region>, n: nat): nat {
    if plan == [] || n < plan[0].count then 0 else plan[0].count + GrantStart(plan[1..], n - plan[0].count)
  }

  lemma {:induction false} DropPagesEntries(k: Kernel, t: nat, pages: seq<nat>)
    ensures var k1 := DropPages(k, t, pages);
            && (forall l :: l in k1.entries <==> l in k.entries && !(InSpace(l, t) && l.page in pages))
            && k1.spaces == k.spaces
    decreases |pages|
  {
    if pages != [] {
      DropPagesEntries(DropPage(k, PageLoc(t, pages[0])), t, pages[1..]);
      assert forall p :: p in pages <==> p == pages[0] || p in pages[1..];
    }
  }

  lemma {:induction false} OrphanEntries(k: Kernel, t: nat, pages: seq<nat>)
    ensures Orphan(k, t, pages).entries == k.entries && Orphan(k, t, pages).spaces == k.spaces
    decreases |pages|
  {
    if pages != [] {
      OrphanEntries(k.(attrs := k.attrs - {PageLoc(t, pages[0])}), t, pages[1..]);
    }
  }

  /** The entries of the new space are those of its finished grants. */
  ghost predicate OnlyDone(k: Kernel, t: nat, done: seq<nat>) {
    forall l :: l in k.entries && InSpace(l, t) ==> l.page in done
  }

  /** What a clone that gave up at page `n` leaves behind in the new space or lost: pages of the
      unfinished grant that were present or shared, and the reference added for a copy. */
  ghost predicate LeavesBehind(k: Kernel, s: nat, pages: seq<nat>, start: nat, n: nat)
    requires Granted(k, s, pages) && n < |pages|
  {
    Loses(k, s, pages, n) || exists j | start <= j < n :: !DemandOf(k, PageLoc(s, pages[j])).Skip?
  }

  /** Entries that only the dropped space or nobody holds. */
  ghost predicate LeftBehind(k: Kernel, k1: Kernel, t: nat) {
    exists l :: l in k1.entries && (InSpace(l, t) || (l.LostLoc? && l !in k.entries))
  }

  ghost predicate OldOrOf(k: Kernel, k1: Kernel, s: nat, t: nat) {
    && (forall l :: l in k1.entries ==> l in k.entries || InSpace(l, s) || InSpace(l, t) || l.LostLoc?)
    && (forall l :: l in k.entries && !InSpace(l, t) ==> l in k1.entries)
    && k1.spaces == k.spaces
  }

  /** Giving up inside a grant. */
  lemma GaveUp(k: Kernel, k1: Kernel, s: nat, t: nat, done: seq<nat>, pages: seq<nat>, all: seq<nat>, n: nat)
    requires s != t && Granted(k, s, all) && n < |pages| <= |all| && all[..|pages|] == pages && Granted(k, s, pages)
    requires Made(k, k1, s, t, pages, n, Loses(k, s, all, n)) && OnlyDone(k, t, done) && LostLoc(k.nextLost) !in k.entries
    requires forall p :: p in pages ==> p !in done
    ensures var k2 := Orphan(DropPages(k1, t, done), t, pages);
            && OldOrOf(k, k2, s, t)
            && (LeftBehind(k, k2, t) <==> LeavesBehind(k, s, all, 0, n))
  {
    hide DemandOf, Loses, Sound;
    DropPagesEntries(k1, t, done);
    OrphanEntries(DropPages(k1, t, done), t, pages);
    var k2 := Orphan(DropPages(k1, t, done), t, pages);
    assert forall j | 0 <= j < |pages| :: all[j] == pages[j];
    if LeavesBehind(k, s, all, 0, n) {
      if Loses(k, s, all, n) {
        assert LostLoc(k.nextLost) in k2.entries;
      } else {
        var j :| 0 <= j < n && !DemandOf(k, PageLoc(s, all[j])).Skip?;
        assert pages[j] in pages;
        assert PageLoc(t, pages[j]) in k2.entries;
      }
    }
    if LeftBehind(k, k2, t) {
      var l :| l in k2.entries && (InSpace(l, t) || (l.LostLoc? && l !in k.entries));
      if InSpace(l, t) {
        assert l.page in pages;
        var j :| 0 <= j < |pages| && pages[j] == l.page;
        assert PageLoc(t, pages[j]) == l;
      }
    }
  }

  /** The whole loop of a clone: it stops at the first page that cannot be copied, in the way that
      page foretells, and leaves behind what the grant of that page foretells. */
  lemma {:induction false} CloneOutcome(k: Kernel, e0: Eager, s: nat, t: nat, done: seq<nat>, todo: seq<Region>) returns (n: nat)
    requires Inv(k) && s != t && Untouched(e0, t) && Rel(k, CopyCells(e0, s, t, done)) && Plain(k)
    requires Pending(k, s, t, Flatten(todo)) && Complete(k, t, done) && Tidy(k, t) && OnlyDone(k, t, done)
    ensures var all := Flatten(todo);
            var r := CloneRegions(k, s, t, done, todo);
            && Granted(k, s, all) && n <= |all|
            && (forall j | 0 <= j < n :: !Blocked(k, s, all, j))
            && (r.Copied? <==> n == |all|)
            && (n < |all| ==>
                  && Blocked(k, s, all, n)
                  && (r.CopyPanic? <==> DemandOf(k, PageLoc(s, all[n])).Fresh?)
                  && (r.CopyNoMem? ==> (LeftBehind(k, r.k, t) <==> LeavesBehind(k, s, all, GrantStart(todo, n), n))))
            && (!r.CopyPanic? ==> OldOrOf(k, r.k, s, t))
            && (r.Copied? ==> forall l :: l in r.k.entries && l.LostLoc? ==> l in k.entries)
    decreases |todo|
  {
    hide Inv, Rel, Plain, Untouched, Pending, Tidy, Complete, CopyPages, Blocked, DemandOf, Made, Foretold, LeftBehind, LeavesBehind;
    var all := Flatten(todo);
    PendingGranted(k, s, t, all);
    if todo == [] {
      n := 0;
      NothingLeft(k, s, t);
    } else {
      var pages, rest := Pages(todo[0]), Flatten(todo[1..]);
      var r := CopyPages(k, s, t, pages);
      n := CopyPagesOutcome(k, CopyCells(e0, s, t, done), s, t, pages, rest);
      NotDone(k, s, t, done, pages, rest);
      if r.CopyNoMem? {
        LostIsNew(k);
        assert all[..|pages|] == pages;
        GaveUp(k, r.k, s, t, done, pages, all, n);
      } else if r.Copied? {
        GrantCopied(k, e0, s, t, done, pages, rest);
        ClonePlainStep(k, e0, s, t, done, pages, rest);
        StillOnlyDone(k, r.k, s, t, done, pages, n);
        var m := CloneOutcome(r.k, e0, s, t, done + pages, todo[1..]);
        n := |pages| + m;
        NoneBlockedThen(k, r.k, s, pages, rest, m);
        GrantStartNext(todo, m);
        if m < |rest| {
          ForetoldBlocked(k, r.k, s, pages, rest, m);
          SameLeft(k, r.k, s, pages, rest, GrantStart(todo[1..], m), m);
        }
        var r1 := CloneRegions(r.k, s, t, done + pages, todo[1..]);
        if !r1.CopyPanic? {
          LeftThen(k, r.k, r1.k, s, t);
        }
      }
    }
  }

  lemma NothingLeft(k: Kernel, s: nat, t: nat)
    ensures OldOrOf(k, k, s, t)
  {
  }

  lemma LostIsNew(k: Kernel)
    requires Inv(k)
    ensures LostLoc(k.nextLost) !in k.entries
  {
  }

  lemma NotDone(k: Kernel, s: nat, t: nat, done: seq<nat>, pages: seq<nat>, rest: seq<nat>)
    requires Pending(k, s, t, pages + rest) && Complete(k, t, done)
    ensures forall p :: p in pages ==> p !in done
  {
    assert forall p :: p in pages ==> p in pages + rest;
  }

  lemma ClonePlainStep(k: Kernel, e0: Eager, s: nat, t: nat, done: seq<nat>, pages: seq<nat>, rest: seq<nat>)
    requires Inv(k) && Rel(k, CopyCells(e0, s, t, done)) && Plain(k) && Pending(k, s, t, pages + rest)
    ensures var r := CopyPages(k, s, t, pages); !r.CopyPanic? ==> Plain(r.k)
  {
    hide Inv, Rel, Plain;
    PendingSplit(k, s, t, pages, rest);
    CopyPagesPlain(k, CopyCells(e0, s, t, done), s, t, pages);
  }

  lemma StillOnlyDone(k: Kernel, k1: Kernel, s: nat, t: nat, done: seq<nat>, pages: seq<nat>, n: nat)
    requires s != t && Granted(k, s, pages) && n <= |pages| && Made(k, k1, s, t, pages, n, false) && OnlyDone(k, t, done)
    ensures OnlyDone(k1, t, done + pages) && OldOrOf(k, k1, s, t)
    ensures forall l :: l in k1.entries && l.LostLoc? ==> l in k.entries
  {
  }

  lemma GrantStartNext(todo: seq<Region>, m: nat)
    requires todo != []
    ensures |Pages(todo[0])| == todo[0].count
    ensures GrantStart(todo, todo[0].count + m) == todo[0].count + GrantStart(todo[1..], m)
  {
  }

  /** One grant copied, then the others: what is not blocked after it was not blocked before. */
  lemma NoneBlockedThen(k: Kernel, k1: Kernel, s: nat, pages: seq<nat>, rest: seq<nat>, m: nat)
    requires Granted(k, s, pages + rest) && Granted(k1, s, rest) && Foretold(k, k1, s, pages, rest)
    requires m <= |rest| && (forall j | 0 <= j < |pages| :: !Blocked(k, s, pages + rest, j))
    requires forall j | 0 <= j < m :: !Blocked(k1, s, rest, j)
    ensures forall j | 0 <= j < |pages| + m :: !Blocked(k, s, pages + rest, j)
  {
    hide Blocked, Foretold, Sound;
    forall j | 0 <= j < |pages| + m
      ensures !Blocked(k, s, pages + rest, j)
    {
      if j >= |pages| {
        ForetoldBlocked(k, k1, s, pages, rest, j - |pages|);
      }
    }
  }

  lemma LeftThen(k: Kernel, k1: Kernel, k2: Kernel, s: nat, t: nat)
    requires OldOrOf(k, k1, s, t) && OldOrOf(k1, k2, s, t) && s != t
    requires forall l :: l in k1.entries && l.LostLoc? ==> l in k.entries
    ensures OldOrOf(k, k2, s, t) && (LeftBehind(k1, k2, t) <==> LeftBehind(k, k2, t))
  {
  }

  lemma SameLeft(k: Kernel, k1: Kernel, s: nat, pages: seq<nat>, rest: seq<nat>, start: nat, m: nat)
    requires Granted(k, s, pages + rest) && Granted(k1, s, rest) && Foretold(k, k1, s, pages, rest) && m < |rest|
    ensures LeavesBehind(k1, s, rest, start, m) <==> LeavesBehind(k, s, pages + rest, |pages| + start, |pages| + m)
  {
    hide Blocked, Foretold, DemandOf, CountAt, Sound;
    var all := pages + rest;
    ForetoldBlocked(k, k1, s, pages, rest, m);
    forall j | start <= j < m
      ensures DemandOf(k1, PageLoc(s, rest[j])) == DemandOf(k, PageLoc(s, all[|pages| + j]))
    {
      ForetoldBlocked(k, k1, s, pages, rest, j);
    }
    if j :| start <= j < m && !DemandOf(k1, PageLoc(s, rest[j])).Skip? {
      assert !DemandOf(k, PageLoc(s, all[|pages| + j])).Skip?;
    }
    if j :| |pages| + start <= j < |pages| + m && !DemandOf(k, PageLoc(s, all[j])).Skip? {
      assert |pages| + (j - |pages|) == j;
      assert !DemandOf(k1, PageLoc(s, rest[j - |pages|])).Skip?;
    }
  }

  // ----- what is reported -----

  /** The clone of `s` along `plan` stops at the `n`th page. */
  ghost predicate CloneStops(k: Kernel, s: nat, plan: seq<Region>, n: nat) {
    Granted(k, s, Flatten(plan)) && StopsAt(k, s, Flatten(plan), n)
  }

  ghost predicate StopsFresh(k: Kernel, s: nat, plan: seq<Region>) {
    exists n: nat :: CloneStops(k, s, plan, n) && DemandOf(k, PageLoc(s, Flatten(plan)[n])).Fresh?
  }

  ghost predicate StopsShort(k: Kernel, s: nat, plan: seq<Region>) {
    exists n: nat :: CloneStops(k, s, plan, n) && !DemandOf(k, PageLoc(s, Flatten(plan)[n])).Fresh?
  }

  /** The step panics: a load or store whose page fault needs a frame when none is left, a clone
      that reaches a shared page without a frame then, or a mapping that would overflow the count of
      the static zeroed frame. */
  ghost predicate Panics(k: Kernel, op: Op)
    requires Sound(k)
  {
    match op
    case Load(s, p, access) => FaultShort(k, PageLoc(s, p), access)
    case Store(s, p, _, _) => FaultShort(k, PageLoc(s, p), WriteAccess)
    case ZeroMap(s, base, count, attr) =>
      s in k.spaces && NoConflict(k.attrs, s, base, count) && count > 0 && Full(Count(k.rc[k.zero]) + Min(count, MAX_EAGER_PAGES) - 1)
    case Clone(s, plan) => s in k.spaces && IsPlan(k.attrs, s, plan) && StopsFresh(k, s, plan)
    case _ => false
  }

  /** The step runs out of memory: a borrowing or a copy that needs a frame when none is left, or
      one more reference to a frame whose count is full. */
  ghost predicate RunsShort(k: Kernel, op: Op)
    requires Sound(k)
  {
    match op
    case Borrow(s, p) =>
      var l := PageLoc(s, p);
      && l in k.attrs && !k.attrs[l].shared && k.attrs[l].write
      && (FaultShort(k, l, WriteAccess)
          || (l in k.entries && k.rc[k.entries[l].frame].Shared? && Full(Count(k.rc[k.entries[l].frame]))))
    case Clone(s, plan) => s in k.spaces && IsPlan(k.attrs, s, plan) && StopsShort(k, s, plan)
    case _ => false
  }

  ghost function Report(k: Kernel, e: Eager, op: Op): Obs
    requires Sound(k)
  {
    if Panics(k, op) then Panicked else if RunsShort(k, op) then OutOfMemory else EagerStep(e, op).1
  }

  lemma LoadReports(k: Kernel, e: Eager, s: nat, p: nat, access: Access)
    requires Inv(k) && Rel(k, e)
    ensures Sound(k) && Step(k, Load(s, p, access)).1 == Report(k, e, Load(s, p, access))
  {
    hide Inv, Rel;
    FaultKeeps(k, e, PageLoc(s, p), access);
    RelTables(k, e);
  }

  lemma StoreReports(k: Kernel, e: Eager, s: nat, p: nat, off: nat, v: Byte)
    requires Inv(k) && Rel(k, e)
    ensures Sound(k) && Step(k, Store(s, p, off, v)).1 == Report(k, e, Store(s, p, off, v))
  {
    FaultKeeps(k, e, PageLoc(s, p), WriteAccess);
    RelTables(k, e);
    if PageLoc(s, p) in k.entries && k.entries[PageLoc(s, p)].write {
      WritableIsNotCow(k, PageLoc(s, p));
    }
    hide Inv, Rel;
    StoreStep(k, e, s, p, off, v);
  }

  lemma BorrowReports(k: Kernel, e: Eager, s: nat, p: nat)
    requires Inv(k) && Rel(k, e)
    ensures Sound(k) && Step(k, Borrow(s, p)).1 == Report(k, e, Borrow(s, p))
  {
    hide Inv, Rel;
    var l := PageLoc(s, p);
    RelTables(k, e);
    BorrowStep(k, e, s, p);
    if l in k.attrs && !k.attrs[l].shared {
      FaultKeeps(k, e, l, WriteAccess);
      if l in k.entries && k.entries[l].write {
        WritableIsNotCow(k, l);
        CountsWellFormed(k, l);
        FullIsRefused(k.rc[k.entries[l].frame]);
      } else if k.attrs[l].write && !FaultShort(k, l, WriteAccess) {
        CorrectedCount(k, l);
      }
    }
  }

  lemma CountsWellFormed(k: Kernel, l: Loc)
    requires Inv(k) && l in k.entries
    ensures k.entries[l].frame in k.rc && WellFormed(k.rc[k.entries[l].frame])
  {
  }

  /** The count of the frame a written page ends up on. */
  lemma CorrectedCount(k: Kernel, l: Loc)
    requires Inv(k) && l in k.attrs && k.attrs[l].write && l.PageLoc?
    ensures Sound(k)
    ensures var r := CorrectInner(k, l, WriteAccess);
            r.Corrected? ==>
              && l in r.k.entries && r.k.entries[l].frame in r.k.rc
              && (if l in k.entries && k.rc[k.entries[l].frame].Shared? && Full(Count(k.rc[k.entries[l].frame]))
                  then AddRef(r.k.rc[r.k.entries[l].frame], SharedKind) == Refused(RcOverflow)
                  else AddRef(r.k.rc[r.k.entries[l].frame], SharedKind).Added?)
  {
    if l in k.entries && k.rc[k.entries[l].frame].Cow? {
      BreakCowIsCode(k, l);
      if k.pool != [] {
        assert k.pool[0] in k.pool;
      }
    }
  }

  lemma {:induction false} MapZeroFails(k: Kernel, s: nat, base: nat, count: nat, i: nat)
    requires i <= count && k.zero in k.rc && WellFormed(k.rc[k.zero]) && !k.rc[k.zero].Shared?
    ensures var m := Min(count, MAX_EAGER_PAGES) - i;
            i <= MAX_EAGER_PAGES ==> (MapZero(k, s, base, count, i).None? <==> m > 0 && Full(Count(k.rc[k.zero]) + m - 1))
    decreases count - i
  {
    if i != count && i < MAX_EAGER_PAGES {
      FullIsRefused(k.rc[k.zero]);
      match AddRef(k.rc[k.zero], CowKind)
      case Refused(_) =>
      case Added(rc) => MapZeroFails(WithZero(k, PageLoc(s, base + i), rc), s, base, count, i + 1);
    }
  }

  lemma ZeroMapReports(k: Kernel, e: Eager, s: nat, base: nat, count: nat, attr: Attr)
    requires Inv(k) && Rel(k, e)
    ensures Sound(k) && Step(k, ZeroMap(s, base, count, attr)).1 == Report(k, e, ZeroMap(s, base, count, attr))
  {
    RelTables(k, e);
    MapZeroFails(k.(attrs := GrantPages(k.attrs, s, base, count, attr)), s, base, count, 0);
    hide Inv, Rel;
  }

  /** Numbering the new space changes nothing that a clone asks for. */
  lemma Renumbered(k: Kernel, k0: Kernel, s: nat, pages: seq<nat>)
    requires Granted(k0, s, pages) && k == k0.(nextSpace := k.nextSpace)
    ensures Granted(k, s, pages)
    ensures forall n | 0 <= n < |pages| ::
              && DemandOf(k, PageLoc(s, pages[n])) == DemandOf(k0, PageLoc(s, pages[n]))
              && (Blocked(k, s, pages, n) <==> Blocked(k0, s, pages, n))
              && (Loses(k, s, pages, n) <==> Loses(k0, s, pages, n))
  {
    forall n | 0 <= n < |pages|
      ensures DemandOf(k, PageLoc(s, pages[n])) == DemandOf(k0, PageLoc(s, pages[n]))
      ensures Blocked(k, s, pages, n) <==> Blocked(k0, s, pages, n)
      ensures Loses(k, s, pages, n) <==> Loses(k0, s, pages, n)
    {
      var l := PageLoc(s, pages[n]);
      forall i | 0 <= i < n
        ensures SameDemand(k0, k, PageLoc(s, pages[..n][i]))
      {
        assert pages[..n][i] == pages[i];
      }
      SameSums(k0, k, s, pages[..n], if l in k.entries then k.entries[l].frame else 0);
    }
  }

  /** The stopping page is unique. */
  lemma StopIsUnique(k: Kernel, s: nat, plan: seq<Region>, n: nat)
    requires Granted(k, s, Flatten(plan)) && n <= |Flatten(plan)|
    requires forall j | 0 <= j < n :: !Blocked(k, s, Flatten(plan), j)
    requires n < |Flatten(plan)| ==> Blocked(k, s, Flatten(plan), n)
    ensures forall m: nat :: CloneStops(k, s, plan, m) <==> m == n < |Flatten(plan)|
  {
    hide Granted, Blocked;
    forall m: nat
      ensures CloneStops(k, s, plan, m) <==> m == n < |Flatten(plan)|
    {
      if m < |Flatten(plan)| {
        assert n < m ==> Blocked(k, s, Flatten(plan), n);
        assert m < n ==> !Blocked(k, s, Flatten(plan), m);
      }
    }
  }

  /** A clone, from the state before it: where it stops, what it then reports and what it leaves behind. */
  lemma CloneFate(k: Kernel, e: Eager, s: nat, plan: seq<Region>) returns (n: nat)
    requires Inv(k) && Rel(k, e) && Plain(k) && s in k.spaces && IsPlan(k.attrs, s, plan)
    ensures Sound(k) && Granted(k, s, Flatten(plan)) && n <= |Flatten(plan)|
    ensures forall m: nat :: CloneStops(k, s, plan, m) <==> m == n < |Flatten(plan)|
    ensures var (k1, o) := Step(k, Clone(s, plan));
            var all := Flatten(plan);
            var t := k.nextSpace;
            && (o == Created(t) <==> n == |all|) && (o.Created? || o.Panicked? || o.OutOfMemory?)
            && (n < |all| ==>
                  && (o.Panicked? <==> DemandOf(k, PageLoc(s, all[n])).Fresh?)
                  && (o.OutOfMemory? ==> (LeftBehind(k, k1, t) <==> LeavesBehind(k, s, all, GrantStart(plan, n), n))))
            && (o.OutOfMemory? ==> OldOrOf(k, k1, s, t))
            && (o.Created? ==> OldOrOf(k, k1.(spaces := k.spaces), s, t) && k1.spaces == k.spaces + {t})
            && (o.Created? ==> forall l :: l in k1.entries && l.LostLoc? ==> l in k.entries)
            && (o.Panicked? ==> k1 == k)
  {
    hide Inv, Rel, Plain, Untouched, Pending, Tidy, IsPlan, CloneRegions, Blocked, DemandOf, Granted, Loses, LeavesBehind, LeftBehind, OldOrOf, CloneStops;
    RelTables(k, e);
    var t := k.nextSpace;
    var k0, e0 := k.(nextSpace := t + 1), e.(nextSpace := t + 1);
    SamePlain(k, k0);
    CloneStarts(k, e, s, plan);
    assert Complete(k0, t, []);
    NoneInNew(k, t);
    n := CloneOutcome(k0, e0, s, t, [], plan);
    Renumbered(k, k0, s, Flatten(plan));
    StopIsUnique(k, s, plan, n);
    var r := CloneRegions(k0, s, t, [], plan);
    if !r.CopyPanic? {
      SameEntries(k, k0, r.k, s, t);
      if n < |Flatten(plan)| {
        SameLeaves(k, k0, s, Flatten(plan), GrantStart(plan, n), n);
      }
    }
  }

  lemma NoneInNew(k: Kernel, t: nat)
    requires Inv(k) && t == k.nextSpace
    ensures OnlyDone(k.(nextSpace := t + 1), t, [])
  {
  }

  lemma SameEntries(k: Kernel, k0: Kernel, k1: Kernel, s: nat, t: nat)
    requires k0 == k.(nextSpace := k0.nextSpace)
    ensures OldOrOf(k0, k1, s, t) ==> OldOrOf(k, k1, s, t) && k1.(spaces := k.spaces) == k1
    ensures OldOrOf(k0, k1, s, t) ==> OldOrOf(k, k1.(spaces := k1.spaces + {t}).(spaces := k.spaces), s, t)
    ensures LeftBehind(k0, k1, t) <==> LeftBehind(k, k1, t)
  {
  }

  lemma SameLeaves(k: Kernel, k0: Kernel, s: nat, pages: seq<nat>, start: nat, n: nat)
    requires Granted(k0, s, pages) && k == k0.(nextSpace := k.nextSpace) && n < |pages|
    ensures Granted(k, s, pages) && (LeavesBehind(k, s, pages, start, n) <==> LeavesBehind(k0, s, pages, start, n))
  {
    Renumbered(k, k0, s, pages);
    hide DemandOf, Loses, Blocked, Sound;
    if j :| start <= j < n && !DemandOf(k, PageLoc(s, pages[j])).Skip? {
      assert !DemandOf(k0, PageLoc(s, pages[j])).Skip?;
    }
    if j :| start <= j < n && !DemandOf(k0, PageLoc(s, pages[j])).Skip? {
      assert !DemandOf(k, PageLoc(s, pages[j])).Skip?;
    }
  }

  lemma CloneReports(k: Kernel, e: Eager, s: nat, plan: seq<Region>)
    requires Inv(k) && Rel(k, e) && Plain(k)
    ensures Sound(k) && Simulates(k, e, Clone(s, plan)) && Step(k, Clone(s, plan)).1 == Report(k, e, Clone(s, plan))
  {
    hide Inv, Rel, Plain, IsPlan, Blocked, DemandOf, Granted, LeavesBehind, LeftBehind, OldOrOf, CloneRegions, CloneStops;
    RelTables(k, e);
    CloneStep(k, e, s, plan);
    if s in k.spaces && IsPlan(k.attrs, s, plan) {
      var n := CloneFate(k, e, s, plan);
      StopCases(k, s, plan, n);
    }
  }

  lemma StopCases(k: Kernel, s: nat, plan: seq<Region>, n: nat)
    requires Granted(k, s, Flatten(plan)) && n <= |Flatten(plan)|
    requires forall m: nat :: CloneStops(k, s, plan, m) <==> m == n < |Flatten(plan)|
    ensures StopsFresh(k, s, plan) <==> n < |Flatten(plan)| && DemandOf(k, PageLoc(s, Flatten(plan)[n])).Fresh?
    ensures StopsShort(k, s, plan) <==> n < |Flatten(plan)| && !DemandOf(k, PageLoc(s, Flatten(plan)[n])).Fresh?
  {
    hide Blocked, DemandOf;
    if n < |Flatten(plan)| {
      assert CloneStops(k, s, plan, n);
    }
  }

  /** Every step reports what its state before it decides. */
  lemma StepReports(k: Kernel, e: Eager, op: Op)
    requires Inv(k) && Rel(k, e) && Plain(k)
    ensures Sound(k) && Step(k, op).1 == Report(k, e, op)
  {
    hide Inv, Rel, Plain;
    RelTables(k, e);
    match op
    case Load(s, p, access) => LoadReports(k, e, s, p, access);
    case Store(s, p, off, v) => StoreReports(k, e, s, p, off, v);
    case Borrow(s, p) => BorrowReports(k, e, s, p);
    case ZeroMap(s, base, count, attr) => ZeroMapReports(k, e, s, base, count, attr);
    case Clone(s, plan) => CloneReports(k, e, s, plan);
    case _ => StepKeeps(k, e, op);
  }

  lemma {:induction false} SumBounds(k: Kernel, s: nat, pages: seq<nat>, f: nat)
    requires Granted(k, s, pages)
    ensures Taken(k, s, pages) <= |pages| && Gained(k, s, pages, f) <= |pages|
    decreases |pages|
  {
    if pages != [] {
      SumBounds(k, s, pages[1..], f);
    }
  }

  /** A clone never stops with a free frame for every page and room for that many references. */
  lemma EnoughRoom(k: Kernel, s: nat, plan: seq<Region>, n: nat)
    requires |k.pool| >= |Flatten(plan)| && forall f :: f in k.rc ==> Count(k.rc[f]) + |Flatten(plan)| <= RC_MAX
    ensures !CloneStops(k, s, plan, n)
  {
    var pages := Flatten(plan);
    if Granted(k, s, pages) && n < |pages| {
      var l := PageLoc(s, pages[n]);
      assert Granted(k, s, pages[..n]);
      SumBounds(k, s, pages[..n], if l in k.entries then k.entries[l].frame else 0);
    }
  }
}
