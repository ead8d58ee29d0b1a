/**
 The same operations in the form the kernel runs them: page tables, counts and contents are fields
 that the methods update in place, with the loops of `zeroed`, `copy_mappings`, `try_clone` and
 `unmap`. Each method is proved to do what the step function of `CowModel` says, and keeps the
 object related to the eager memory it carries as ghost state.
 */
module CowMachine {
  import opened Common
  import opened RefCounts
  import opened CowModel
  import opened CowEager
  import opened CowInvariant
  import opened CowProofs
  import opened CowCopy
  import opened CowClone
  import opened CowSteps
  import opened CowSimulation
  import opened CowRuns

  datatype FaultCode = FaultOk(frame: nat) | FaultErr(oom: bool)

  datatype CopyCode = CopyOk | CopyEnomem | CopyAbort

  class AddressSpaces {
    var mem: map<nat, PageData>
    var rc: map<nat, RefCount>
    var pool: seq<nat>
    var entries: map<Loc, Entry>
    var attrs: map<Loc, Attr>
    var spaces: set<nat>
    var zero: nat
    var nextSpace: nat
    var nextHandle: nat
    var nextLost: nat
    ghost var eager: Eager

    function State(): Kernel
      reads this
    {
      Kernel(mem, rc, pool, entries, attrs, spaces, zero, nextSpace, nextHandle, nextLost)
    }

    ghost predicate Valid()
      reads this
    {
      Inv(State()) && Rel(State(), eager)
    }

    constructor (zero: nat, pool: seq<nat>)
      requires zero !in pool && Distinct(pool)
      ensures Valid() && State() == Boot(zero, pool) && eager == EagerBoot
    {
      mem := map f | f in pool + [zero] :: ZeroPage();
      rc := map[zero := One];
      this.pool := pool;
      entries := map[ZeroLoc := Entry(zero, false)];
      attrs := map[];
      spaces := {};
      this.zero := zero;
      nextSpace, nextHandle, nextLost := 0, 0, 0;
      eager := EagerBoot;
      new;
      BootKeeps(zero, pool);
    }

    /** `init_frame` */
    method InitFrameInPlace(initial: RefCount) returns (f: Option<nat>)
      modifies this
      ensures eager == old(eager)
      ensures match InitFrame(old(State()), initial)
              case None => f == None && State() == old(State())
              case Some((k1, g)) => f == Some(g) && State() == k1
      // a frame is handed out unless none is free, and then it was nobody's
      ensures f.None? <==> old(pool) == []
      ensures f.Some? ==> f.value in old(pool) && f.value in mem && mem[f.value] == ZeroPage() && f.value in rc && rc[f.value] == initial
      ensures f.Some? ==> forall h :: h != f.value ==> (h in rc <==> h in old(rc)) && (h in rc ==> rc[h] == old(rc)[h])
      ensures f.Some? ==> forall h :: h != f.value && h in old(mem) ==> h in mem && mem[h] == old(mem)[h]
      ensures old(Inv(State())) && f.Some? ==> f.value !in old(rc) && Refs(entries, f.value) == {} && f.value !in pool
    {
      if pool != [] && Inv(State()) {
        FirstIsFree(State());
      }
      if pool == [] {
        return None;
      }
      var g := pool[0];
      pool := pool[1..];
      mem := mem[g := ZeroPage()];
      rc := rc[g := initial];
      f := Some(g);
    }

    /** `handle_free_action` */
    method HandleFreeAction(f: nat)
      requires f in rc
      modifies this
      ensures State() == FreeRef(old(State()), f) && eager == old(eager)
      ensures entries == old(entries) && attrs == old(attrs) && nextLost == old(nextLost)
      // the frame goes back to the allocator exactly with its last reference
      ensures f !in rc <==> old(rc)[f].One?
      ensures f in pool <==> f in old(pool) || old(rc)[f].One?
      ensures f in rc && WellFormed(old(rc)[f]) ==> WellFormed(rc[f]) && Count(rc[f]) == Count(old(rc)[f]) - 1
      ensures mem == old(mem) && forall h :: h != f ==> (h in rc <==> h in old(rc)) && (h in rc ==> rc[h] == old(rc)[h]) && (h in pool <==> h in old(pool))
    {
      match RemoveRef(rc[f]) {
        case None =>
          rc := rc - {f};
          pool := [f] + pool;
        case Some(left) =>
          rc := rc[f := left];
      }
    }

    /** `cow` */
    method Cow(f: nat, kind: RefKind) returns (r: Option<(nat, Option<nat>)>)
      requires f in rc && f in mem
      modifies this
      ensures eager == old(eager) && entries == old(entries) && attrs == old(attrs) && nextLost == old(nextLost)
      ensures match CowFrame(old(State()), f, kind)
              case CowOom => r == None && State() == old(State())
              case CowDone(k1, g, stale) => r == Some((g, stale)) && State() == k1
      // fails exactly when others hold the frame too and none is free
      ensures r.None? <==> !old(rc)[f].One? && old(pool) == []
      // the sole holder keeps its frame; any other gets a free one and is told to drop the old
      ensures r.Some? ==> (r.value.0 == f && r.value.1 == None <==> old(rc)[f].One?)
      ensures r.Some? && !old(rc)[f].One? ==> r.value.0 in old(pool) && r.value.1 == Some(f)
      // what the holder reads does not change, and neither does anybody else's page
      ensures r.Some? && old(zero in mem && mem[zero] == ZeroPage()) ==> r.value.0 in mem && mem[r.value.0] == old(mem)[f]
      ensures r.Some? ==> forall h :: h != r.value.0 && h in old(mem) ==> h in mem && mem[h] == old(mem)[h]
      // the new frame is the holder's alone, or shared by it and its clone
      ensures r.Some? ==> r.value.0 in rc && rc[r.value.0] == (if kind.CowKind? then One else Shared(2))
      ensures r.Some? ==> forall h :: h != r.value.0 ==> (h in rc <==> h in old(rc)) && (h in rc ==> rc[h] == old(rc)[h])
      ensures old(Inv(State())) && r.Some? && r.value.0 != f ==> Refs(entries, r.value.0) == {}
    {
      var initial := if kind.CowKind? then One else Shared(2);
      if rc[f].One? {
        if kind.SharedKind? {
          rc := rc[f := initial];
        }
        return Some((f, None));
      }
      var data := mem[f];
      var fresh' := InitFrameInPlace(initial);
      match fresh' {
        case None => r := None;
        case Some(g) =>
          if f != zero {
            mem := mem[g := data];
          }
          r := Some((g, Some(f)));
      }
    }

    /** `correct_inner` */
    method CorrectFault(s: nat, p: nat, access: Access) returns (r: FaultCode)
      requires Valid()
      modifies this
      ensures Valid() && eager == old(eager)
      ensures match CorrectInner(old(State()), PageLoc(s, p), access)
              case FaultSegv => r == FaultErr(false) && State() == old(State())
              case FaultOom => r == FaultErr(true) && State() == old(State())
              case Corrected(k1) =>
                State() == k1 && PageLoc(s, p) in k1.entries && r == FaultOk(k1.entries[PageLoc(s, p)].frame)
      // refused exactly when there is no grant, or the grant does not allow the access
      ensures r == FaultErr(false) <==>
              var l := PageLoc(s, p);
              l !in old(attrs) || (access.WriteAccess? && !old(attrs)[l].write) || (access.FetchAccess? && !old(attrs)[l].exec)
    {
      hide Inv, Rel;
      RelTables(State(), eager);
      var l := PageLoc(s, p);
      FaultKeeps(State(), eager, l, access);
      if l !in attrs || !Permits(attrs[l], access) {
        return FaultErr(false);
      }
      var attr := attrs[l];
      if l !in entries {
        var fresh' := InitFrameInPlace(One);
        match fresh' {
          case None => r := FaultErr(true);
          case Some(g) =>
            entries := entries[l := Entry(g, attr.write)];
            r := FaultOk(g);
        }
        return;
      }
      var frame := entries[l].frame;
      var stale: Option<nat> := None;
      var allowWritable := true;
      if access.WriteAccess? {
        if !AllowsWritable(rc[frame]) {
          var copy := Cow(frame, CowKind);
          if copy.None? {
            return FaultErr(true);
          }
          frame, stale := copy.value.0, copy.value.1;
        }
      } else {
        allowWritable := AllowsWritable(rc[frame]);
      }
      entries := entries[l := Entry(frame, attr.write && allowWritable)];
      if stale.Some? {
        HandleFreeAction(stale.value);
      }
      r := FaultOk(frame);
    }

    /** A user store: the hardware writes if the entry allows it, and faults first otherwise. */
    method UserStore(s: nat, p: nat, off: nat, value: Byte) returns (o: Obs)
      requires Valid()
      modifies this
      ensures Valid()
      ensures (State(), o) == Step(old(State()), Store(s, p, off, value))
      ensures eager == Advance(old(eager), Store(s, p, off, value), o)
      // the byte is written in this page and in whatever is one memory with it, and nothing else changes
      ensures o.Done? <==> PageLoc(s, p) in old(attrs) && old(attrs)[PageLoc(s, p)].write && !o.Panicked?
      ensures forall m, b | Tracked(old(State()), m) && 0 <= b < PAGE_SIZE ::
                View(State(), m)[b] ==
                if o.Done? && b == off && OneMemory(old(State()), PageLoc(s, p), m) then value else View(old(State()), m)[b]
    {
      hide Inv, Rel;
      RelTables(State(), eager);
      StoreBytes(State(), eager, s, p, off, value);
      StoreStep(State(), eager, s, p, off, value);
      var l := PageLoc(s, p);
      if !(l in entries && l in attrs && entries[l].write) {
        FaultKeeps(State(), eager, l, WriteAccess);
        var fault := CorrectFault(s, p, WriteAccess);
        if fault.FaultErr? {
          // the page-fault handler has no way out of a full memory
          o := if fault.oom then Panicked else Segv;
          eager := Advance(eager, Store(s, p, off, value), o);
          return;
        }
        RelTables(State(), eager);
      }
      var frame := entries[l].frame;
      mem := mem[frame := UpdateByte(mem[frame], off, value)];
      o := Done;
      eager := Advance(eager, Store(s, p, off, value), o);
    }

    /** The body of the loop of `copy_mappings` in `Owned` mode. */
    method CopyOwnedInPlace(src: Loc, dst: Loc) returns (r: CopyCode)
      requires Sound(State()) && src in attrs
      modifies this
      ensures eager == old(eager)
      ensures Agrees(r, State(), CopyOwned(old(State()), src, dst))
    {
      hide CopyAway, AddRef;
      var attr := attrs[src];
      if src !in entries {
        attrs := attrs[dst := attr];
        return CopyOk;
      }
      var frame := entries[src].frame;
      entries := entries[src := Entry(frame, false)];
      match AddRef(rc[frame], CowKind) {
        case Added(more) =>
          rc := rc[frame := more];
        case Refused(SharedToCow) =>
          r := CopyAwayInPlace(frame, dst, attr);
          return;
        case Refused(_) =>
          return CopyEnomem;
      }
      entries := entries[dst := Entry(frame, false)];
      attrs := attrs[dst := attr];
      r := CopyOk;
    }

    /** The arm of the loop body for a frame of kind `Shared`. */
    method CopyAwayInPlace(frame: nat, dst: Loc, attr: Attr) returns (r: CopyCode)
      requires frame in rc && frame in mem && zero in rc
      modifies this
      ensures eager == old(eager)
      ensures Agrees(r, State(), CopyAway(old(State()), frame, dst, attr))
    {
      hide CowFrame, FreeRef, AddRef;
      var more := AddRef(rc[frame], SharedKind);
      if more.Refused? {
        return CopyEnomem;
      }
      rc := rc[frame := more.rc];
      var copy := Cow(frame, CowKind);
      if copy.None? {
        // the extra reference is still counted, and nobody holds it
        entries := entries[LostLoc(nextLost) := Entry(frame, false)];
        nextLost := nextLost + 1;
        return CopyEnomem;
      }
      if copy.value.1.Some? && frame in rc {
        HandleFreeAction(frame);
      }
      entries := entries[dst := Entry(copy.value.0, false)];
      attrs := attrs[dst := attr];
      r := CopyOk;
    }

    /** A page on a copy-on-write frame moves to a frame of kind `Shared`. */
    method MoveInPlace(src: Loc) returns (r: Option<nat>)
      requires Sound(State()) && src in attrs && src in entries
      modifies this
      ensures eager == old(eager) && attrs == old(attrs)
      ensures match CowFrame(old(State()), old(entries)[src].frame, SharedKind)
              case CowOom => r == None && State() == old(State())
              case CowDone(k1, g, stale) =>
                var f := old(entries)[src].frame;
                var k2 := if stale.Some? && f in k1.rc then FreeRef(k1, f) else k1;
                r == Some(g) && State() == k2.(entries := k2.entries[src := Entry(g, old(entries)[src].write)])
    {
      hide CowFrame, FreeRef;
      var frame := entries[src].frame;
      var copy := Cow(frame, SharedKind);
      if copy.None? {
        return None;
      }
      if copy.value.1.Some? && frame in rc {
        HandleFreeAction(frame);
      }
      entries := entries[src := Entry(copy.value.0, entries[src].write)];
      r := Some(copy.value.0);
    }

    /** The source page is given a frame if it has none. */
    method EnsurePresentInPlace(src: Loc) returns (ok: bool)
      requires src in attrs
      modifies this
      ensures eager == old(eager)
      ensures match EnsurePresent(old(State()), src)
              case None => !ok
              case Some(k1) => ok && State() == k1
    {
      ok := true;
      if src !in entries {
        var fresh' := InitFrameInPlace(One);
        if fresh'.None? {
          return false;
        }
        entries := entries[src := Entry(fresh'.value, attrs[src].write)];
      }
    }

    method ShareEntryInPlace(src: Loc, dst: Loc) returns (r: CopyCode)
      requires Sound(State()) && src in attrs && src in entries
      modifies this
      ensures eager == old(eager)
      ensures Agrees(r, State(), ShareEntry(old(State()), src, dst))
    {
      hide CowFrame, FreeRef, AddRef;
      var attr := attrs[src];
      var frame := entries[src].frame;
      match AddRef(rc[frame], SharedKind) {
        case Added(more) =>
          rc := rc[frame := more];
        case Refused(CowToShared) =>
          var moved := MoveInPlace(src);
          if moved.None? {
            return CopyEnomem;
          }
          frame := moved.value;
        case Refused(_) =>
          return CopyEnomem;
      }
      entries := entries[dst := Entry(frame, attr.write)];
      attrs := attrs[dst := attr];
      r := CopyOk;
    }

    /** The body of the loop of `copy_mappings` in `Borrowed` mode. */
    method CopyBorrowedInPlace(src: Loc, dst: Loc) returns (r: CopyCode)
      requires Sound(State()) && src in attrs
      modifies this
      ensures eager == old(eager)
      ensures Agrees(r, State(), CopyBorrowed(old(State()), src, dst))
    {
      hide ShareEntry;
      ghost var k := State();
      PresentIsSound(k, src);
      var ok := EnsurePresentInPlace(src);
      if !ok {
        return CopyAbort;
      }
      r := ShareEntryInPlace(src, dst);
    }

    /** `copy_mappings` over one grant. */
    method CopyMappings(s: nat, t: nat, region: Region) returns (r: CopyCode)
      requires Valid() && Pending(State(), s, t, Pages(region))
      modifies this
      ensures eager == old(eager)
      ensures Agrees(r, State(), CopyPages(old(State()), s, t, Pages(region)))
    {
      hide Inv, Rel, Pending;
      ghost var e := eager;
      ghost var pages := Pages(region);
      assert pages[0..] == pages;
      for i := 0 to region.count
        invariant eager == old(eager)
        invariant Inv(State()) && Rel(State(), e) && Pending(State(), s, t, pages[i..])
        invariant CopyPages(State(), s, t, pages[i..]) == CopyPages(old(State()), s, t, pages)
      {
        var src, dst := PageLoc(s, region.base + i), PageLoc(t, region.base + i);
        ghost var k := State();
        assert pages[i..][0] == region.base + i && pages[i..][1..] == pages[i + 1..];
        PendingHead(k, s, t, pages[i..]);
        InvIsReady(k, src);
        CopyPageKeeps(k, e, src, dst);
        CopyPageFrame(k, src, dst);
        var code: CopyCode;
        if attrs[src].shared {
          code := CopyBorrowedInPlace(src, dst);
        } else {
          code := CopyOwnedInPlace(src, dst);
        }
        if !code.CopyOk? {
          return code;
        }
        PendingRest(k, State(), s, t, pages[i..]);
        RelTables(k, e);
        e := CopyCell(e, src, dst);
      }
      r := CopyOk;
    }

    /** `unmap` over a run of pages. */
    method UnmapPages(s: nat, pages: seq<nat>)
      requires Valid()
      requires forall p :: p in pages && PageLoc(s, p) in entries ==> PageLoc(s, p) in attrs
      modifies this
      ensures Valid()
      ensures State() == DropPages(old(State()), s, pages)
      ensures eager == DropCells(old(eager), s, pages)
    {
      hide Inv, Rel;
      assert pages[0..] == pages;
      for i := 0 to |pages|
        invariant Inv(State()) && Rel(State(), eager)
        invariant forall p :: p in pages && PageLoc(s, p) in entries ==> PageLoc(s, p) in attrs
        invariant DropPages(State(), s, pages[i..]) == DropPages(old(State()), s, pages)
        invariant DropCells(eager, s, pages[i..]) == DropCells(old(eager), s, pages)
      {
        assert pages[i..][0] == pages[i] && pages[i..][1..] == pages[i + 1..];
        var l := PageLoc(s, pages[i]);
        RelTables(State(), eager);
        DropInPlace(l);
      }
    }

    /** One round of `unmap`: the entry goes, and with it its reference to the frame. */
    method DropInPlace(l: Loc)
      requires Valid() && l.PageLoc? && (l in entries ==> l in eager.cellOf)
      modifies this
      ensures Valid() && State() == DropPage(old(State()), l) && eager == DropCell(old(eager), l)
    {
      hide Inv, Rel, DropCell;
      RelTables(State(), eager);
      DropKeeps(State(), eager, l);
      ghost var cells := DropCell(eager, l);
      attrs := attrs - {l};
      if l in entries {
        var frame := entries[l].frame;
        entries := entries - {l};
        HandleFreeAction(frame);
      }
      eager := cells;
    }

    /** `Grant::zeroed` and the insertion of its grant. */
    method MapZeroed(s: nat, base: nat, count: nat, attr: Attr) returns (o: Obs)
      requires Valid()
      modifies this
      ensures o.Panicked? || Valid()
      ensures Step(old(State()), ZeroMap(s, base, count, attr)).1 == o
      ensures o.Panicked? || State() == Step(old(State()), ZeroMap(s, base, count, attr)).0
      ensures o.Panicked? || eager == Advance(old(eager), ZeroMap(s, base, count, attr), o)
      // the first sixteen pages get the static frame, read-only; the rest have none yet
      ensures o.Done? ==>
                forall p | base <= p < base + count ::
                  if p < base + 16 then PageLoc(s, p) in entries && entries[PageLoc(s, p)] == Entry(zero, false)
                  else PageLoc(s, p) in entries <==> PageLoc(s, p) in old(entries)
    {
      hide Inv, Rel;
      RelTables(State(), eager);
      ZeroMapStep(State(), eager, s, base, count, attr);
      if s !in spaces || !NoConflict(attrs, s, base, count) {
        eager := Advance(eager, ZeroMap(s, base, count, attr), Rejected);
        return Rejected;
      }
      ghost var start := State().(attrs := GrantPages(attrs, s, base, count, attr));
      MapZeroEntries(start, s, base, count, 0);
      attrs := GrantPages(attrs, s, base, count, attr);
      var n := if count < MAX_EAGER_PAGES then count else MAX_EAGER_PAGES;
      for i := 0 to n
        invariant zero in rc && eager == old(eager) && zero == start.zero
        invariant MapZero(State(), s, base, count, i) == MapZero(start, s, base, count, 0)
      {
        match AddRef(rc[zero], CowKind) {
          case Refused(_) => return Panicked;
          case Added(more) =>
            rc := rc[zero := more];
            entries := entries[PageLoc(s, base + i) := Entry(zero, false)];
        }
      }
      assert MapZero(start, s, base, count, 0) == Some(State());
      eager := Advance(eager, ZeroMap(s, base, count, attr), Done);
      o := Done;
    }

    /** Drops the grants of pages that were copied for a grant that never came to be. */
    method ForgetGrants(t: nat, pages: seq<nat>)
      requires Valid() && t !in spaces
      modifies this
      ensures Valid()
      ensures State() == Orphan(old(State()), t, pages)
      ensures eager == DropCells(old(eager), t, pages)
    {
      hide Inv, Rel;
      assert pages[0..] == pages;
      for i := 0 to |pages|
        invariant Inv(State()) && Rel(State(), eager) && t !in spaces
        invariant Orphan(State(), t, pages[i..]) == Orphan(old(State()), t, pages)
        invariant DropCells(eager, t, pages[i..]) == DropCells(old(eager), t, pages)
      {
        assert pages[i..][0] == pages[i] && pages[i..][1..] == pages[i + 1..];
        OrphanOneKeeps(State(), eager, t, pages[i]);
        attrs := attrs - {PageLoc(t, pages[i])};
        eager := DropCell(eager, PageLoc(t, pages[i]));
      }
    }

    /** `try_clone`, with the drop of the half-built space when a grant cannot be copied. */
    method TryClone(s: nat, plan: seq<Region>) returns (o: Obs)
      requires Valid() && s in spaces && IsPlan(attrs, s, plan)
      modifies this
      ensures Step(old(State()), Clone(s, plan)).1 == o
      ensures o.Panicked? || Valid()
      ensures o.Panicked? || State() == Step(old(State()), Clone(s, plan)).0
      ensures o.Panicked? || eager == Advance(old(eager), Clone(s, plan), o)
    {
      hide Inv, Rel, Pending, Untouched, Tidy, IsPlan, CopyPages, Orphan, DropPages, Complete, CopyCells, EagerStep;
      RelTables(State(), eager);
      CloneStep(State(), eager, s, plan);
      CloneStarts(State(), eager, s, plan);
      var t := nextSpace;
      ghost var before := eager;
      nextSpace := t + 1;
      ghost var start := State();
      ghost var e0 := eager.(nextSpace := t + 1);
      eager := e0;
      var done: seq<nat> := [];
      NothingCopied(start, e0, s, t);
      assert plan[0..] == plan;
      for i := 0 to |plan|
        invariant t == start.nextSpace - 1 && s != t
        invariant Inv(State()) && Rel(State(), eager) && Tidy(State(), t) && Complete(State(), t, done)
        invariant eager == CopyCells(e0, s, t, done) && Untouched(e0, t)
        invariant Pending(State(), s, t, Flatten(plan[i..]))
        invariant CloneRegions(State(), s, t, done, plan[i..]) == CloneRegions(start, s, t, [], plan)
      {
        var pages := Pages(plan[i]);
        assert plan[i..][0] == plan[i] && plan[i..][1..] == plan[i + 1..];
        ghost var k := State();
        PendingSplit(k, s, t, pages, Flatten(plan[i + 1..]));
        var code := CopyMappings(s, t, plan[i]);
        if code.CopyAbort? {
          return Panicked;
        }
        if code.CopyEnomem? {
          DropHalfBuilt(k, e0, s, t, done, pages);
          eager := before.(nextSpace := t + 1);
          return OutOfMemory;
        }
        GrantCopied(k, e0, s, t, done, pages, Flatten(plan[i + 1..]));
        done := done + pages;
        eager := CopyCells(e0, s, t, done);
      }
      spaces := spaces + {t};
      eager := Advance(before, Clone(s, plan), Created(t));
      o := Created(t);
    }

    /** `Drop for AddrSpace`, for a space that `try_clone` gives up. */
    method DropHalfBuilt(ghost k: Kernel, ghost e0: Eager, ghost s: nat, t: nat, done: seq<nat>, pages: seq<nat>)
      requires Inv(k) && s != t && Untouched(e0, t) && Rel(k, CopyCells(e0, s, t, done))
      requires Pending(k, s, t, pages) && Complete(k, t, done)
      requires CopyPages(k, s, t, pages) == CopyNoMem(State())
      modifies this
      ensures State() == Orphan(DropPages(old(State()), t, done), t, pages)
      ensures Inv(State()) && Rel(State(), e0)
    {
      hide Inv, Rel;
      ghost var e := CopyCells(e0, s, t, done);
      CopyPagesFrame(k, e, s, t, pages);
      GrantFailed(k, e0, s, t, done, pages);
      ghost var n := CopyPagesKeeps(k, e, s, t, pages);
      CompleteAfter(k, State(), e, s, t, done, pages[..n]);
      assert forall p :: p in done ==> p in done + pages[..n];
      eager := CopyCells(e, s, t, pages[..n]);
      UnmapPages(t, done);
      SpacesKept(old(State()), t, done);
      ForgetGrants(t, pages);
    }
  }

  /** A method's result code and the state it left, against the result of the step function. */
  ghost predicate Agrees(code: CopyCode, k: Kernel, r: CopyResult) {
    match r
    case Copied(k1) => code.CopyOk? && k == k1
    case CopyNoMem(k1) => code.CopyEnomem? && k == k1
    case CopyPanic => code.CopyAbort?
  }

  lemma PresentIsSound(k: Kernel, src: Loc)
    requires Sound(k) && src in k.attrs
    ensures var r := EnsurePresent(k, src);
            r.Some? ==> Sound(r.value) && src in r.value.attrs && src in r.value.entries
  {
  }

  lemma FirstIsFree(k: Kernel)
    requires Inv(k) && k.pool != []
    ensures k.pool[0] !in k.rc && Refs(k.entries, k.pool[0]) == {} && k.pool[0] !in k.pool[1..]
  {
    assert k.pool[0] in k.pool;
  }

  lemma NothingCopied(k: Kernel, e: Eager, s: nat, t: nat)
    ensures Complete(k, t, []) && CopyCells(e, s, t, []) == e
  {
  }

  lemma PendingHead(k: Kernel, s: nat, t: nat, pages: seq<nat>)
    requires Pending(k, s, t, pages) && pages != []
    ensures FreshTarget(k, PageLoc(s, pages[0]), PageLoc(t, pages[0]))
  {
    assert pages[0] in pages;
  }

  lemma {:induction false} SpacesKept(k: Kernel, s: nat, pages: seq<nat>)
    ensures DropPages(k, s, pages).spaces == k.spaces
    decreases |pages|
  {
    if pages != [] {
      SpacesKept(DropPage(k, PageLoc(s, pages[0])), s, pages[1..]);
    }
  }
}
