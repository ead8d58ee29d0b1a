/**
 Copy-on-write address spaces (src/context/memory.rs with the counts of src/memory/mod.rs).

 `Kernel` holds the page tables of all address spaces, the reference counts, the page contents and
 the free frames. The step functions follow the code branch by branch. `CowEager` holds the
 specification they are compared with and `CowProofs` the comparison.
 */
module CowModel {
  import opened Common
  import opened RefCounts

  /** `Grant::zeroed` maps at most this many pages before the first fault. */
  const MAX_EAGER_PAGES: nat := 16

  type Byte = b: nat | b < 256
  type PageData = d: seq<Byte> | |d| == PAGE_SIZE witness seq(PAGE_SIZE, _ => 0)

  function ZeroPage(): PageData { seq(PAGE_SIZE, _ => 0) }

  /** Everything that can hold one reference to a frame: a page-table entry, a `RaiiFrame` kept by
      the kernel, the static reference to the zeroed frame, and a reference that a failed clone
      took and never gave back. */
  datatype Loc =
    | PageLoc(space: nat, page: nat)
    | HandleLoc(id: nat)
    | ZeroLoc
    | LostLoc(id: nat)

  datatype Entry = Entry(frame: nat, write: bool)

  /** What the grant over a page says: `AllocatedShared` or `Allocated`, and the protection. */
  datatype Attr = Attr(shared: bool, write: bool, exec: bool)

  datatype Access = ReadAccess | WriteAccess | FetchAccess

  /** One grant of the address space being cloned. */
  datatype Region = Region(base: nat, count: nat)

  datatype Kernel = Kernel(
    mem: map<nat, PageData>,
    rc: map<nat, RefCount>,
    pool: seq<nat>,
    entries: map<Loc, Entry>,
    attrs: map<Loc, Attr>,
    spaces: set<nat>,
    zero: nat,
    nextSpace: nat,
    nextHandle: nat,
    nextLost: nat)

  /** The content a reader of the page gets once any fault has been handled. */
  function View(k: Kernel, l: Loc): PageData {
    if l in k.entries && k.entries[l].frame in k.mem then k.mem[k.entries[l].frame] else ZeroPage()
  }

  predicate Sound(k: Kernel) {
    && (forall l :: l in k.entries ==> k.entries[l].frame in k.rc)
    && k.zero in k.rc
    && (forall f :: f in k.rc ==> f in k.mem)
  }

  // ----- frames -----

  /** `init_frame`: the allocator hands out the first free frame, zeroed. */
  function InitFrame(k: Kernel, rc: RefCount): Option<(Kernel, nat)> {
    if k.pool == [] then None
    else
      var f := k.pool[0];
      Some((k.(mem := k.mem[f := ZeroPage()], rc := k.rc[f := rc], pool := k.pool[1..]), f))
  }

  /** `handle_free_action` for one frame. */
  function FreeRef(k: Kernel, f: nat): Kernel
    requires f in k.rc
  {
    match RemoveRef(k.rc[f])
    case None => k.(rc := k.rc - {f}, pool := [f] + k.pool)
    case Some(rc) => k.(rc := k.rc[f := rc])
  }

  datatype CowResult = CowOom | CowDone(k: Kernel, newFrame: nat, oldFrame: Option<nat>)

  /** `cow`: consumes one reference to `f` and returns a frame with an exclusive one. The caller
      drops the reference to `oldFrame` once it has flushed. */
  function CowFrame(k: Kernel, f: nat, kind: RefKind): CowResult
    requires f in k.rc && f in k.mem
  {
    var initial := if kind.CowKind? then One else Shared(2);
    if k.rc[f].One? then
      CowDone(if kind.SharedKind? then k.(rc := k.rc[f := initial]) else k, f, None)
    else
      match InitFrame(k, initial)
      case None => CowOom
      case Some((k1, g)) =>
        CowDone(if f != k.zero then k1.(mem := k1.mem[g := k.mem[f]]) else k1, g, Some(f))
  }

  // ----- page faults -----

  datatype FaultResult = FaultSegv | FaultOom | Corrected(k: Kernel)

  predicate Permits(attr: Attr, access: Access) {
    match access
    case ReadAccess => true
    case WriteAccess => attr.write
    case FetchAccess => attr.exec
  }

  /** `correct_inner` for `Allocated` and `AllocatedShared` grants. */
  function CorrectInner(k: Kernel, l: Loc, access: Access): FaultResult
    requires Sound(k)
  {
    if l !in k.attrs || !Permits(k.attrs[l], access) then FaultSegv
    else
      var attr := k.attrs[l];
      if l !in k.entries then
        // map_zeroed
        match InitFrame(k, One)
        case None => FaultOom
        case Some((k1, g)) => Corrected(k1.(entries := k1.entries[l := Entry(g, attr.write)]))
      else
        var f := k.entries[l].frame;
        if !access.WriteAccess? then
          Corrected(k.(entries := k.entries[l := Entry(f, attr.write && AllowsWritable(k.rc[f]))]))
        else if AllowsWritable(k.rc[f]) then
          Corrected(k.(entries := k.entries[l := Entry(f, attr.write)]))
        else
          match CowFrame(k, f, CowKind)
          case CowOom => FaultOom
          case CowDone(k1, g, stale) =>
            var k2 := k1.(entries := k1.entries[l := Entry(g, attr.write)]);
            Corrected(if stale.Some? && f in k2.rc then FreeRef(k2, f) else k2)
  }

  // ----- copying mappings -----

  datatype CopyResult = Copied(k: Kernel) | CopyNoMem(k: Kernel) | CopyPanic

  /** One iteration of `copy_mappings` in `Owned` mode. */
  function CopyOwned(k: Kernel, src: Loc, dst: Loc): CopyResult
    requires Sound(k) && src in k.attrs
  {
    var attrs := k.attrs[dst := k.attrs[src]];
    if src !in k.entries then Copied(k.(attrs := attrs))
    else
      var f := k.entries[src].frame;
      var k1 := k.(entries := k.entries[src := Entry(f, false)]);
      match AddRef(k1.rc[f], CowKind)
      case Added(rc) =>
        Copied(k1.(rc := k1.rc[f := rc], entries := k1.entries[dst := Entry(f, false)], attrs := attrs))
      case Refused(SharedToCow) => CopyAway(k1, f, dst, k.attrs[src])
      case Refused(_) => CopyNoMem(k1)
  }

  /** A frame of kind `Shared` cannot be shared copy-on-write: the clone gets a copy of it. */
  function CopyAway(k: Kernel, f: nat, dst: Loc, attr: Attr): CopyResult
    requires f in k.rc && f in k.mem && k.zero in k.rc
  {
    match AddRef(k.rc[f], SharedKind)
    case Refused(_) => CopyNoMem(k)
    case Added(rc) =>
      var k2 := k.(rc := k.rc[f := rc]);
      match CowFrame(k2, f, CowKind)
      case CowOom =>
        // the reference just added is not given back
        CopyNoMem(k2.(entries := k2.entries[LostLoc(k2.nextLost) := Entry(f, false)],
                      nextLost := k2.nextLost + 1))
      case CowDone(k3, g, stale) =>
        var k4 := if stale.Some? && f in k3.rc then FreeRef(k3, f) else k3;
        Copied(k4.(entries := k4.entries[dst := Entry(g, false)], attrs := k4.attrs[dst := attr]))
  }

  /** The source page of one `Borrowed` iteration is given a frame first if it has none. */
  function EnsurePresent(k: Kernel, src: Loc): Option<Kernel>
    requires src in k.attrs
  {
    if src in k.entries then Some(k)
    else
      match InitFrame(k, One)
      case None => None
      case Some((k1, g)) => Some(k1.(entries := k1.entries[src := Entry(g, k.attrs[src].write)]))
  }

  /** The rest of one `Borrowed` iteration. */
  function ShareEntry(k: Kernel, src: Loc, dst: Loc): CopyResult
    requires Sound(k) && src in k.attrs && src in k.entries
  {
    var attr := k.attrs[src];
    var attrs := k.attrs[dst := attr];
    var f := k.entries[src].frame;
    match AddRef(k.rc[f], SharedKind)
    case Added(rc) =>
      Copied(k.(rc := k.rc[f := rc], entries := k.entries[dst := Entry(f, attr.write)], attrs := attrs))
    case Refused(CowToShared) =>
      (match CowFrame(k, f, SharedKind)
       case CowOom => CopyNoMem(k)
       case CowDone(k1, g, stale) =>
         var k2 := if stale.Some? && f in k1.rc then FreeRef(k1, f) else k1;
         Copied(k2.(entries := k2.entries[src := Entry(g, k.entries[src].write)]
                                         [dst := Entry(g, attr.write)],
                    attrs := attrs)))
    case Refused(_) => CopyNoMem(k)
  }

  /** One iteration of `copy_mappings` in `Borrowed` mode. */
  function CopyBorrowed(k: Kernel, src: Loc, dst: Loc): CopyResult
    requires Sound(k) && src in k.attrs
  {
    match EnsurePresent(k, src)
    case None => CopyPanic
    case Some(k1) => ShareEntry(k1, src, dst)
  }

  function CopyPage(k: Kernel, src: Loc, dst: Loc): CopyResult
    requires Sound(k) && src in k.attrs
  {
    if k.attrs[src].shared then CopyBorrowed(k, src, dst) else CopyOwned(k, src, dst)
  }

  function CopyPages(k: Kernel, s: nat, t: nat, pages: seq<nat>): CopyResult
    decreases |pages|
  {
    if pages == [] then Copied(k)
    else if !Sound(k) || PageLoc(s, pages[0]) !in k.attrs then CopyPanic
    else
      match CopyPage(k, PageLoc(s, pages[0]), PageLoc(t, pages[0]))
      case Copied(k1) => CopyPages(k1, s, t, pages[1..])
      case other => other
  }

  // ----- unmapping -----

  /** One page of `Grant::unmap` followed by the flush. */
  function DropPage(k: Kernel, l: Loc): Kernel {
    var k0 := k.(attrs := k.attrs - {l});
    if l !in k.entries then k0
    else
      var f := k.entries[l].frame;
      var k1 := k0.(entries := k0.entries - {l});
      if f in k1.rc then FreeRef(k1, f) else k1
  }

  function DropPages(k: Kernel, s: nat, pages: seq<nat>): Kernel
    decreases |pages|
  {
    if pages == [] then k else DropPages(DropPage(k, PageLoc(s, pages[0])), s, pages[1..])
  }

  // ----- cloning an address space -----

  function Pages(r: Region): seq<nat> {
    seq(r.count, i => r.base + i)
  }

  function Flatten(plan: seq<Region>): seq<nat> {
    if plan == [] then [] else Pages(plan[0]) + Flatten(plan[1..])
  }

  /** Drops the grants of a page list without touching the page table. */
  function Orphan(k: Kernel, t: nat, pages: seq<nat>): Kernel
    decreases |pages|
  {
    if pages == [] then k
    else Orphan(k.(attrs := k.attrs - {PageLoc(t, pages[0])}), t, pages[1..])
  }

  /** The loop of `try_clone`. When a copy fails the new space is dropped: its finished grants are
      unmapped, but the pages copied for the unfinished grant are in no grant yet. */
  function CloneRegions(k: Kernel, s: nat, t: nat, done: seq<nat>, todo: seq<Region>): CopyResult
    decreases |todo|
  {
    if todo == [] then Copied(k)
    else
      match CopyPages(k, s, t, Pages(todo[0]))
      case Copied(k1) => CloneRegions(k1, s, t, done + Pages(todo[0]), todo[1..])
      case CopyNoMem(k1) => CopyNoMem(Orphan(DropPages(k1, t, done), t, Pages(todo[0])))
      case CopyPanic => CopyPanic
  }

  // ----- anonymous mappings -----

  /** The eager part of `Grant::zeroed`; `None` is the panic on refcount overflow. */
  function MapZero(k: Kernel, s: nat, base: nat, count: nat, i: nat): Option<Kernel>
    requires i <= count
    decreases count - i
  {
    if i == count || i == MAX_EAGER_PAGES then Some(k)
    else if k.zero !in k.rc then None
    else
      match AddRef(k.rc[k.zero], CowKind)
      case Refused(_) => None
      case Added(rc) =>
        MapZero(k.(rc := k.rc[k.zero := rc],
                   entries := k.entries[PageLoc(s, base + i) := Entry(k.zero, false)]),
                s, base, count, i + 1)
  }

  function GrantPages(attrs: map<Loc, Attr>, s: nat, base: nat, count: nat, attr: Attr): map<Loc, Attr>
    decreases count
  {
    if count == 0 then attrs
    else GrantPages(attrs[PageLoc(s, base) := attr], s, base + 1, count - 1, attr)
  }

  predicate NoConflict(attrs: map<Loc, Attr>, s: nat, base: nat, count: nat) {
    forall p | base <= p < base + count :: PageLoc(s, p) !in attrs
  }

  predicate NoPages(attrs: map<Loc, Attr>, s: nat) {
    forall l | l in attrs && l.PageLoc? :: l.space != s
  }

  // ----- runs -----

  datatype Op =
    | NewSpace
    | ZeroMap(space: nat, base: nat, count: nat, attr: Attr)
    | Load(space: nat, page: nat, access: Access)
    | Store(space: nat, page: nat, off: nat, value: Byte)
    | Clone(space: nat, plan: seq<Region>)
    | Unmap(space: nat, pages: seq<nat>)
    | DropSpace(space: nat)
    | Borrow(space: nat, page: nat)
    | HandleLoad(id: nat)
    | HandleStore(id: nat, off: nat, value: Byte)
    | Release(id: nat)
    | Reorder(pool: seq<nat>)

  datatype Obs =
    | Done
    | Value(data: PageData)
    | Created(id: nat)
    | Segv
    | Rejected
    | OutOfMemory
    | Panicked

  function UpdateByte(d: PageData, off: nat, value: Byte): PageData {
    if off < PAGE_SIZE then d[off := value] else d
  }

  function StoreAt(k: Kernel, l: Loc, off: nat, value: Byte): Kernel
    requires l in k.entries && k.entries[l].frame in k.mem
  {
    var f := k.entries[l].frame;
    k.(mem := k.mem[f := UpdateByte(k.mem[f], off, value)])
  }

  /** The grants of `s`, as the sequence in which they are visited: any exact enumeration. */
  predicate IsPlan(attrs: map<Loc, Attr>, s: nat, plan: seq<Region>) {
    var pages := Flatten(plan);
    && (forall i, j | 0 <= i < j < |pages| :: pages[i] != pages[j])
    && (forall i | 0 <= i < |pages| :: PageLoc(s, pages[i]) in attrs)
    && (forall l | l in attrs && l.PageLoc? && l.space == s :: l.page in pages)
  }

  /** `borrow_frame_enforce_rw_allocated`: the page of a private grant is made exclusive first. */
  function BorrowFrame(k: Kernel, l: Loc): (Kernel, Obs)
    requires Sound(k)
  {
    if l !in k.attrs || k.attrs[l].shared then (k, Rejected)
    else
      var corrected :=
        if l in k.entries && k.entries[l].write then Corrected(k) else CorrectInner(k, l, WriteAccess);
      match corrected
      // every error of the fault becomes ENOMEM
      case FaultSegv => (k, OutOfMemory)
      case FaultOom => (k, OutOfMemory)
      case Corrected(k1) =>
        if l !in k1.entries || k1.entries[l].frame !in k1.rc then (k, Panicked)
        else
          var f := k1.entries[l].frame;
          match AddRef(k1.rc[f], SharedKind)
          case Added(rc) =>
            (k1.(rc := k1.rc[f := rc],
                 entries := k1.entries[HandleLoc(k1.nextHandle) := Entry(f, true)],
                 nextHandle := k1.nextHandle + 1),
             Created(k1.nextHandle))
          case Refused(RcOverflow) => (k1, OutOfMemory)
          case Refused(_) => (k1, Panicked)
  }

  function Step(k: Kernel, op: Op): (Kernel, Obs)
    requires Sound(k)
  {
    match op
    case NewSpace =>
      (k.(spaces := k.spaces + {k.nextSpace}, nextSpace := k.nextSpace + 1), Created(k.nextSpace))
    case ZeroMap(s, base, count, attr) =>
      if s !in k.spaces || !NoConflict(k.attrs, s, base, count) then (k, Rejected)
      else
        (match MapZero(k.(attrs := GrantPages(k.attrs, s, base, count, attr)), s, base, count, 0)
         case None => (k, Panicked)
         case Some(k1) => (k1, Done))
    case Load(s, p, access) =>
      var l := PageLoc(s, p);
      if l in k.entries && l in k.attrs && !access.WriteAccess? && Permits(k.attrs[l], access) then
        (k, Value(View(k, l)))
      else
        (match CorrectInner(k, l, access)
         case FaultSegv => (k, Segv)
         case FaultOom => (k, Panicked)
         case Corrected(k1) => (k1, Value(View(k1, l))))
    case Store(s, p, off, v) =>
      var l := PageLoc(s, p);
      if l in k.entries && l in k.attrs && k.entries[l].write then (StoreAt(k, l, off, v), Done)
      else
        (match CorrectInner(k, l, WriteAccess)
         case FaultSegv => (k, Segv)
         case FaultOom => (k, Panicked)
         case Corrected(k1) =>
           if l in k1.entries && k1.entries[l].frame in k1.mem && k1.entries[l].write
           then (StoreAt(k1, l, off, v), Done) else (k, Panicked))
    case Clone(s, plan) =>
      if s !in k.spaces || !IsPlan(k.attrs, s, plan) then (k, Rejected)
      else
        var t := k.nextSpace;
        (match CloneRegions(k.(nextSpace := t + 1), s, t, [], plan)
         case Copied(k1) => (k1.(spaces := k1.spaces + {t}), Created(t))
         case CopyNoMem(k1) => (k1, OutOfMemory)
         case CopyPanic => (k, Panicked))
    case Unmap(s, pages) =>
      if s !in k.spaces then (k, Rejected) else (DropPages(k, s, pages), Done)
    case DropSpace(s) =>
      if s !in k.spaces || !NoPages(k.attrs, s) then (k, Rejected)
      else (k.(spaces := k.spaces - {s}), Done)
    case Borrow(s, p) => BorrowFrame(k, PageLoc(s, p))
    case HandleLoad(h) =>
      if HandleLoc(h) in k.entries then (k, Value(View(k, HandleLoc(h)))) else (k, Rejected)
    case HandleStore(h, off, v) =>
      if HandleLoc(h) in k.entries then (StoreAt(k, HandleLoc(h), off, v), Done) else (k, Rejected)
    case Release(h) =>
      if HandleLoc(h) in k.entries then (DropPage(k, HandleLoc(h)), Done) else (k, Rejected)
    case Reorder(pool) =>
      (if multiset(pool) == multiset(k.pool) then k.(pool := pool) else k, Done)
  }

  /** The kernel after `init_mm`: one frame holds the static zeroed page, the rest are free. */
  function Boot(zero: nat, pool: seq<nat>): Kernel {
    Kernel(map f | f in pool + [zero] :: ZeroPage(), map[zero := One], pool,
           map[ZeroLoc := Entry(zero, false)], map[], {}, zero, 0, 0, 0)
  }
}
