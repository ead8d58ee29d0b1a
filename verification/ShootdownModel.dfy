/**
 The TLB shootdown protocol (src/context/memory.rs, src/percpu.rs, src/context/context.rs) as
 interleaved atomic steps of any number of CPUs over any number of address spaces.

 A CPU is in user code or unrelated kernel code (`Idle`), holds or waits for the lock of one
 address space, flushes, or moves between address spaces. Whenever it is idle or in a wait loop it
 may service a request, in three steps: take the flag, invalidate, acknowledge.
 */
module ShootdownModel {
  import opened Common

  type Cpu = nat

  type Space = nat

  /** A translation that a page table holds and a TLB may cache. */
  datatype Entry = Entry(page: nat, frame: nat, writable: bool)

  /** What the flusher's queue holds: entries that were removed, and new ones, for which nothing is freed. */
  datatype Queued = Removed(e: Entry) | Added(e: Entry)

  datatype Pc =
    | Idle
    // a read guard for any other purpose
    | WantRead(a: Space)
    | Reading(a: Space)
    // a write guard, with the queue of the flusher that borrows it
    | WantWrite(a: Space)
    | Locked(a: Space, queue: set<Queued>, dirty: bool)
    // `flush`: requests still to send and sent, then waiting for the acknowledgements
    | Sending(a: Space, queue: set<Queued>, dirty: bool, todo: set<Cpu>, sent: set<Cpu>)
    | Waiting(a: Space, queue: set<Queued>, dirty: bool, sent: set<Cpu>)
    // the switch: leave the previous address space ...
    | Leaving(a: Space, next: Option<Space>)
    | LeaveHeld(a: Space, next: Option<Space>)
    | Left(a: Space, next: Option<Space>)
    | Between(next: Option<Space>)
    // ... and enter the next
    | Entering(a: Space)
    | EnterHeld(a: Space)
    | Entered(a: Space)
    | Loaded(a: Space)

  /** Where a CPU is inside `maybe_handle_tlb_shootdown`. */
  datatype Handler = NoRequest | Taken | Invalidated

  /** `cur` is `current_addrsp`, `loaded` the page table in use, `cached` what the TLB may hold. */
  datatype CpuState = CpuState(pc: Pc, handler: Handler, wants: bool, cur: Option<Space>, loaded: Option<Space>, cached: set<Entry>)

  datatype SpaceState = SpaceState(usedBy: set<Cpu>, ack: nat, writer: Option<Cpu>, readers: set<Cpu>, table: set<Entry>)

  datatype State = State(cpus: seq<CpuState>, spaces: seq<SpaceState>)

  datatype Step =
    | Fill(c: Cpu, e: Entry)
    | Take(c: Cpu) | Invalidate(c: Cpu) | Acknowledge(c: Cpu)
    | StartRead(c: Cpu, a: Space) | AcquireRead(c: Cpu) | ReleaseRead(c: Cpu)
    | StartWrite(c: Cpu, a: Space) | AcquireWrite(c: Cpu) | MapEntry(c: Cpu, e: Entry, queued: bool) | UnmapEntry(c: Cpu, e: Entry)
    | StartFlush(c: Cpu) | Send(c: Cpu, target: Cpu) | FlushOwn(c: Cpu) | Free(c: Cpu) | ReleaseWrite(c: Cpu)
    | StartSwitch(c: Cpu, next: Option<Space>) | AcquireLeave(c: Cpu) | ClearUsed(c: Cpu) | ReleaseLeave(c: Cpu)
    | SetCurrent(c: Cpu) | AcquireEnter(c: Cpu) | SetUsed(c: Cpu) | LoadTable(c: Cpu) | ReleaseEnter(c: Cpu)

  // ----- what a CPU is doing -----

  predicate HoldsRead(pc: Pc, a: Space) {
    (pc.Reading? || pc.LeaveHeld? || pc.Left? || pc.EnterHeld? || pc.Entered? || pc.Loaded?) && pc.a == a
  }

  predicate HoldsWrite(pc: Pc, a: Space) {
    (pc.Locked? || pc.Sending? || pc.Waiting?) && pc.a == a
  }

  predicate Flushing(pc: Pc) {
    pc.Sending? || pc.Waiting?
  }

  /** Between clearing its bit in the previous space and setting it in the next: kernel code that
      touches no user memory. */
  predicate InWindow(pc: Pc) {
    pc.Left? || pc.Between? || pc.Entering? || pc.EnterHeld?
  }

  /** Wait loops, which service requests, as interrupts do while nothing is going on. */
  predicate Services(pc: Pc) {
    pc.Idle? || pc.WantRead? || pc.WantWrite? || pc.Waiting? || pc.Leaving? || pc.Entering?
  }

  // ----- steps -----

  /** The step is taken by a CPU that is not inside the handler, at a program point that `pc` describes. */
  predicate At(s: State, c: Cpu) {
    c < |s.cpus| && s.cpus[c].handler.NoRequest?
  }

  predicate IsSpace(s: State, a: Space) {
    a < |s.spaces|
  }

  predicate CanRead(s: State, a: Space) {
    a < |s.spaces| && s.spaces[a].writer.None?
  }

  predicate CanWrite(s: State, a: Space) {
    a < |s.spaces| && s.spaces[a].writer.None? && s.spaces[a].readers == {}
  }

  predicate Enabled(s: State, step: Step) {
    step.c < |s.cpus| &&
    var x := s.cpus[step.c];
    match step
    // the hardware may cache any entry of the loaded table at any time
    case Fill(c, e) => x.loaded.Some? && IsSpace(s, x.loaded.value) && e in s.spaces[x.loaded.value].table
    case Take(c) => At(s, c) && (Services(x.pc) || SpinsOnFlag(s, c)) && x.wants
    case Invalidate(c) => x.handler.Taken?
    case Acknowledge(c) => x.handler.Invalidated? && (x.cur.Some? ==> IsSpace(s, x.cur.value))
    case StartRead(c, a) => At(s, c) && x.pc.Idle? && IsSpace(s, a)
    case AcquireRead(c) => At(s, c) && x.pc.WantRead? && CanRead(s, x.pc.a)
    case ReleaseRead(c) => At(s, c) && x.pc.Reading? && IsSpace(s, x.pc.a)
    case StartWrite(c, a) => At(s, c) && x.pc.Idle? && IsSpace(s, a)
    case AcquireWrite(c) => At(s, c) && x.pc.WantWrite? && CanWrite(s, x.pc.a)
    case MapEntry(c, _, _) => At(s, c) && x.pc.Locked? && IsSpace(s, x.pc.a)
    case UnmapEntry(c, _) => At(s, c) && x.pc.Locked? && IsSpace(s, x.pc.a)
    case StartFlush(c) => At(s, c) && x.pc.Locked? && IsSpace(s, x.pc.a) && (x.pc.queue != {} || x.pc.dirty)
    case Send(c, t) => At(s, c) && x.pc.Sending? && t in x.pc.todo && t < |s.cpus| && !s.cpus[t].wants && t != c
    case FlushOwn(c) => At(s, c) && x.pc.Sending? && x.pc.todo == {} && IsSpace(s, x.pc.a)
    case Free(c) => At(s, c) && x.pc.Waiting? && IsSpace(s, x.pc.a) && s.spaces[x.pc.a].ack >= |x.pc.sent|
    case ReleaseWrite(c) => At(s, c) && x.pc.Locked? && IsSpace(s, x.pc.a) && x.pc.queue == {} && !x.pc.dirty
    case StartSwitch(c, next) => At(s, c) && x.pc.Idle? && (next.Some? ==> IsSpace(s, next.value))
    case AcquireLeave(c) => At(s, c) && x.pc.Leaving? && CanRead(s, x.pc.a)
    case ClearUsed(c) => At(s, c) && x.pc.LeaveHeld? && IsSpace(s, x.pc.a)
    case ReleaseLeave(c) => At(s, c) && x.pc.Left? && IsSpace(s, x.pc.a)
    case SetCurrent(c) => At(s, c) && x.pc.Between?
    case AcquireEnter(c) => At(s, c) && x.pc.Entering? && CanRead(s, x.pc.a)
    case SetUsed(c) => At(s, c) && x.pc.EnterHeld? && IsSpace(s, x.pc.a)
    case LoadTable(c) => At(s, c) && x.pc.Entered?
    case ReleaseEnter(c) => At(s, c) && x.pc.Loaded? && IsSpace(s, x.pc.a)
  }

  /** The target of a request still has its flag set by an earlier one. */
  predicate SpinsOnFlag(s: State, c: Cpu)
    requires c < |s.cpus|
  {
    s.cpus[c].pc.Sending? && exists t :: t in s.cpus[c].pc.todo && t < |s.cpus| && s.cpus[t].wants
  }

  function WithCpu(s: State, c: Cpu, x: CpuState): State
    requires c < |s.cpus|
  {
    s.(cpus := s.cpus[c := x])
  }

  function WithPc(s: State, c: Cpu, pc: Pc): State
    requires c < |s.cpus|
  {
    WithCpu(s, c, s.cpus[c].(pc := pc))
  }

  function WithSpace(s: State, a: Space, y: SpaceState): State
    requires a < |s.spaces|
  {
    s.(spaces := s.spaces[a := y])
  }

  function GainRead(s: State, c: Cpu, a: Space): State
    requires a < |s.spaces|
  {
    WithSpace(s, a, s.spaces[a].(readers := s.spaces[a].readers + {c}))
  }

  function DropRead(s: State, c: Cpu, a: Space): State
    requires a < |s.spaces|
  {
    WithSpace(s, a, s.spaces[a].(readers := s.spaces[a].readers - {c}))
  }

  function Apply(s: State, step: Step): State
    requires Enabled(s, step)
  {
    var x := s.cpus[step.c];
    match step
    case Fill(c, e) => WithCpu(s, c, x.(cached := x.cached + {e}))
    case Take(c) => WithCpu(s, c, x.(wants := false, handler := Taken))
    case Invalidate(c) => WithCpu(s, c, x.(cached := {}, handler := Invalidated))
    case Acknowledge(c) => AfterAck(s, c)
    case StartRead(c, a) => WithPc(s, c, WantRead(a))
    case AcquireRead(c) => WithPc(GainRead(s, c, x.pc.a), c, Reading(x.pc.a))
    case ReleaseRead(c) => WithPc(DropRead(s, c, x.pc.a), c, Idle)
    case StartWrite(c, a) => WithPc(s, c, WantWrite(a))
    case AcquireWrite(c) => WithPc(WithSpace(s, x.pc.a, s.spaces[x.pc.a].(writer := Some(c))), c, Locked(x.pc.a, {}, false))
    // most code queues a new mapping too, which marks the flusher dirty; the page-fault handler does not
    case MapEntry(c, e, queued) =>
      WithPc(WithSpace(s, x.pc.a, s.spaces[x.pc.a].(table := s.spaces[x.pc.a].table + {e})), c,
             if queued then Locked(x.pc.a, x.pc.queue + {Added(e)}, true) else x.pc)
    case UnmapEntry(c, e) =>
      WithPc(WithSpace(s, x.pc.a, s.spaces[x.pc.a].(table := s.spaces[x.pc.a].table - {e})), c,
             Locked(x.pc.a, x.pc.queue + {Removed(e)}, true))
    case StartFlush(c) => AfterStartFlush(s, c)
    case Send(c, t) => AfterSend(s, c, t)
    case FlushOwn(c) =>
      var own := if c in s.spaces[x.pc.a].usedBy then {} else x.cached;
      WithCpu(s, c, x.(cached := own, pc := Waiting(x.pc.a, x.pc.queue, x.pc.dirty, x.pc.sent)))
    case Free(c) => WithPc(s, c, Locked(x.pc.a, {}, x.pc.dirty))
    case ReleaseWrite(c) => WithPc(WithSpace(s, x.pc.a, s.spaces[x.pc.a].(writer := None)), c, Idle)
    case StartSwitch(c, next) => WithPc(s, c, if x.cur.Some? then Leaving(x.cur.value, next) else Between(next))
    case AcquireLeave(c) => WithPc(GainRead(s, c, x.pc.a), c, LeaveHeld(x.pc.a, x.pc.next))
    case ClearUsed(c) =>
      WithPc(WithSpace(s, x.pc.a, s.spaces[x.pc.a].(usedBy := s.spaces[x.pc.a].usedBy - {c})), c, Left(x.pc.a, x.pc.next))
    case ReleaseLeave(c) => WithPc(DropRead(s, c, x.pc.a), c, Between(x.pc.next))
    case SetCurrent(c) =>
      if x.pc.next.Some? then WithCpu(s, c, x.(cur := x.pc.next, pc := Entering(x.pc.next.value)))
      else WithCpu(s, c, x.(cur := None, loaded := None, cached := {}, pc := Idle))
    case AcquireEnter(c) => WithPc(GainRead(s, c, x.pc.a), c, EnterHeld(x.pc.a))
    case SetUsed(c) => WithPc(WithSpace(s, x.pc.a, s.spaces[x.pc.a].(usedBy := s.spaces[x.pc.a].usedBy + {c})), c, Entered(x.pc.a))
    case LoadTable(c) => WithCpu(s, c, x.(loaded := Some(x.pc.a), cached := {}, pc := Loaded(x.pc.a)))
    case ReleaseEnter(c) => WithPc(DropRead(s, c, x.pc.a), c, Idle)
  }

  /** The acknowledgement goes to whatever address space is current. */
  function AfterAck(s: State, c: Cpu): State
    requires Enabled(s, Acknowledge(c))
  {
    var x := s.cpus[c];
    var s1 := WithCpu(s, c, x.(handler := NoRequest));
    if x.cur.Some? then WithSpace(s1, x.cur.value, s.spaces[x.cur.value].(ack := s.spaces[x.cur.value].ack + 1)) else s1
  }

  /** The queue is taken, but the dirty flag is cleared only when the queue was empty. */
  function AfterStartFlush(s: State, c: Cpu): State
    requires Enabled(s, StartFlush(c))
  {
    var pc := s.cpus[c].pc;
    var y := s.spaces[pc.a];
    WithPc(WithSpace(s, pc.a, y.(ack := 0)), c,
           Sending(pc.a, pc.queue, if pc.queue == {} then false else pc.dirty, y.usedBy - {c}, {}))
  }

  function AfterSend(s: State, c: Cpu, t: Cpu): State
    requires Enabled(s, Send(c, t))
  {
    var pc := s.cpus[c].pc;
    WithPc(WithCpu(s, t, s.cpus[t].(wants := true)), c,
           Sending(pc.a, pc.queue, pc.dirty, pc.todo - {t}, pc.sent + {t}))
  }

  /** Nothing runs and no address space is in use. */
  predicate Initial(s: State) {
    && (forall c | 0 <= c < |s.cpus| :: s.cpus[c] == CpuState(Idle, NoRequest, false, None, None, {}))
    && (forall a | 0 <= a < |s.spaces| :: s.spaces[a].usedBy == {} && s.spaces[a].writer.None? && s.spaces[a].readers == {})
  }

  // ----- runs -----

  ghost predicate IsRun(states: seq<State>, steps: seq<Step>) {
    && |states| == |steps| + 1
    && Initial(states[0])
    && (forall i | 0 <= i < |steps| :: Enabled(states[i], steps[i]) && Apply(states[i], steps[i]) == states[i + 1])
  }
}
