/**
 What every step of the shootdown protocol keeps.
 */
module ShootdownInvariant {
  import opened Common
  import opened ShootdownModel

  /** Locks and membership, for one CPU and one address space. A CPU is in `used_by` exactly while
      the space is current and it is not inside the switch. */
  ghost predicate PairOk(s: State, c: Cpu, a: Space)
    requires c < |s.cpus| && a < |s.spaces|
  {
    WriterOk(s, c, a) && ReaderOk(s, c, a) && MemberOk(s, c, a)
  }

  ghost predicate WriterOk(s: State, c: Cpu, a: Space)
    requires c < |s.cpus| && a < |s.spaces|
  {
    s.spaces[a].writer == Some(c) <==> HoldsWrite(s.cpus[c].pc, a)
  }

  ghost predicate ReaderOk(s: State, c: Cpu, a: Space)
    requires c < |s.cpus| && a < |s.spaces|
  {
    c in s.spaces[a].readers <==> HoldsRead(s.cpus[c].pc, a)
  }

  ghost predicate MemberOk(s: State, c: Cpu, a: Space)
    requires c < |s.cpus| && a < |s.spaces|
  {
    c in s.spaces[a].usedBy <==> s.cpus[c].cur == Some(a) && !InWindow(s.cpus[c].pc)
  }

  ghost predicate Pairs(s: State) {
    forall c, a | 0 <= c < |s.cpus| && 0 <= a < |s.spaces| :: PairOk(s, c, a)
  }

  ghost predicate LockOk(s: State, a: Space)
    requires a < |s.spaces|
  {
    && (s.spaces[a].writer.Some? ==> s.spaces[a].writer.value < |s.cpus| && s.spaces[a].readers == {})
    && (forall c :: c in s.spaces[a].usedBy || c in s.spaces[a].readers ==> c < |s.cpus|)
  }

  ghost predicate Locks(s: State) {
    forall a | 0 <= a < |s.spaces| :: LockOk(s, a)
  }

  /** What one CPU knows by where it is. */
  ghost predicate CpuOk(s: State, c: Cpu)
    requires c < |s.cpus|
  {
    && SpacesExist(s.cpus[c], |s.spaces|)
    && CurrentOk(s.cpus[c])
    && TableOk(s.cpus[c])
    && !(s.cpus[c].wants && !s.cpus[c].handler.NoRequest?)
  }

  ghost predicate SpacesExist(x: CpuState, n: nat) {
    && (x.cur.Some? ==> x.cur.value < n)
    && (x.loaded.Some? ==> x.loaded.value < n)
    && (!x.pc.Idle? && !x.pc.Between? ==> x.pc.a < n)
    && ((x.pc.Leaving? || x.pc.LeaveHeld? || x.pc.Left? || x.pc.Between?) && x.pc.next.Some? ==> x.pc.next.value < n)
  }

  predicate Switching(pc: Pc) {
    pc.Leaving? || pc.LeaveHeld? || pc.Left? || pc.Entering? || pc.EnterHeld? || pc.Entered? || pc.Loaded?
  }

  ghost predicate CurrentOk(x: CpuState) {
    Switching(x.pc) ==> x.cur == Some(x.pc.a)
  }

  /** The loaded table is the current one, except on the way in. */
  ghost predicate TableOk(x: CpuState) {
    x.pc.Entering? || x.pc.EnterHeld? || x.pc.Entered? || x.loaded == x.cur
  }

  ghost predicate Cpus(s: State) {
    forall c | 0 <= c < |s.cpus| :: CpuOk(s, c)
  }

  /** CPU `t` has a request to serve, or is serving it. */
  predicate Busy(x: CpuState) {
    x.wants || !x.handler.NoRequest?
  }

  /** A request belongs to the flush of the address space that is current on its target. */
  ghost predicate RequestOk(s: State, t: Cpu)
    requires t < |s.cpus|
  {
    var x := s.cpus[t];
    Busy(x) ==>
      && x.cur.Some? && x.cur.value < |s.spaces|
      && s.spaces[x.cur.value].writer.Some?
      && var w := s.spaces[x.cur.value].writer.value;
         w < |s.cpus| && Flushing(s.cpus[w].pc) && t in s.cpus[w].pc.sent
  }

  ghost predicate Requests(s: State) {
    forall t | 0 <= t < |s.cpus| :: RequestOk(s, t)
  }

  /** The targets that have finished their handler. */
  function Finished(s: State, sent: set<Cpu>): set<Cpu> {
    set t | t in sent && t < |s.cpus| && !Busy(s.cpus[t])
  }

  /** The flusher targets `used_by` without itself, and each acknowledgement is a finished handler. */
  ghost predicate FlushOk(s: State, w: Cpu)
    requires w < |s.cpus|
  {
    var pc := s.cpus[w].pc;
    Flushing(pc) && pc.a < |s.spaces| ==>
      && s.spaces[pc.a].ack == |Finished(s, pc.sent)|
      && TargetsOk(pc, s.spaces[pc.a].usedBy - {w})
  }

  ghost predicate TargetsOk(pc: Pc, targets: set<Cpu>) {
    && (pc.Sending? ==> pc.todo + pc.sent == targets && pc.todo !! pc.sent)
    && (pc.Waiting? ==> pc.sent == targets)
  }

  ghost predicate Flushes(s: State) {
    forall w | 0 <= w < |s.cpus| :: FlushOk(s, w)
  }

  /** CPU `c` may still cache entries that the holder of the write guard has removed. */
  ghost predicate MayBeStale(s: State, a: Space, c: Cpu)
    requires c < |s.cpus| && a < |s.spaces|
  {
    && s.spaces[a].writer.Some? && s.spaces[a].writer.value < |s.cpus|
    && var w := s.spaces[a].writer.value;
       var pc := s.cpus[w].pc;
       var x := s.cpus[c];
       match pc
       case Locked(_, queue, dirty) => dirty
       case Sending(_, _, _, todo, sent) => c == w || c in todo || (c in sent && (x.wants || x.handler.Taken?))
       case Waiting(_, _, _, sent) => c in sent && (x.wants || x.handler.Taken?)
       case _ => false
  }

  /** A CPU that runs in an address space caches only entries of its table, unless a flush that
      covers the removed ones is still to invalidate it. */
  ghost predicate FreshOk(s: State, c: Cpu)
    requires c < |s.cpus|
  {
    var x := s.cpus[c];
    x.cur.Some? && x.cur.value < |s.spaces| && !InWindow(x.pc) && !x.pc.Entered? ==>
      x.cached <= s.spaces[x.cur.value].table || MayBeStale(s, x.cur.value, c)
  }

  ghost predicate Freshness(s: State) {
    forall c | 0 <= c < |s.cpus| :: FreshOk(s, c)
  }

  ghost predicate Inv(s: State) {
    Pairs(s) && Locks(s) && Cpus(s) && Requests(s) && Flushes(s) && Freshness(s)
  }
}
