/**
 Whole runs of the shootdown protocol: freeing is safe, and the wait loops always end.
 */
module ShootdownRuns {
  import opened Common
  import opened ShootdownModel
  import opened ShootdownInvariant
  import opened ShootdownSteps

  // ----- safety -----

  /** The CPU may execute user code, or kernel code that touches user memory. */
  predicate Runs(x: CpuState) {
    !InWindow(x.pc) && !x.pc.Entered?
  }

  /** The entries that the holder of the write guard has removed and not yet released. */
  function Pending(s: State, a: Space): set<Entry>
    requires a < |s.spaces|
  {
    if s.spaces[a].writer.Some? && s.spaces[a].writer.value < |s.cpus| && HoldsWrite(s.cpus[s.spaces[a].writer.value].pc, a)
    then RemovedIn(s.cpus[s.spaces[a].writer.value].pc.queue) else {}
  }

  function RemovedIn(queue: set<Queued>): set<Entry> {
    set q | q in queue && q.Removed? :: q.e
  }

  /** What a running CPU caches is in its table, or is still waiting to be freed. */
  ghost predicate BackedOk(s: State, c: Cpu)
    requires c < |s.cpus|
  {
    var x := s.cpus[c];
    Runs(x) && x.loaded.Some? && x.loaded.value < |s.spaces| ==>
      x.cached <= s.spaces[x.loaded.value].table + Pending(s, x.loaded.value)
  }

  ghost predicate Backed(s: State) {
    forall c | 0 <= c < |s.cpus| :: BackedOk(s, c)
  }

  lemma BackedFree(s: State, w: Cpu, c: Cpu)
    requires Inv(s) && Enabled(s, Free(w)) && c < |s.cpus| && BackedOk(s, c)
    ensures |Apply(s, Free(w)).cpus| == |s.cpus| && BackedOk(Apply(s, Free(w)), c)
  {
    hide Flushes, Requests, Locks, Pairs, Freshness, Cpus, MayBeStale;
    FreshFree(s, w, c);
    FreshAt(s, c);
    FreshAt(s, w);
    PairAt(s, w, s.cpus[w].pc.a);
    if s.cpus[c].loaded.Some? {
      PairAt(s, w, s.cpus[c].loaded.value);
    }
  }

  predicate UnderGuard(step: Step) {
    step.AcquireWrite? || step.MapEntry? || step.UnmapEntry? || step.StartFlush? || step.Send? || step.FlushOwn? || step.ReleaseWrite?
  }

  /** Steps with the write guard, for the space the CPU runs in and for any other. */
  lemma BackedWriter(s: State, step: Step)
    requires Enabled(s, step) && UnderGuard(step) && CpuOk(s, step.c) && BackedOk(s, step.c)
    requires WriterOk(s, step.c, s.cpus[step.c].pc.a)
    requires s.cpus[step.c].loaded.Some? ==> WriterOk(s, step.c, s.cpus[step.c].loaded.value)
    ensures |Apply(s, step).cpus| == |s.cpus| && BackedOk(Apply(s, step), step.c)
  {
  }

  lemma BackedOwn(s: State, step: Step)
    requires Enabled(s, step) && !UnderGuard(step) && !step.Free? && CpuOk(s, step.c) && BackedOk(s, step.c)
    requires s.cpus[step.c].loaded.Some? ==> WriterOk(s, step.c, s.cpus[step.c].loaded.value)
    ensures |Apply(s, step).cpus| == |s.cpus| && BackedOk(Apply(s, step), step.c)
  {
  }

  lemma BackedOtherSwitch(s: State, step: Step, c: Cpu)
    requires Enabled(s, step) && OfSwitch(step) && c < |s.cpus| && c != step.c && BackedOk(s, c)
    requires s.cpus[c].loaded.Some? && s.cpus[c].loaded.value < |s.spaces| ==> WriterOk(s, step.c, s.cpus[c].loaded.value)
    ensures |Apply(s, step).cpus| == |s.cpus| && BackedOk(Apply(s, step), c)
  {
  }

  lemma BackedOtherRest(s: State, step: Step, c: Cpu)
    requires Enabled(s, step) && !OfSwitch(step) && !step.Free? && c < |s.cpus| && c != step.c && BackedOk(s, c)
    requires s.cpus[c].loaded.Some? && s.cpus[c].loaded.value < |s.spaces| ==> WriterOk(s, step.c, s.cpus[c].loaded.value)
    ensures |Apply(s, step).cpus| == |s.cpus| && BackedOk(Apply(s, step), c)
  {
  }

  lemma BackedOther(s: State, step: Step, c: Cpu)
    requires Enabled(s, step) && !step.Free? && c < |s.cpus| && c != step.c && BackedOk(s, c)
    requires s.cpus[c].loaded.Some? && s.cpus[c].loaded.value < |s.spaces| ==> WriterOk(s, step.c, s.cpus[c].loaded.value)
    ensures |Apply(s, step).cpus| == |s.cpus| && BackedOk(Apply(s, step), c)
  {
    hide Enabled, Apply, BackedOk, WriterOk;
    StepSizes(s, step);
    if OfSwitch(step) {
      BackedOtherSwitch(s, step, c);
    } else {
      BackedOtherRest(s, step, c);
    }
  }

  lemma StepBacked(s: State, step: Step)
    requires Inv(s) && Enabled(s, step) && Backed(s)
    ensures Backed(Apply(s, step))
  {
    hide Inv, Enabled, Apply, BackedOk, CpuOk, FreshOk, WriterOk, ReaderOk, MemberOk;
    StepSizes(s, step);
    forall c | 0 <= c < |s.cpus|
      ensures BackedOk(Apply(s, step), c)
    {
      FreshAt(s, step.c);
      WritersAt(s, step, c);
      if step.Free? {
        BackedFree(s, step.c, c);
      } else if c != step.c {
        BackedOther(s, step, c);
      } else if UnderGuard(step) {
        BackedWriter(s, step);
      } else {
        BackedOwn(s, step);
      }
    }
  }

  lemma WritersAt(s: State, step: Step, c: Cpu)
    requires Inv(s) && Enabled(s, step) && c < |s.cpus|
    ensures s.cpus[c].loaded.Some? ==> s.cpus[c].loaded.value < |s.spaces| && WriterOk(s, step.c, s.cpus[c].loaded.value)
    ensures UnderGuard(step) ==> !s.cpus[step.c].pc.Idle? && !s.cpus[step.c].pc.Between?
    ensures UnderGuard(step) ==> s.cpus[step.c].pc.a < |s.spaces| && WriterOk(s, step.c, s.cpus[step.c].pc.a)
  {
    hide Freshness, Flushes, Requests, Locks;
    assert CpuOk(s, c) && CpuOk(s, step.c);
    if s.cpus[c].loaded.Some? {
      assert PairOk(s, step.c, s.cpus[c].loaded.value);
    }
    if UnderGuard(step) {
      assert PairOk(s, step.c, s.cpus[step.c].pc.a);
    }
  }

  lemma InitialBacked(s: State)
    requires Initial(s)
    ensures Backed(s)
  {
  }

  lemma {:induction false} RunInv(states: seq<State>, steps: seq<Step>, i: nat)
    requires IsRun(states, steps) && i < |states|
    ensures Inv(states[i]) && Backed(states[i])
  {
    hide Inv, Backed, Enabled, Apply, Initial;
    if i == 0 {
      InitialInv(states[0]);
      InitialBacked(states[0]);
    } else {
      RunInv(states, steps, i - 1);
      StepInv(states[i - 1], steps[i - 1]);
      StepBacked(states[i - 1], steps[i - 1]);
    }
  }

  /** Shootdown safety: when a flush hands its frames back, every CPU in `used_by` has finished
      its handler and caches only what the table holds now; any other CPU that still has the table
      loaded is inside the switch. */
  lemma FreeIsSafe(states: seq<State>, steps: seq<Step>, i: nat, c: Cpu)
    requires IsRun(states, steps) && i < |steps| && steps[i].Free? && c < |states[i].cpus|
    ensures var s := states[i];
            var pc := s.cpus[steps[i].c].pc;
            && pc.Waiting? && pc.a < |s.spaces|
            && pc.sent == s.spaces[pc.a].usedBy - {steps[i].c} && s.spaces[pc.a].ack == |pc.sent|
            && (c in pc.sent ==> !Busy(s.cpus[c]))
            && (c in s.spaces[pc.a].usedBy ==> s.cpus[c].loaded == Some(pc.a) && s.cpus[c].cached <= s.spaces[pc.a].table)
            && (c !in s.spaces[pc.a].usedBy && s.cpus[c].loaded == Some(pc.a) ==> !Runs(s.cpus[c]))
  {
    RunInv(states, steps, i);
    var s, w := states[i], steps[i].c;
    FreeFacts(s, w, c);
  }

  lemma FreeFacts(s: State, w: Cpu, c: Cpu)
    requires Inv(s) && Enabled(s, Free(w)) && c < |s.cpus|
    ensures var pc := s.cpus[w].pc;
            && pc.Waiting? && pc.a < |s.spaces|
            && pc.sent == s.spaces[pc.a].usedBy - {w} && s.spaces[pc.a].ack == |pc.sent|
            && (c in pc.sent ==> !Busy(s.cpus[c]))
            && (c in s.spaces[pc.a].usedBy ==> s.cpus[c].loaded == Some(pc.a) && s.cpus[c].cached <= s.spaces[pc.a].table)
            && (c !in s.spaces[pc.a].usedBy && s.cpus[c].loaded == Some(pc.a) ==> !Runs(s.cpus[c]))
  {
    hide Inv, MayBeStale;
    var a := FlushFacts(s, w);
    FreshFree(s, w, c);
    FreshAt(s, c);
    PairAt(s, c, a);
    FreeMeansFinished(s, w);
    AckIsAll(s, w);
  }

  lemma AckIsAll(s: State, w: Cpu)
    requires Inv(s) && Enabled(s, Free(w))
    ensures s.spaces[s.cpus[w].pc.a].ack == |s.cpus[w].pc.sent|
  {
    hide Inv;
    var a := FlushFacts(s, w);
    FreeMeansFinished(s, w);
    assert Finished(s, s.cpus[w].pc.sent) == s.cpus[w].pc.sent;
  }

  /** No running CPU ever caches an entry that was removed and whose frame has been handed back. */
  lemma NothingFreedIsCached(states: seq<State>, steps: seq<Step>, i: nat, c: Cpu, e: Entry)
    requires IsRun(states, steps) && i < |states| && c < |states[i].cpus|
    requires Runs(states[i].cpus[c]) && e in states[i].cpus[c].cached
    ensures var s := states[i];
            && s.cpus[c].loaded == s.cpus[c].cur
            && (s.cpus[c].cur.Some? ==>
                  var a := s.cpus[c].cur.value;
                  a < |s.spaces| && c in s.spaces[a].usedBy && (e in s.spaces[a].table || e in Pending(s, a)))
  {
    hide Initial, Enabled, Apply, Pending;
    RunInv(states, steps, i);
    var s := states[i];
    assert CpuOk(s, c) && BackedOk(s, c);
    if s.cpus[c].cur.Some? {
      assert PairOk(s, c, s.cpus[c].cur.value);
    }
  }

  // ----- the tables -----

  /** The space whose table the step changes. */
  ghost predicate ChangesTable(s: State, step: Step, a: Space, e: Entry) {
    (step.MapEntry? || step.UnmapEntry?) && step.e == e && step.c < |s.cpus| && HoldsWrite(s.cpus[step.c].pc, a)
  }

  /** The last change of the entry put it into the table. */
  ghost predicate LastMapped(states: seq<State>, steps: seq<Step>, i: nat, a: Space, e: Entry)
    requires i < |states| == |steps| + 1 && a < |states[0].spaces|
  {
    if i == 0 then e in states[0].spaces[a].table
    else if ChangesTable(states[i - 1], steps[i - 1], a, e) then steps[i - 1].MapEntry?
    else LastMapped(states, steps, i - 1, a, e)
  }

  lemma TableStep(s: State, step: Step, a: Space, e: Entry)
    requires Enabled(s, step) && a < |s.spaces|
    ensures |Apply(s, step).spaces| == |s.spaces|
    ensures e in Apply(s, step).spaces[a].table <==>
            if ChangesTable(s, step, a, e) then step.MapEntry? else e in s.spaces[a].table
  {
  }

  /** In every run an entry is in a table exactly when its last change under the guard put it there. */
  lemma {:induction false} TableIsHistory(states: seq<State>, steps: seq<Step>, i: nat, a: Space, e: Entry)
    requires IsRun(states, steps) && i < |states| && a < |states[0].spaces|
    ensures |states[i].spaces| == |states[0].spaces|
    ensures e in states[i].spaces[a].table <==> LastMapped(states, steps, i, a, e)
    decreases i
  {
    hide Enabled, Apply, ChangesTable;
    if i > 0 {
      TableIsHistory(states, steps, i - 1, a, e);
      TableStep(states[i - 1], steps[i - 1], a, e);
    }
  }

  // ----- the caches -----

  /** The step empties the cache of the CPU: a request served, its own flush, or a new table. */
  ghost predicate Empties(s: State, step: Step, c: Cpu)
    requires c < |s.cpus|
  {
    step.c == c &&
    var pc := s.cpus[c].pc;
    || step.Invalidate?
    || (step.FlushOwn? && pc.Sending? && pc.a < |s.spaces| && c in s.spaces[pc.a].usedBy)
    || step.LoadTable?
    || (step.SetCurrent? && pc.Between? && pc.next.None?)
  }

  /** The entry was cached since the cache was last emptied. */
  ghost predicate LastFilled(states: seq<State>, steps: seq<Step>, i: nat, c: Cpu, e: Entry)
    requires i < |states| == |steps| + 1 && forall j | 0 <= j < |states| :: c < |states[j].cpus|
  {
    i > 0 &&
    (steps[i - 1] == Fill(c, e) || (!Empties(states[i - 1], steps[i - 1], c) && LastFilled(states, steps, i - 1, c, e)))
  }

  lemma CacheStepSwitch(s: State, step: Step, c: Cpu, e: Entry)
    requires Enabled(s, step) && c < |s.cpus| && OfSwitch(step)
    ensures |Apply(s, step).cpus| == |s.cpus|
    ensures e in Apply(s, step).cpus[c].cached <==> !Empties(s, step, c) && e in s.cpus[c].cached
  {
  }

  lemma CacheStepOther(s: State, step: Step, c: Cpu, e: Entry)
    requires Enabled(s, step) && c < |s.cpus| && !OfSwitch(step)
    ensures |Apply(s, step).cpus| == |s.cpus|
    ensures e in Apply(s, step).cpus[c].cached <==> step == Fill(c, e) || (!Empties(s, step, c) && e in s.cpus[c].cached)
  {
  }

  lemma CacheStep(s: State, step: Step, c: Cpu, e: Entry)
    requires Enabled(s, step) && c < |s.cpus|
    ensures |Apply(s, step).cpus| == |s.cpus|
    ensures e in Apply(s, step).cpus[c].cached <==> step == Fill(c, e) || (!Empties(s, step, c) && e in s.cpus[c].cached)
  {
    hide Enabled, Apply, Empties;
    if OfSwitch(step) {
      CacheStepSwitch(s, step, c, e);
    } else {
      CacheStepOther(s, step, c, e);
    }
  }

  /** In every run a CPU caches exactly what the hardware has filled in since the cache was emptied. */
  lemma {:induction false} CacheIsHistory(states: seq<State>, steps: seq<Step>, i: nat, c: Cpu, e: Entry)
    requires IsRun(states, steps) && i < |states| && forall j | 0 <= j < |states| :: c < |states[j].cpus|
    ensures e in states[i].cpus[c].cached <==> LastFilled(states, steps, i, c, e)
    decreases i
  {
    hide Enabled, Apply, Empties;
    if i > 0 {
      CacheIsHistory(states, steps, i - 1, c, e);
      CacheStep(states[i - 1], steps[i - 1], c, e);
    }
  }

  // ----- the flusher -----

  /** The flusher of a CPU: empty while it holds no write guard. */
  function QueueOf(pc: Pc): set<Queued> {
    if pc.Locked? || pc.Sending? || pc.Waiting? then pc.queue else {}
  }

  /** The step queues this: an entry removed, or one added by code that queues new mappings. */
  predicate Enqueues(step: Step, c: Cpu, q: Queued) {
    || (step == UnmapEntry(c, q.e) && q.Removed?)
    || (step == MapEntry(c, q.e, true) && q.Added?)
  }

  /** It was queued since frames were last handed back. */
  ghost predicate LastQueued(steps: seq<Step>, i: nat, c: Cpu, q: Queued)
    requires i <= |steps|
  {
    i > 0 && (Enqueues(steps[i - 1], c, q) || (steps[i - 1] != Free(c) && LastQueued(steps, i - 1, c, q)))
  }

  lemma QueueStepSwitch(s: State, step: Step, c: Cpu, q: Queued)
    requires Enabled(s, step) && c < |s.cpus| && OfSwitch(step)
    ensures |Apply(s, step).cpus| == |s.cpus|
    ensures q in QueueOf(Apply(s, step).cpus[c].pc) <==> q in QueueOf(s.cpus[c].pc)
  {
  }

  lemma QueueStepOther(s: State, step: Step, c: Cpu, q: Queued)
    requires Enabled(s, step) && c < |s.cpus| && !OfSwitch(step)
    ensures |Apply(s, step).cpus| == |s.cpus|
    ensures q in QueueOf(Apply(s, step).cpus[c].pc) <==>
            Enqueues(step, c, q) || (step != Free(c) && q in QueueOf(s.cpus[c].pc))
  {
  }

  lemma QueueStep(s: State, step: Step, c: Cpu, q: Queued)
    requires Enabled(s, step) && c < |s.cpus|
    ensures |Apply(s, step).cpus| == |s.cpus|
    ensures q in QueueOf(Apply(s, step).cpus[c].pc) <==>
            Enqueues(step, c, q) || (step != Free(c) && q in QueueOf(s.cpus[c].pc))
  {
    hide Enabled, Apply, QueueOf;
    if OfSwitch(step) {
      QueueStepSwitch(s, step, c, q);
    } else {
      QueueStepOther(s, step, c, q);
    }
  }

  /** In every run the flusher holds exactly what was queued since it last handed frames back. */
  lemma {:induction false} QueueIsHistory(states: seq<State>, steps: seq<Step>, i: nat, c: Cpu, q: Queued)
    requires IsRun(states, steps) && i < |states| && c < |states[0].cpus|
    ensures |states[i].cpus| == |states[0].cpus| && (q in QueueOf(states[i].cpus[c].pc) <==> LastQueued(steps, i, c, q))
    decreases i
  {
    hide Enabled, Apply, QueueOf, Enqueues;
    if i > 0 {
      QueueIsHistory(states, steps, i - 1, c, q);
      QueueStep(states[i - 1], steps[i - 1], c, q);
    } else {
      IdleHasNone(states[0].cpus[c].pc);
    }
  }

  lemma IdleHasNone(pc: Pc)
    requires pc.Idle?
    ensures QueueOf(pc) == {}
  {
  }

  /** What is queued marks the flusher dirty. */
  predicate QueueMarked(pc: Pc) {
    (pc.Locked? || pc.Sending? || pc.Waiting?) && pc.queue != {} ==> pc.dirty
  }

  lemma MarkedStep(s: State, step: Step, c: Cpu)
    requires Enabled(s, step) && c < |s.cpus| && QueueMarked(s.cpus[c].pc)
    ensures |Apply(s, step).cpus| == |s.cpus| && QueueMarked(Apply(s, step).cpus[c].pc)
  {
  }

  lemma {:induction false} QueuedIsDirty(states: seq<State>, steps: seq<Step>, i: nat, c: Cpu)
    requires IsRun(states, steps) && i < |states| && c < |states[0].cpus|
    ensures |states[i].cpus| == |states[0].cpus| && QueueMarked(states[i].cpus[c].pc)
    decreases i
  {
    hide Enabled, Apply, QueueMarked;
    if i > 0 {
      QueuedIsDirty(states, steps, i - 1, c);
      MarkedStep(states[i - 1], steps[i - 1], c);
    } else {
      IdleIsMarked(states[0].cpus[c].pc);
    }
  }

  /** A flush with something queued is followed by another: the flusher stays dirty. */
  lemma FlushLeavesDirty(states: seq<State>, steps: seq<Step>, i: nat)
    requires IsRun(states, steps) && i < |steps| && steps[i].Free? && steps[i].c < |states[0].cpus|
    ensures var c := steps[i].c;
            && c < |states[i].cpus| && c < |states[i + 1].cpus| && states[i].cpus[c].pc.Waiting? && states[i + 1].cpus[c].pc.Locked?
            && states[i + 1].cpus[c].pc.queue == {}
            && (states[i].cpus[c].pc.queue != {} ==> states[i + 1].cpus[c].pc.dirty)
  {
    QueuedIsDirty(states, steps, i, steps[i].c);
    hide Initial;
  }

  lemma IdleIsMarked(pc: Pc)
    requires pc.Idle?
    ensures QueueMarked(pc)
  {
  }

  /** What the rest of the kernel and the hardware may do at any time: an idle CPU may take either guard
      of any space or switch to any, the holder of a write guard may change any entry, and the hardware
      may cache any entry of the table that is loaded. */
  lemma AnythingMayHappen(s: State, c: Cpu, a: Space, e: Entry, queued: bool)
    requires c < |s.cpus| && a < |s.spaces| && s.cpus[c].handler.NoRequest?
    ensures s.cpus[c].pc.Idle? ==>
              Enabled(s, StartRead(c, a)) && Enabled(s, StartWrite(c, a)) && Enabled(s, StartSwitch(c, Some(a))) && Enabled(s, StartSwitch(c, None))
    ensures s.cpus[c].pc.Locked? && s.cpus[c].pc.a == a ==> Enabled(s, MapEntry(c, e, queued)) && Enabled(s, UnmapEntry(c, e))
    ensures s.cpus[c].loaded == Some(a) && e in s.spaces[a].table ==> Enabled(s, Fill(c, e))
  {
  }
}
