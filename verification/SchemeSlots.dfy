/**
 Which slots of the slab are given back (src/scheme/user.rs), and which are lost.
 */
module SchemeSlots {
  import opened Common
  import opened SchemeCalls
  import opened SchemeProofs

  /** A slot that nobody will remove: its call found the scheme unmounting, or was killed and then
      answered while its context was still around. */
  ghost predicate Orphaned(s: State, t: Tag) {
    && t in s.slots && s.slots[t].call in s.callers
    && var c := s.callers[s.slots[t].call];
       (s.slots[t].Placeholder? && c.phase == Done(NoDevice)) || (s.slots[t].Responded? && c.phase == Done(Killed))
  }

  lemma OrphanStaysScheme(s: State, step: Step, t: Tag)
    requires Enabled(s, step) && Orderly(s, step) && Orphaned(s, t) && (step.Read? || step.Respond? || step.ProvideMmap?)
    requires step.Respond? && step.t == t ==> AwaitsAnswer(s, t, s.owed[t])
    ensures Orphaned(Apply(s, step), t)
  {
  }

  lemma OrphanStaysCaller(s: State, step: Step, t: Tag)
    requires Enabled(s, step) && Orderly(s, step) && Orphaned(s, t) && !step.Read? && !step.Respond? && !step.ProvideMmap?
    requires SlotOk(s, t) && (step.k in s.callers ==> CallerOk(s, step.k))
    ensures Orphaned(Apply(s, step), t)
  {
  }

  /** Such a slot is lost for good. */
  lemma OrphanStays(s: State, step: Step, t: Tag)
    requires Inv(s) && Enabled(s, step) && Orderly(s, step) && Orphaned(s, t)
    ensures Orphaned(Apply(s, step), t)
  {
    hide Queued, Enabled, Apply, SlotOk, CallerOk;
    TagSlot(s, t);
    if step.Read? || step.Respond? || step.ProvideMmap? {
      OwedAt(s, t);
      if step.Respond? {
        RespondIs(s, step.t, step.a, step.alive);
      }
      OrphanStaysScheme(s, step, t);
    } else {
      OrphanStaysCaller(s, step, t);
    }
  }

  // ----- continuations -----

  ghost predicate CanRun(s: State, steps: seq<Step>)
    decreases |steps|
  {
    steps == [] || (Enabled(s, steps[0]) && Orderly(s, steps[0]) && CanRun(Apply(s, steps[0]), steps[1..]))
  }

  ghost function Exec(s: State, steps: seq<Step>): State
    requires CanRun(s, steps)
    decreases |steps|
  {
    if steps == [] then s else Exec(Apply(s, steps[0]), steps[1..])
  }

  lemma {:induction false} ExecAppend(s: State, a: seq<Step>, b: seq<Step>)
    requires CanRun(s, a) && CanRun(Exec(s, a), b)
    ensures CanRun(s, a + b) && Exec(s, a + b) == Exec(Exec(s, a), b)
    decreases |a|
  {
    hide Apply, Enabled;
    if a == [] {
      assert a + b == b;
    } else {
      assert (a + b)[0] == a[0] && (a + b)[1..] == a[1..] + b;
      ExecAppend(Apply(s, a[0]), a[1..], b);
    }
  }

  lemma ExecOne(s: State, step: Step)
    requires Enabled(s, step) && Orderly(s, step)
    ensures CanRun(s, [step]) && Exec(s, [step]) == Apply(s, step)
  {
    assert [step][1..] == [];
  }

  lemma {:induction false} OrphanForever(s: State, steps: seq<Step>, t: Tag)
    requires Inv(s) && Orphaned(s, t) && CanRun(s, steps)
    ensures Orphaned(Exec(s, steps), t)
    decreases |steps|
  {
    hide Inv, Apply, Enabled, Orphaned;
    if steps != [] {
      OrphanStays(s, steps[0], t);
      StepInv(s, steps[0]);
      OrphanForever(Apply(s, steps[0]), steps[1..], t);
    }
  }

  /** Some continuation frees the slot. */
  ghost predicate CanBeFreed(s: State, t: Tag) {
    exists steps :: CanRun(s, steps) && t !in Exec(s, steps).slots
  }

  lemma FreedBy(s: State, t: Tag, steps: seq<Step>)
    requires CanRun(s, steps) && t !in Exec(s, steps).slots
    ensures CanBeFreed(s, t)
  {
  }

  /** Freed after more steps is freed. */
  lemma FreedAfter(s: State, t: Tag, steps: seq<Step>)
    requires CanRun(s, steps) && CanBeFreed(Exec(s, steps), t)
    ensures CanBeFreed(s, t)
  {
    var more :| CanRun(Exec(s, steps), more) && t !in Exec(Exec(s, steps), more).slots;
    ExecAppend(s, steps, more);
  }

  lemma FreedAfterOne(s: State, t: Tag, step: Step)
    requires Enabled(s, step) && Orderly(s, step) && CanBeFreed(Apply(s, step), t)
    ensures CanBeFreed(s, t)
  {
    hide Apply, Enabled, CanBeFreed;
    ExecOne(s, step);
    FreedAfter(s, t, [step]);
  }

  // ----- reading the queue -----

  lemma ReadIs(s: State)
    requires s.queue != []
    ensures Enabled(s, Read)
    ensures var s1 := Apply(s, Read);
            && s1.slots == s.slots && s1.callers == s.callers && s1.queue == s.queue[1..]
            && (s.queue[0].Request? ==> s.queue[0].tag in s1.owed)
            && (s.queue[0].RequestMmap? ==> s.queue[0].tag in s1.owedMmap)
            && (forall t :: t in s.owed ==> t in s1.owed) && (forall t :: t in s.owedMmap ==> t in s1.owedMmap)
  {
  }

  /** The scheme reads up to the `i`th message; nothing but the queue and what is owed changes. */
  lemma {:induction false} ReadTo(s: State, i: nat) returns (steps: seq<Step>)
    requires Inv(s) && i < |s.queue|
    ensures CanRun(s, steps) && Inv(Exec(s, steps))
    ensures var s1 := Exec(s, steps);
            && s1.slots == s.slots && s1.callers == s.callers
            && (s.queue[i].Request? ==> s.queue[i].tag in s1.owed)
            && (s.queue[i].RequestMmap? ==> s.queue[i].tag in s1.owedMmap)
            && (forall t :: t in s.owed ==> t in s1.owed) && (forall t :: t in s.owedMmap ==> t in s1.owedMmap)
    decreases i
  {
    hide Inv, Apply, Enabled;
    ReadIs(s);
    ExecOne(s, Read);
    StepInv(s, Read);
    var s1 := Apply(s, Read);
    if i == 0 {
      steps := [Read];
    } else {
      assert s1.queue[i - 1] == s.queue[i];
      var rest := ReadTo(s1, i - 1);
      steps := [Read] + rest;
      assert steps[1..] == rest;
    }
  }

  // ----- every slot that is not orphaned can be freed -----

  lemma FreedWhenOwed(s: State, t: Tag)
    requires Inv(s) && t in s.slots && s.slots[t].Waiting? && t in s.owed
    requires s.callers[s.slots[t].call].phase.Sleeping? || s.callers[s.slots[t].call].phase == Done(Killed)
    ensures CanBeFreed(s, t)
  {
    assert SlotOk(s, t);
    var k := s.slots[t].call;
    var a := Regular(0);
    if s.callers[k].phase.Sleeping? {
      var s1 := Apply(s, Respond(t, a, true));
      ExecOne(s1, TakeAnswer(k));
      FreedBy(s1, t, [TakeAnswer(k)]);
      FreedAfterOne(s, t, Respond(t, a, true));
    } else {
      ExecOne(s, Respond(t, a, false));
      FreedBy(s, t, [Respond(t, a, false)]);
    }
  }

  lemma FreedWhenSent(s: State, t: Tag)
    requires Inv(s) && t in s.slots && s.slots[t].Waiting? && s.slots[t].call in s.callers
    requires s.callers[s.slots[t].call].phase.Sleeping? || s.callers[s.slots[t].call].phase == Done(Killed)
    ensures CanBeFreed(s, t)
  {
    hide CanBeFreed, Slots, Callers, Owed, Queued, Cancels;
    if t in s.owed {
      FreedWhenOwed(s, t);
    } else {
      var i :| 0 <= i < |s.queue| && s.queue[i] == Request(t, s.slots[t].call);
      var steps := ReadTo(s, i);
      FreedWhenOwed(Exec(s, steps), t);
      FreedAfter(s, t, steps);
    }
  }

  lemma FreedWhenMmap(s: State, t: Tag)
    requires Inv(s) && t in s.slots && s.slots[t].Fmap?
    ensures CanBeFreed(s, t)
  {
    if t in s.owedMmap {
      ExecOne(s, ProvideMmap(t));
      FreedBy(s, t, [ProvideMmap(t)]);
    } else {
      var i :| 0 <= i < |s.queue| && s.queue[i] == RequestMmap(t, s.slots[t].call);
      var steps := ReadTo(s, i);
      hide Inv;
      var s1 := Exec(s, steps);
      ExecOne(s1, ProvideMmap(t));
      FreedBy(s1, t, [ProvideMmap(t)]);
      FreedAfter(s, t, steps);
    }
  }

  /** What the caller does next, until it sleeps. */
  function Onward(k: Call, p: Phase): Step
    requires p.Preparing? || p.Entered? || p.Cancelling?
  {
    match p
    case Preparing => Enter(k)
    case Entered => SendRequest(k)
    case Cancelling => SendCancel(k)
  }

  function Distance(p: Phase): nat {
    match p
    case Preparing => 3
    case Entered => 2
    case Cancelling => 1
    case _ => 0
  }

  lemma OnwardIs(s: State, t: Tag)
    requires Inv(s) && t in s.slots && s.slots[t].call in s.callers
    requires var p := s.callers[s.slots[t].call].phase; p.Preparing? || p.Entered? || p.Cancelling?
    ensures var k := s.slots[t].call;
            var step := Onward(k, s.callers[k].phase);
            && Enabled(s, step) && Orderly(s, step)
            && var s1 := Apply(s, step);
               t in s1.slots && s1.slots[t].call == k && k in s1.callers
               && !s1.callers[k].phase.Done? && Distance(s1.callers[k].phase) < Distance(s.callers[k].phase)
  {
    assert SlotOk(s, t);
  }

  lemma FreedWhenSleeping(s: State, t: Tag)
    requires Inv(s) && t in s.slots && s.slots[t].call in s.callers && s.callers[s.slots[t].call].phase.Sleeping?
    ensures CanBeFreed(s, t)
  {
    hide CanBeFreed, Callers, Owed, Queued, Cancels, Answerable;
    assert SlotOk(s, t);
    if s.slots[t].Waiting? {
      FreedWhenSent(s, t);
    } else {
      var step := TakeAnswer(s.slots[t].call);
      ExecOne(s, step);
      FreedBy(s, t, [step]);
    }
  }

  /** The slot of a call that has not returned, whatever the call is doing. */
  lemma {:induction false} FreedWhenRunning(s: State, t: Tag)
    requires Inv(s) && t in s.slots && s.slots[t].call in s.callers && !s.callers[s.slots[t].call].phase.Done?
    ensures CanBeFreed(s, t)
    decreases Distance(s.callers[s.slots[t].call].phase)
  {
    hide Inv, Apply, Enabled, CanBeFreed, Onward, Distance;
    var k := s.slots[t].call;
    if s.callers[k].phase.Sleeping? {
      FreedWhenSleeping(s, t);
    } else {
      OnwardIs(s, t);
      var step := Onward(k, s.callers[k].phase);
      StepInv(s, step);
      FreedWhenRunning(Apply(s, step), t);
      FreedAfterOne(s, t, step);
    }
  }

  /** A slot can still be given back exactly when it is not orphaned. */
  lemma FreedIff(s: State, t: Tag)
    requires Inv(s) && t in s.slots
    ensures CanBeFreed(s, t) <==> !Orphaned(s, t)
  {
    assert SlotOk(s, t);
    var k := s.slots[t].call;
    if Orphaned(s, t) {
      if CanBeFreed(s, t) {
        var steps :| CanRun(s, steps) && t !in Exec(s, steps).slots;
        OrphanForever(s, steps, t);
      }
    } else if !s.callers[k].phase.Done? {
      FreedWhenRunning(s, t);
    } else if s.slots[t].Fmap? {
      FreedWhenMmap(s, t);
    } else {
      FreedWhenSent(s, t);
    }
  }

  /** Over runs: of the slots in use at any moment, exactly the orphaned ones are lost. */
  lemma SlotsAreGivenBack(states: seq<State>, steps: seq<Step>, i: nat, t: Tag)
    requires IsRun(states, steps) && i < |states| && t in states[i].slots
    ensures CanBeFreed(states[i], t) <==> !Orphaned(states[i], t)
  {
    hide Inv, CanBeFreed, Orphaned;
    RunInv(states, steps, i);
    FreedIff(states[i], t);
  }

  // ----- the two ways to lose one -----

  /** The run of a call that finds the scheme unmounting, after it has taken a tag. */
  function UnmountingRun(): (seq<State>, seq<Step>) {
    var s1 := Apply(EMPTY_STATE, NextId(0, 0, false));
    var s2 := Apply(s1, Unmounted(0));
    ([EMPTY_STATE, s1, s2], [NextId(0, 0, false), Unmounted(0)])
  }

  /** Not every slot is given back: a call that finds the scheme unmounting leaves its own behind. */
  lemma UnmountingLeaksSlot()
    ensures var (states, steps) := UnmountingRun();
            && IsRun(states, steps) && states[2].callers[0].phase == Done(NoDevice) && states[2].slots == map[0 := Placeholder(0)]
            && Orphaned(states[2], 0)
  {
  }

  /** Call 0 sleeps and its request is in the queue. */
  const SLEEPING_STATE: State :=
    State(map[0 := Waiting(0, false, false)], [Request(0, 0)], map[], map[], map[0 := Caller(0, Sleeping, false, false, false)],
          map[], multiset{}, {})

  /** The run of a call that is killed and then answered while its context is still there. */
  function KilledRun(): (seq<State>, seq<Step>) {
    var s1 := Apply(EMPTY_STATE, NextId(0, 0, false));
    var s2 := Apply(s1, Enter(0));
    var s4 := Apply(SLEEPING_STATE, WakeKilled(0));
    var s5 := Apply(s4, Read);
    var s6 := Apply(s5, Respond(0, Regular(0), true));
    ([EMPTY_STATE, s1, s2, SLEEPING_STATE, s4, s5, s6],
     [NextId(0, 0, false), Enter(0), SendRequest(0), WakeKilled(0), Read, Respond(0, Regular(0), true)])
  }

  lemma FirstEnabled()
    ensures Enabled(EMPTY_STATE, NextId(0, 0, false)) && Enabled(SLEEPING_STATE, WakeKilled(0))
  {
  }

  lemma CallSleeps()
    ensures var s1 := Apply(EMPTY_STATE, NextId(0, 0, false));
            && Enabled(s1, Enter(0))
            && var s2 := Apply(s1, Enter(0));
               Enabled(s2, SendRequest(0)) && Apply(s2, SendRequest(0)) == SLEEPING_STATE
  {
  }

  lemma KilledThenAnswered()
    ensures var s4 := Apply(SLEEPING_STATE, WakeKilled(0));
            && Enabled(s4, Read)
            && var s5 := Apply(s4, Read);
               && Enabled(s5, Respond(0, Regular(0), true)) && 0 in s5.owed
               && var s6 := Apply(s5, Respond(0, Regular(0), true));
                  0 in s6.callers && s6.callers[0].phase == Done(Killed) && s6.slots == map[0 := Responded(0, Regular(0))]
  {
  }

  /** Nor does a killed call get its slot back when the scheme answers before its context is gone. */
  lemma KilledLeaksSlot()
    ensures var (states, steps) := KilledRun();
            && IsRun(states, steps) && states[6].callers[0].phase == Done(Killed)
            && states[6].slots == map[0 := Responded(0, Regular(0))] && Orphaned(states[6], 0)
  {
    hide Apply, Enabled;
    FirstEnabled();
    CallSleeps();
    KilledThenAnswered();
  }
}
