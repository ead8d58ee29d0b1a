/**
 Who unmaps the captured pages of a call (src/scheme/user.rs), whatever the scheme does: it may answer
 any tag at any time, once, often or never.
 */
module SchemeSpans {
  import opened Common
  import opened SchemeCalls
  import opened SchemeProofs

  function Bool(b: bool): nat {
    if b then 1 else 0
  }

  predicate HeldBySlot(s: State, k: Call)
    requires k in s.callers
  {
    var t := s.callers[k].tag;
    t in s.slots && s.slots[t].Waiting? && s.slots[t].call == k && s.slots[t].callee
  }

  /** The captured span has one owner, the caller's guard or the slot, until it is unmapped once or
      lost for good. */
  ghost predicate SpanOk(s: State, k: Call)
    requires k in s.callers
  {
    Bool(s.callers[k].guard) + Bool(HeldBySlot(s, k)) + s.unmapped[k] + Bool(k in s.lost) == Bool(s.callers[k].captured)
  }

  ghost predicate SlotHolds(s: State, t: Tag)
    requires t in s.slots
  {
    var x := s.slots[t];
    && x.call in s.callers && s.callers[x.call].tag == t
    && (x.Waiting? && x.callee ==> s.callers[x.call].phase == Done(Killed))
    && (x.Fmap? ==> s.callers[x.call].phase.Done?)
  }

  /** A call that has not returned has its slot. */
  ghost predicate CallerHolds(s: State, k: Call)
    requires k in s.callers
  {
    var c := s.callers[k];
    !c.phase.Done? ==>
      && c.tag in s.slots && s.slots[c.tag].call == k
      && (if c.phase.Preparing? then s.slots[c.tag].Placeholder? else s.slots[c.tag].Waiting? || s.slots[c.tag].Responded?)
  }

  ghost predicate SpanInv(s: State) {
    && (forall t :: t in s.slots ==> SlotHolds(s, t))
    && (forall k :: k in s.callers ==> CallerHolds(s, k) && SpanOk(s, k))
    && (forall k: Call :: k !in s.callers ==> s.unmapped[k] == 0 && k !in s.lost)
  }

  // ----- steps of a caller -----

  predicate OfCaller(step: Step) {
    !step.Read? && !step.Respond? && !step.ProvideMmap?
  }

  lemma UnmappedFrame(s: State, step: Step, k: Call)
    requires Enabled(s, step) && OfCaller(step) && k != step.k
    ensures Apply(s, step).unmapped[k] == s.unmapped[k] && (k in Apply(s, step).lost <==> k in s.lost)
  {
  }

  /** The slot that the step may change. */
  lemma OwnSlotHolds(s: State, step: Step)
    requires Enabled(s, step) && OfCaller(step)
    requires step.k in s.callers ==> CallerHolds(s, step.k)
    requires TagOf(s, step) in s.slots ==> SlotHolds(s, TagOf(s, step))
    ensures TagOf(s, step) in Apply(s, step).slots ==> SlotHolds(Apply(s, step), TagOf(s, step))
  {
  }

  lemma OwnCallerHolds(s: State, step: Step)
    requires Enabled(s, step) && OfCaller(step)
    requires step.k in s.callers ==> CallerHolds(s, step.k)
    ensures step.k in Apply(s, step).callers && CallerHolds(Apply(s, step), step.k)
  {
  }

  lemma OwnSpanOk(s: State, step: Step)
    requires Enabled(s, step) && OfCaller(step)
    requires if step.k in s.callers then CallerHolds(s, step.k) && SpanOk(s, step.k) else s.unmapped[step.k] == 0 && step.k !in s.lost
    requires TagOf(s, step) in s.slots ==> SlotHolds(s, TagOf(s, step))
    ensures step.k in Apply(s, step).callers && SpanOk(Apply(s, step), step.k)
  {
  }

  lemma CallerStepSlotHolds(s: State, step: Step, t: Tag)
    requires SpanInv(s) && Enabled(s, step) && OfCaller(step) && t in Apply(s, step).slots
    ensures SlotHolds(Apply(s, step), t)
  {
    hide Enabled, Apply, SpanOk;
    if t == TagOf(s, step) {
      hide CallerHolds, SlotHolds;
      OwnSlotHolds(s, step);
    } else {
      CallerStepFrame(s, step);
      assert SlotHolds(s, t);
    }
  }

  lemma OtherSpan(s: State, step: Step, k: Call)
    requires SpanInv(s) && Enabled(s, step) && OfCaller(step) && k in s.callers && k != step.k
    ensures k in Apply(s, step).callers && CallerHolds(Apply(s, step), k) && SpanOk(Apply(s, step), k)
  {
    assert CallerHolds(s, k) && SpanOk(s, k);
    assert step.k in s.callers ==> CallerHolds(s, step.k);
    hide Enabled, Apply, SpanInv;
    CallerStepFrame(s, step);
    UnmappedFrame(s, step, k);
  }

  lemma CallerStepSpanInv(s: State, step: Step)
    requires SpanInv(s) && Enabled(s, step) && OfCaller(step)
    ensures SpanInv(Apply(s, step))
  {
    hide Enabled, Apply, SpanOk, CallerHolds, SlotHolds;
    var s1 := Apply(s, step);
    forall t | t in s1.slots
      ensures SlotHolds(s1, t)
    {
      CallerStepSlotHolds(s, step, t);
    }
    CallerStepFrame(s, step);
    OwnCallerHolds(s, step);
    OwnSpanOk(s, step);
    forall k: Call
      ensures k in s1.callers ==> CallerHolds(s1, k) && SpanOk(s1, k)
      ensures k !in s1.callers ==> s1.unmapped[k] == 0 && k !in s1.lost
    {
      if k != step.k {
        UnmappedFrame(s, step, k);
        if k in s.callers {
          OtherSpan(s, step, k);
        }
      }
    }
  }

  // ----- steps of the scheme -----

  lemma RespondHolds(s: State, t: Tag, a: Answer, alive: bool, u: Tag)
    requires Enabled(s, Respond(t, a, alive)) && u in Apply(s, Respond(t, a, alive)).slots
    requires u in s.slots ==> SlotHolds(s, u)
    ensures SlotHolds(Apply(s, Respond(t, a, alive)), u)
  {
  }

  lemma RespondSpan(s: State, t: Tag, a: Answer, alive: bool, k: Call)
    requires Enabled(s, Respond(t, a, alive)) && k in s.callers && CallerHolds(s, k) && SpanOk(s, k)
    requires t in s.slots ==> SlotHolds(s, t)
    ensures var s1 := Apply(s, Respond(t, a, alive));
            k in s1.callers && CallerHolds(s1, k) && SpanOk(s1, k)
  {
  }

  lemma RespondFrame(s: State, t: Tag, a: Answer, alive: bool, k: Call)
    requires Enabled(s, Respond(t, a, alive)) && k !in s.callers && (t in s.slots ==> SlotHolds(s, t))
    ensures var s1 := Apply(s, Respond(t, a, alive));
            k !in s1.callers && s1.unmapped[k] == s.unmapped[k] && s1.lost == s.lost
  {
  }

  lemma RespondSpanInv(s: State, t: Tag, a: Answer, alive: bool)
    requires SpanInv(s) && Enabled(s, Respond(t, a, alive))
    ensures SpanInv(Apply(s, Respond(t, a, alive)))
  {
    hide Enabled, Apply, SpanOk, CallerHolds, SlotHolds;
    var s1 := Apply(s, Respond(t, a, alive));
    forall u | u in s1.slots
      ensures SlotHolds(s1, u)
    {
      RespondHolds(s, t, a, alive, u);
    }
    forall k: Call
      ensures k in s1.callers ==> CallerHolds(s1, k) && SpanOk(s1, k)
      ensures k !in s1.callers ==> s1.unmapped[k] == 0 && k !in s1.lost
    {
      if k in s.callers {
        RespondSpan(s, t, a, alive, k);
      } else {
        RespondFrame(s, t, a, alive, k);
      }
    }
  }

  lemma QuietSpanInv(s: State, step: Step)
    requires SpanInv(s) && Enabled(s, step) && (step.Read? || step.ProvideMmap?)
    ensures SpanInv(Apply(s, step))
  {
    hide Apply, Enabled;
    QuietFrame(s, step);
    assert forall t :: t in s.slots && s.slots[t].Fmap? ==> SlotHolds(s, t);
  }

  /** At most a slot of state Fmap goes. */
  lemma QuietFrame(s: State, step: Step)
    requires Enabled(s, step) && (step.Read? || step.ProvideMmap?)
    ensures var s1 := Apply(s, step);
            && s1.callers == s.callers && s1.unmapped == s.unmapped && s1.lost == s.lost
            && (forall t :: t in s1.slots ==> t in s.slots && s1.slots[t] == s.slots[t])
            && (forall t :: t in s.slots && t !in s1.slots ==> s.slots[t].Fmap?)
  {
  }

  /** Every step keeps it, with any scheme. */
  lemma StepSpanInv(s: State, step: Step)
    requires SpanInv(s) && Enabled(s, step)
    ensures SpanInv(Apply(s, step))
  {
    hide SpanInv, Enabled, Apply;
    match step
    case Respond(t, a, alive) => RespondSpanInv(s, t, a, alive);
    case Read => QuietSpanInv(s, step);
    case ProvideMmap(_) => QuietSpanInv(s, step);
    case _ => CallerStepSpanInv(s, step);
  }

  // ----- whole runs -----

  lemma {:induction false} RunSpanInv(states: seq<State>, steps: seq<Step>, i: nat)
    requires IsAnyRun(states, steps) && i < |states|
    ensures SpanInv(states[i])
  {
    hide Enabled, Apply;
    if i > 0 {
      hide SpanInv;
      RunSpanInv(states, steps, i - 1);
      StepSpanInv(states[i - 1], steps[i - 1]);
    }
  }

  /** The captured pages are in exactly one of four conditions at every moment: with the guard, with
      the slot of a killed call, unmapped, once, or lost. */
  lemma SpanHasOneOwner(states: seq<State>, steps: seq<Step>, i: nat, k: Call)
    requires IsAnyRun(states, steps) && i < |states| && k in states[i].callers
    ensures var s := states[i];
            && s.unmapped[k] <= 1
            && Bool(s.callers[k].guard) + Bool(HeldBySlot(s, k)) + Bool(s.unmapped[k] == 1) + Bool(k in s.lost) == Bool(s.callers[k].captured)
            && (HeldBySlot(s, k) ==> s.callers[k].phase == Done(Killed))
  {
    RunSpanInv(states, steps, i);
    var s := states[i];
    assert SpanOk(s, k);
    if HeldBySlot(s, k) {
      assert SlotHolds(s, s.callers[k].tag);
    }
  }

  /** A release of call `k` among the first `i` steps failed to copy back. */
  ghost predicate CopyFailed(steps: seq<Step>, i: nat, k: Call)
    requires i <= |steps|
  {
    exists j | 0 <= j < i :: steps[j] == Release(k, false)
  }

  lemma LostAfter(s: State, step: Step, k: Call)
    requires Enabled(s, step)
    ensures k in Apply(s, step).lost <==> k in s.lost || step == Release(k, false)
  {
  }

  lemma CallerStays(s: State, step: Step, k: Call)
    requires Enabled(s, step) && k in s.callers
    ensures k in Apply(s, step).callers
  {
  }

  lemma {:induction false} LostIff(states: seq<State>, steps: seq<Step>, i: nat, k: Call)
    requires IsAnyRun(states, steps) && i < |states|
    ensures k in states[i].lost <==> CopyFailed(steps, i, k)
  {
    hide Enabled, Apply;
    if i > 0 {
      LostIff(states, steps, i - 1, k);
      LostAfter(states[i - 1], steps[i - 1], k);
    }
  }

  /** Captured pages are left mapped with no owner exactly when a release of their call failed to copy
      back to the caller's buffer. */
  lemma UnownedIffCopyFailed(states: seq<State>, steps: seq<Step>, i: nat, k: Call)
    requires IsAnyRun(states, steps) && i < |states| && k in states[i].callers
    ensures var s := states[i];
            s.callers[k].captured && s.unmapped[k] == 0 && !s.callers[k].guard && !HeldBySlot(s, k) <==> CopyFailed(steps, i, k)
  {
    hide CopyFailed;
    SpanHasOneOwner(states, steps, i, k);
    LostIff(states, steps, i, k);
  }

  /** And they stay so: nothing unmaps them later. */
  lemma {:induction false} LostForever(states: seq<State>, steps: seq<Step>, i: nat, j: nat, k: Call)
    requires IsAnyRun(states, steps) && i <= j < |states| && k in states[i].callers && CopyFailed(steps, i, k)
    ensures var s := states[j];
            k in s.callers && s.callers[k].captured && s.unmapped[k] == 0 && !s.callers[k].guard && !HeldBySlot(s, k)
    decreases j
  {
    hide Enabled, Apply;
    if j == i {
      UnownedIffCopyFailed(states, steps, i, k);
    } else {
      LostForever(states, steps, i, j - 1, k);
      CallerStays(states[j - 1], steps[j - 1], k);
      UnownedIffCopyFailed(states, steps, j, k);
    }
  }

  // ----- the scheme keeps the pages until it has answered -----

  /** The guard keeps the span while the call runs, and the slot of a killed call while it waits. */
  ghost predicate Keeps(s: State, k: Call)
    requires k in s.callers
  {
    var c := s.callers[k];
    && (!c.phase.Done? ==> c.guard == c.captured)
    && (c.phase == Done(Killed) && c.captured && c.tag in s.slots && s.slots[c.tag].Waiting? && s.slots[c.tag].call == k ==> s.slots[c.tag].callee)
  }

  lemma OwnKeeps(s: State, step: Step)
    requires Enabled(s, step) && OfCaller(step)
    requires step.k in s.callers ==> CallerHolds(s, step.k) && Keeps(s, step.k)
    ensures step.k in Apply(s, step).callers && Keeps(Apply(s, step), step.k)
  {
  }

  lemma OtherKeeps(s: State, step: Step, k: Call)
    requires Enabled(s, step) && OfCaller(step) && k in s.callers && k != step.k && Keeps(s, k)
    requires step.k in s.callers ==> CallerHolds(s, step.k)
    ensures k in Apply(s, step).callers && Keeps(Apply(s, step), k)
  {
    hide Enabled, Apply;
    CallerStepFrame(s, step);
    if !step.NextId? {
      OwnSlotIsOwn(s, step);
    } else {
      NewSlotIsOwn(s, step);
    }
  }

  /** After the step of a caller, the slot at its tag is its own, or is as before. */
  lemma OwnSlotIsOwn(s: State, step: Step)
    requires Enabled(s, step) && OfCaller(step) && !step.NextId? && CallerHolds(s, step.k)
    ensures var t := TagOf(s, step);
            t in Apply(s, step).slots ==> (t in s.slots && Apply(s, step).slots[t] == s.slots[t]) || Apply(s, step).slots[t].call == step.k
  {
  }

  lemma NewSlotIsOwn(s: State, step: Step)
    requires Enabled(s, step) && step.NextId?
    ensures TagOf(s, step) in Apply(s, step).slots && Apply(s, step).slots[TagOf(s, step)].call == step.k
  {
  }

  lemma SchemeKeeps(s: State, step: Step, k: Call)
    requires Enabled(s, step) && !OfCaller(step) && k in s.callers && Keeps(s, k)
    ensures k in Apply(s, step).callers && Keeps(Apply(s, step), k)
  {
  }

  lemma CallersKnown(s: State, step: Step, k: Call)
    requires Enabled(s, step) && k in Apply(s, step).callers && (!OfCaller(step) || k != step.k)
    ensures k in s.callers
  {
  }

  lemma {:induction false} RunKeeps(states: seq<State>, steps: seq<Step>, i: nat, k: Call)
    requires IsAnyRun(states, steps) && i < |states| && k in states[i].callers
    ensures Keeps(states[i], k)
    decreases i
  {
    hide Enabled, Apply, Keeps, SpanInv, CallerHolds, SlotHolds;
    if i > 0 {
      var s, step := states[i - 1], steps[i - 1];
      RunSpanInv(states, steps, i - 1);
      HoldsAt(s, step, 0);
      if OfCaller(step) && k == step.k {
        if k in s.callers {
          RunKeeps(states, steps, i - 1, k);
        }
        OwnKeeps(s, step);
      } else {
        CallersKnown(s, step, k);
        RunKeeps(states, steps, i - 1, k);
        if OfCaller(step) {
          OtherKeeps(s, step, k);
        } else {
          SchemeKeeps(s, step, k);
        }
      }
    }
  }

  /** As long as a call waits for its answer, even a killed one, its pages stay mapped in the scheme. */
  lemma MappedUntilAnswered(states: seq<State>, steps: seq<Step>, i: nat, t: Tag)
    requires IsAnyRun(states, steps) && i < |states| && t in states[i].slots && states[i].slots[t].Waiting?
    ensures var k := states[i].slots[t].call; k in states[i].callers && states[i].unmapped[k] == 0 && k !in states[i].lost
  {
    hide Enabled, Apply;
    RunSpanInv(states, steps, i);
    var s, k := states[i], states[i].slots[t].call;
    assert SlotHolds(s, t);
    RunKeeps(states, steps, i, k);
    assert CallerHolds(s, k) && SpanOk(s, k);
    WaitingPhase(states, steps, i, t);
  }

  /** Only a call that runs or was killed has a waiting slot. */
  ghost predicate WaitsOk(s: State, t: Tag)
    requires t in s.slots
  {
    s.slots[t].Waiting? && s.slots[t].call in s.callers && s.callers[s.slots[t].call].phase.Done? ==>
      s.callers[s.slots[t].call].phase == Done(Killed)
  }

  lemma WaitsStep(s: State, step: Step, t: Tag)
    requires Enabled(s, step) && t in Apply(s, step).slots && (t in s.slots ==> WaitsOk(s, t) && SlotHolds(s, t))
    requires OfCaller(step) && step.k in s.callers ==> CallerHolds(s, step.k)
    ensures WaitsOk(Apply(s, step), t)
  {
  }

  lemma HoldsAt(s: State, step: Step, t: Tag)
    requires SpanInv(s)
    ensures t in s.slots ==> SlotHolds(s, t)
    ensures OfCaller(step) && step.k in s.callers ==> CallerHolds(s, step.k)
  {
  }

  lemma {:induction false} WaitingPhase(states: seq<State>, steps: seq<Step>, i: nat, t: Tag)
    requires IsAnyRun(states, steps) && i < |states| && t in states[i].slots
    ensures WaitsOk(states[i], t)
    decreases i
  {
    hide Enabled, Apply, WaitsOk, SlotHolds, CallerHolds, SpanInv;
    if i > 0 {
      var s, step := states[i - 1], steps[i - 1];
      RunSpanInv(states, steps, i - 1);
      HoldsAt(s, step, t);
      if t in s.slots {
        WaitingPhase(states, steps, i - 1, t);
      }
      WaitsStep(s, step, t);
    }
  }

  // ----- a run that loses a span -----

  /** Call 0 has captured pages, has its answer and has returned. */
  const ANSWERED_STATE: State :=
    State(map[], [], map[], map[], map[0 := Caller(0, Done(Answered(Regular(0))), false, true, true)],
          map[0 := Regular(0)], multiset{}, {})

  const ASKED_STATE: State :=
    State(map[0 := Waiting(0, false, false)], [Request(0, 0)], map[], map[], map[0 := Caller(0, Sleeping, false, true, true)],
          map[], multiset{}, {})

  /** A call with captured pages is answered in order; its release cannot copy back. */
  function CopyFailsRun(): (seq<State>, seq<Step>) {
    var s1 := Apply(EMPTY_STATE, NextId(0, 0, true));
    var s2 := Apply(s1, Enter(0));
    var s4 := Apply(ASKED_STATE, Read);
    var s5 := Apply(s4, Respond(0, Regular(0), true));
    var s7 := Apply(ANSWERED_STATE, Release(0, false));
    ([EMPTY_STATE, s1, s2, ASKED_STATE, s4, s5, ANSWERED_STATE, s7],
     [NextId(0, 0, true), Enter(0), SendRequest(0), Read, Respond(0, Regular(0), true), TakeAnswer(0), Release(0, false)])
  }

  lemma CaptureAndAsk()
    ensures Enabled(EMPTY_STATE, NextId(0, 0, true))
    ensures var s1 := Apply(EMPTY_STATE, NextId(0, 0, true));
            && Enabled(s1, Enter(0))
            && var s2 := Apply(s1, Enter(0));
               Enabled(s2, SendRequest(0)) && Apply(s2, SendRequest(0)) == ASKED_STATE
  {
  }

  lemma AnswerAndTake()
    ensures Enabled(ASKED_STATE, Read)
    ensures var s4 := Apply(ASKED_STATE, Read);
            && Enabled(s4, Respond(0, Regular(0), true)) && 0 in s4.owed
            && var s5 := Apply(s4, Respond(0, Regular(0), true));
               Enabled(s5, TakeAnswer(0)) && Apply(s5, TakeAnswer(0)) == ANSWERED_STATE
  {
  }

  lemma ReleaseFails()
    ensures Enabled(ANSWERED_STATE, Release(0, false))
    ensures var s7 := Apply(ANSWERED_STATE, Release(0, false));
            s7.slots == map[] && 0 in s7.callers && s7.callers[0].captured && !s7.callers[0].guard && s7.unmapped[0] == 0
  {
  }

  /** Not every captured span is unmapped, even with an orderly scheme. */
  lemma CopyBackLosesSpan()
    ensures var (states, steps) := CopyFailsRun();
            && IsRun(states, steps)
            && var s := states[7];
               0 in s.callers && s.callers[0].captured && s.unmapped[0] == 0 && !s.callers[0].guard && !HeldBySlot(s, 0)
  {
    hide Apply, Enabled;
    CaptureAndAsk();
    AnswerAndTake();
    ReleaseFails();
  }
}
