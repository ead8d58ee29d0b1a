/**
 CPUs that flush address spaces at one another never deadlock: unless everything is quiet, some CPU
 can go on with what it has begun, and every such step brings the end nearer.
 */
module ShootdownProgress {
  import opened Common
  import opened ShootdownModel
  import opened ShootdownInvariant
  import opened ShootdownSteps
  import opened ShootdownRuns

  /** Steps that begin something, and what the hardware does by itself. */
  predicate NewWork(step: Step) {
    step.Fill? || step.StartRead? || step.StartWrite? || step.StartSwitch? || step.MapEntry? || step.UnmapEntry?
  }

  predicate Quiet(s: State) {
    forall c | 0 <= c < |s.cpus| :: s.cpus[c].pc.Idle? && !Busy(s.cpus[c])
  }

  // ----- the measure -----

  /** The steps one flush may still cost among `n` CPUs. */
  function FlushCost(n: nat): nat {
    4 * n + 3
  }

  function PcWeight(pc: Pc, n: nat): nat {
    match pc
    case Idle => 0
    case WantRead(_) => 2
    case Reading(_) => 1
    case WantWrite(_) => 2
    case Locked(_, queue, dirty) => 1 + (if queue == {} then 0 else FlushCost(n)) + (if dirty then FlushCost(n) else 0)
    case Sending(_, _, dirty, todo, _) => 3 + 4 * |todo| + (if dirty then FlushCost(n) else 0)
    case Waiting(_, _, dirty, _) => 2 + (if dirty then FlushCost(n) else 0)
    case Leaving(_, _) => 8
    case LeaveHeld(_, _) => 7
    case Left(_, _) => 6
    case Between(_) => 5
    case Entering(_) => 4
    case EnterHeld(_) => 3
    case Entered(_) => 2
    case Loaded(_) => 1
  }

  function Weight(x: CpuState, n: nat): nat {
    PcWeight(x.pc, n) + (if x.wants then 3 else 0) + (match x.handler case NoRequest => 0 case Taken => 2 case Invalidated => 1)
  }

  function Total(cpus: seq<CpuState>, n: nat): nat {
    if cpus == [] then 0 else Total(cpus[..|cpus| - 1], n) + Weight(cpus[|cpus| - 1], n)
  }

  function Measure(s: State): nat {
    Total(s.cpus, |s.cpus|)
  }

  lemma {:induction false} TotalUpdate(cpus: seq<CpuState>, c: nat, x: CpuState, n: nat)
    requires c < |cpus|
    ensures Total(cpus[c := x], n) == Total(cpus, n) - Weight(cpus[c], n) + Weight(x, n)
    decreases |cpus|
  {
    hide Weight;
    var last := |cpus| - 1;
    if c < last {
      TotalUpdate(cpus[..last], c, x, n);
      assert cpus[c := x][..last] == cpus[..last][c := x];
    } else {
      assert cpus[c := x][..last] == cpus[..last];
    }
  }

  lemma {:induction false} SmallSet(x: set<nat>, n: nat)
    requires forall c :: c in x ==> c < n
    ensures |x| <= n
    decreases n
  {
    if n == 0 {
      assert x == {};
    } else {
      SmallSet(x - {n - 1}, n - 1);
      assert x - {n - 1} == x || x == (x - {n - 1}) + {n - 1};
    }
  }

  /** The stepping CPU gets lighter. */
  lemma OwnLighter(s: State, step: Step)
    requires Enabled(s, step) && !NewWork(step) && !step.Send?
    requires step.StartFlush? ==> |s.spaces[s.cpus[step.c].pc.a].usedBy - {step.c}| <= |s.cpus|
    ensures |Apply(s, step).cpus| == |s.cpus|
    ensures Weight(Apply(s, step).cpus[step.c], |s.cpus|) < Weight(s.cpus[step.c], |s.cpus|)
    ensures Apply(s, step).cpus == s.cpus[step.c := Apply(s, step).cpus[step.c]]
  {
  }

  lemma SendLighter(s: State, c: Cpu, t: Cpu)
    requires Enabled(s, Send(c, t)) && t != c
    ensures |Apply(s, Send(c, t)).cpus| == |s.cpus|
    ensures Measure(Apply(s, Send(c, t))) < Measure(s)
  {
    var n := |s.cpus|;
    var x, y := s.cpus[c], s.cpus[t];
    var y1 := y.(wants := true);
    var x1 := x.(pc := Sending(x.pc.a, x.pc.queue, x.pc.dirty, x.pc.todo - {t}, x.pc.sent + {t}));
    assert Apply(s, Send(c, t)).cpus == s.cpus[t := y1][c := x1];
    TotalUpdate(s.cpus, t, y1, n);
    TotalUpdate(s.cpus[t := y1], c, x1, n);
    assert |x.pc.todo - {t}| == |x.pc.todo| - 1;
  }

  /** Every step that is not new work makes the measure smaller. */
  lemma StepDecreases(s: State, step: Step)
    requires Inv(s) && Enabled(s, step) && !NewWork(step)
    ensures Measure(Apply(s, step)) < Measure(s)
  {
    hide Inv, Apply, Weight, Measure;
    if step.Send? {
      SendLighter(s, step.c, step.target);
    } else {
      if step.StartFlush? {
        FlushTargets(s, step.c);
      }
      OwnLighter(s, step);
      MeasureAt(s, step.c, Apply(s, step));
    }
  }

  lemma MeasureAt(s: State, c: Cpu, s1: State)
    requires c < |s.cpus| == |s1.cpus| && s1.cpus == s.cpus[c := s1.cpus[c]]
    ensures Measure(s1) == Measure(s) - Weight(s.cpus[c], |s.cpus|) + Weight(s1.cpus[c], |s.cpus|)
  {
    TotalUpdate(s.cpus, c, s1.cpus[c], |s.cpus|);
  }

  lemma FlushTargets(s: State, c: Cpu)
    requires Inv(s) && Enabled(s, StartFlush(c))
    ensures |s.spaces[s.cpus[c].pc.a].usedBy - {c}| <= |s.cpus|
  {
    var a := s.cpus[c].pc.a;
    assert LockOk(s, a);
    SmallSet(s.spaces[a].usedBy - {c}, |s.cpus|);
  }

  // ----- no deadlock -----

  /** A CPU inside the handler, or at a point that is no wait loop, can take its next step. */
  lemma Unblocked(s: State, c: Cpu) returns (step: Step)
    requires Inv(s) && c < |s.cpus|
    requires !s.cpus[c].handler.NoRequest? || !Services(s.cpus[c].pc)
    ensures Enabled(s, step) && !NewWork(step)
  {
    hide Inv;
    FreshAt(s, c);
    var x := s.cpus[c];
    if x.handler.Taken? {
      step := Invalidate(c);
    } else if x.handler.Invalidated? {
      step := Acknowledge(c);
    } else {
      match x.pc
      case Reading(_) => step := ReleaseRead(c);
      case Locked(_, queue, dirty) => step := if queue != {} || dirty then StartFlush(c) else ReleaseWrite(c);
      case Sending(_, _, _, todo, _) =>
        if t :| t in todo {
          TargetIsIdle(s, c, t);
          step := Send(c, t);
        } else {
          step := FlushOwn(c);
        }
      case LeaveHeld(_, _) => step := ClearUsed(c);
      case Left(_, _) => step := ReleaseLeave(c);
      case Between(_) => step := SetCurrent(c);
      case EnterHeld(_) => step := SetUsed(c);
      case Entered(_) => step := LoadTable(c);
      case Loaded(_) => step := ReleaseEnter(c);
    }
  }

  /** Every CPU is idle or in a wait loop, outside its handler. */
  predicate AllWait(s: State) {
    forall c | 0 <= c < |s.cpus| :: s.cpus[c].handler.NoRequest? && Services(s.cpus[c].pc)
  }

  /** If all wait, a CPU with a request can serve it. */
  lemma CanServe(s: State, t: Cpu) returns (step: Step)
    requires Inv(s) && AllWait(s) && t < |s.cpus| && Busy(s.cpus[t])
    ensures Enabled(s, step) && !NewWork(step)
  {
    hide Inv;
    step := Take(t);
  }

  /** If all wait and one waits for acknowledgements, they are in or a target can serve. */
  lemma FlushGoesOn(s: State, w: Cpu) returns (step: Step)
    requires Inv(s) && AllWait(s) && w < |s.cpus| && s.cpus[w].pc.Waiting?
    ensures Enabled(s, step) && !NewWork(step)
  {
    hide Inv, TargetsOk;
    var a := FlushFacts(s, w);
    var sent := s.cpus[w].pc.sent;
    TargetsExist(s, w);
    if t :| t in sent && Busy(s.cpus[t]) {
      step := CanServe(s, t);
    } else {
      assert Finished(s, sent) == sent;
      step := Free(w);
    }
  }

  /** If all wait and none flushes, every lock is free. */
  lemma LocksAreFree(s: State, a: Space)
    requires Inv(s) && AllWait(s) && a < |s.spaces| && (forall c | 0 <= c < |s.cpus| :: !s.cpus[c].pc.Waiting?)
    ensures CanRead(s, a) && CanWrite(s, a)
  {
    hide Freshness, Flushes, Requests, Cpus;
    assert LockOk(s, a);
    assert forall c | 0 <= c < |s.cpus| :: PairOk(s, c, a);
    assert forall c :: c in s.spaces[a].readers ==> !PairOk(s, c, a);
    assert s.spaces[a].writer.Some? ==> !PairOk(s, s.spaces[a].writer.value, a);
    assert s.spaces[a].readers == {};
  }

  lemma WaiterGoesOn(s: State, c: Cpu) returns (step: Step)
    requires Inv(s) && AllWait(s) && (forall d | 0 <= d < |s.cpus| :: !s.cpus[d].pc.Waiting?)
    requires c < |s.cpus| && !s.cpus[c].pc.Idle?
    ensures Enabled(s, step) && !NewWork(step)
  {
    hide Inv;
    FreshAt(s, c);
    LocksAreFree(s, s.cpus[c].pc.a);
    match s.cpus[c].pc
    case WantRead(_) => step := AcquireRead(c);
    case WantWrite(_) => step := AcquireWrite(c);
    case Leaving(_, _) => step := AcquireLeave(c);
    case Entering(_) => step := AcquireEnter(c);
  }

  /** Unless everything is quiet, some CPU can go on with what it has begun. */
  lemma NeverStuck(s: State) returns (step: Step)
    requires Inv(s) && !Quiet(s)
    ensures Enabled(s, step) && !NewWork(step)
  {
    hide Inv, Enabled;
    if !AllWait(s) {
      var c :| 0 <= c < |s.cpus| && !(s.cpus[c].handler.NoRequest? && Services(s.cpus[c].pc));
      step := Unblocked(s, c);
    } else if w :| 0 <= w < |s.cpus| && s.cpus[w].pc.Waiting? {
      step := FlushGoesOn(s, w);
    } else {
      var c :| 0 <= c < |s.cpus| && !(s.cpus[c].pc.Idle? && !Busy(s.cpus[c]));
      if Busy(s.cpus[c]) {
        step := CanServe(s, c);
      } else {
        step := WaiterGoesOn(s, c);
      }
    }
  }

  // ----- runs without new work -----

  ghost predicate IsDrain(states: seq<State>, steps: seq<Step>) {
    && |states| == |steps| + 1
    && (forall i | 0 <= i < |steps| ::
          Enabled(states[i], steps[i]) && !NewWork(steps[i]) && Apply(states[i], steps[i]) == states[i + 1])
  }

  /** However the CPUs are interleaved, without new work there are only so many steps left. */
  lemma {:induction false} DrainIsBounded(states: seq<State>, steps: seq<Step>)
    requires IsDrain(states, steps) && Inv(states[0])
    ensures Inv(states[|steps|]) && |steps| + Measure(states[|steps|]) <= Measure(states[0])
    decreases |steps|
  {
    hide Inv, Measure, Enabled, Apply;
    if steps != [] {
      var n := |steps| - 1;
      DrainIsBounded(states[..n + 1], steps[..n]);
      StepDecreases(states[n], steps[n]);
      StepInv(states[n], steps[n]);
    }
  }

  /** However the CPUs go on, they stop only when every request is answered and every lock is free:
      a run without new work that cannot be continued ends so. */
  lemma StuckDrainIsQuiet(states: seq<State>, steps: seq<Step>)
    requires IsDrain(states, steps) && Inv(states[0])
    requires forall step :: Enabled(states[|steps|], step) ==> NewWork(step)
    ensures |steps| <= Measure(states[0]) && Quiet(states[|steps|])
    ensures forall a | 0 <= a < |states[|steps|].spaces| :: CanWrite(states[|steps|], a)
  {
    hide Inv, Measure, Enabled, Apply;
    DrainIsBounded(states, steps);
    var s := states[|steps|];
    if !Quiet(s) {
      var step := NeverStuck(s);
      assert false;
    }
    forall a | 0 <= a < |s.spaces|
      ensures CanWrite(s, a)
    {
      LocksAreFree(s, a);
    }
  }

  /** And from every reachable state there is such a run. */
  lemma {:induction false} SomeRunDrains(s: State) returns (states: seq<State>, steps: seq<Step>)
    requires Inv(s)
    ensures IsDrain(states, steps) && states[0] == s && Quiet(states[|steps|])
    ensures forall a | 0 <= a < |states[|steps|].spaces| :: CanWrite(states[|steps|], a)
    decreases Measure(s)
  {
    hide Inv, Measure, Enabled, Apply;
    if Quiet(s) {
      states, steps := [s], [];
      forall a | 0 <= a < |s.spaces|
        ensures CanWrite(s, a)
      {
        LocksAreFree(s, a);
      }
    } else {
      var step := NeverStuck(s);
      StepInv(s, step);
      StepDecreases(s, step);
      var states1, steps1 := SomeRunDrains(Apply(s, step));
      states, steps := [s] + states1, [step] + steps1;
    }
  }
}
