/**
 The round-robin context switch (src/context/switch.rs). Context numbers stand for the order of the
 ordered set of contexts.
 */
module Scheduler {
  import opened Common

  type Cpu = nat

  type Id = nat

  datatype Status = Runnable | Blocked | HardBlocked | Dead

  datatype Context = Context(running: bool, cpuId: Option<Cpu>, affinity: set<Cpu>, status: Status, wake: Option<nat>)

  type Contexts = map<Id, Context>

  // ----- update_runnable -----

  /** Not running, allowed on this CPU, and not pinned to another one. */
  predicate Allowed(c: Context, cpu: Cpu) {
    !c.running && cpu in c.affinity && (c.cpuId.None? || c.cpuId.value == cpu)
  }

  predicate WakesUp(c: Context, now: nat) {
    c.status.Blocked? && c.wake.Some? && now >= c.wake.value
  }

  predicate Eligible(c: Context, cpu: Cpu, now: nat) {
    Allowed(c, cpu) && (c.status.Runnable? || WakesUp(c, now))
  }

  /** What looking at a context does to it: an allowed one whose time has come is woken. */
  function Updated(c: Context, cpu: Cpu, now: nat): Context {
    if Allowed(c, cpu) && WakesUp(c, now) then c.(wake := None, status := Runnable) else c
  }

  /** What may be switched to: a context that does not run, is allowed here, and is runnable or blocked
      with a wake time that has come. */
  predicate CouldRun(c: Context, cpu: Cpu, now: nat) {
    && !c.running && cpu in c.affinity && (c.cpuId.Some? ==> c.cpuId.value == cpu)
    && (c.status == Runnable || (c.status == Blocked && c.wake.Some? && c.wake.value <= now))
  }

  method UpdateRunnable(c: Context, cpu: Cpu, now: nat) returns (r: Context, canSwitch: bool)
    ensures canSwitch <==> Eligible(c, cpu, now)
    ensures r == Updated(c, cpu, now)
    ensures canSwitch <==> CouldRun(c, cpu, now)
    ensures canSwitch ==> r.status == Runnable
    // a blocked one is woken, and nothing else changes
    ensures canSwitch && c.status == Blocked ==> r == c.(status := Runnable, wake := None)
    ensures !(canSwitch && c.status == Blocked) ==> r == c
  {
    r := c;
    if r.running {
      return r, false;
    }
    if cpu !in r.affinity {
      return r, false;
    }
    if r.cpuId.Some? && r.cpuId.value != cpu {
      return r, false;
    }
    if r.status.Blocked? {
      if r.wake.Some? && now >= r.wake.value {
        r := r.(wake := None);
        r := r.(status := Runnable);
      }
    }
    canSwitch := r.status.Runnable?;
  }

  // ----- the order of the search -----

  /** `y` comes strictly between `p` and `x` when counting up from `p` and wrapping around. */
  predicate Between(p: Id, y: Id, x: Id) {
    if p < x then p < y < x else p < y || y < x
  }

  /** The context that the search from `prev` settles on. */
  ghost predicate IsPick(m: Contexts, prev: Id, idle: Id, cpu: Cpu, now: nat, r: Option<Id>) {
    match r
    case Some(n) =>
      && n in m && n != prev && Eligible(m[n], cpu, now)
      && (n != idle ==> forall y :: y in m && y != prev && y != idle && Between(prev, y, n) ==> !Eligible(m[y], cpu, now))
      && (n == idle ==> forall y :: y in m && y != prev && y != idle ==> !Eligible(m[y], cpu, now))
    case None =>
      && (forall y :: y in m && y != prev && y != idle ==> !Eligible(m[y], cpu, now))
      && (prev == idle || (idle in m && !Eligible(m[idle], cpu, now)))
  }

  /** The contexts that the search has looked at. */
  predicate Scanned(prev: Id, idle: Id, r: Option<Id>, y: Id) {
    && y != prev
    && (if r.Some? && r.value != idle then y != idle && (y == r.value || Between(prev, y, r.value))
        else y != idle || prev != idle)
  }

  function AfterScan(m: Contexts, prev: Id, idle: Id, cpu: Cpu, now: nat, r: Option<Id>): Contexts {
    map y | y in m :: if Scanned(prev, idle, r, y) then Updated(m[y], cpu, now) else m[y]
  }

  datatype Sched = Sched(contexts: Contexts, current: seq<Id>, idle: seq<Id>)

  /** The state after a switch on `cpu` that settled on `r`. */
  function AfterSwitch(s: Sched, cpu: Cpu, now: nat, r: Option<Id>): Sched
    requires cpu < |s.current| == |s.idle| && (r.Some? ==> r.value in s.contexts)
  {
    var prev := s.current[cpu];
    var m := AfterScan(s.contexts, prev, s.idle[cpu], cpu, now, r);
    if r.None? then s.(contexts := m)
    else
      s.(contexts := Stopped(m, prev)[r.value := m[r.value].(running := true, cpuId := Some(cpu))],
         current := s.current[cpu := r.value])
  }

  /** A context that has exited is no longer in the set. */
  function Stopped(m: Contexts, prev: Id): Contexts {
    if prev in m then m[prev := m[prev].(running := false)] else m
  }

  // ----- runs -----

  /** Everything else: blocking, waking, changing affinity, creating contexts, and removing them. None
      of it touches `running` or the CPU a context is pinned to. A context that exits removes itself
      while it runs; its number is not given out while it is still current. */
  ghost predicate OtherStep(s: Sched, s1: Sched) {
    && s1.current == s.current && s1.idle == s.idle
    && (forall x :: x in s.contexts && x in s1.contexts ==>
          s1.contexts[x].running == s.contexts[x].running && s1.contexts[x].cpuId == s.contexts[x].cpuId)
    && (forall x :: x in s1.contexts && x !in s.contexts ==>
          !s1.contexts[x].running && s1.contexts[x].cpuId.None? && x !in s.current)
    && (forall x :: x in s.contexts && x !in s1.contexts ==> x !in s.idle)
  }

  datatype Act = Switch(cpu: Cpu, now: nat, pick: Option<Id>) | Other

  ghost predicate Next(s: Sched, act: Act, s1: Sched) {
    match act
    case Switch(cpu, now, pick) =>
      && cpu < |s.current| == |s.idle|
      && IsPick(s.contexts, s.current[cpu], s.idle[cpu], cpu, now, pick)
      && s1 == AfterSwitch(s, cpu, now, pick)
    case Other => OtherStep(s, s1)
  }

  ghost predicate Initial(s: Sched) {
    && s.current == s.idle
    && (forall c | 0 <= c < |s.idle| :: s.idle[c] in s.contexts && s.contexts[s.idle[c]].running && s.contexts[s.idle[c]].cpuId == Some(c))
    && (forall c, d | 0 <= c < d < |s.idle| :: s.idle[c] != s.idle[d])
    && (forall x :: x in s.contexts && x !in s.idle ==> !s.contexts[x].running && s.contexts[x].cpuId.None?)
  }

  ghost predicate IsRun(states: seq<Sched>, acts: seq<Act>) {
    && |states| == |acts| + 1
    && (forall i | 0 <= i < |acts| :: Next(states[i], acts[i], states[i + 1]))
  }

  // ----- safety -----

  /** Every CPU runs its current context, which may have exited, and no context runs that is not
      current somewhere. */
  ghost predicate Inv(s: Sched) {
    |s.current| == |s.idle| && CurrentsRun(s) && IdlesPinned(s) && RunnersCurrent(s)
  }

  ghost predicate CurrentsRun(s: Sched) {
    forall c | 0 <= c < |s.current| :: CurrentRuns(s, c)
  }

  ghost predicate CurrentRuns(s: Sched, c: Cpu)
    requires c < |s.current|
  {
    s.current[c] in s.contexts ==> s.contexts[s.current[c]].running && s.contexts[s.current[c]].cpuId == Some(c)
  }

  ghost predicate IdlesPinned(s: Sched) {
    forall c | 0 <= c < |s.idle| :: s.idle[c] in s.contexts && s.contexts[s.idle[c]].cpuId == Some(c)
  }

  ghost predicate RunnersCurrent(s: Sched) {
    forall x :: x in s.contexts && s.contexts[x].running ==> RunsSomewhere(s, x)
  }

  ghost predicate RunsSomewhere(s: Sched, x: Id) {
    exists c | 0 <= c < |s.current| :: s.current[c] == x
  }

  lemma InitialInv(s: Sched)
    requires Initial(s)
    ensures Inv(s)
  {
    forall x | x in s.contexts && s.contexts[x].running
      ensures RunsSomewhere(s, x)
    {
      assert x in s.idle;
    }
  }

  /** What a switch changes about running and pinning. */
  ghost predicate SwitchEffect(s: Sched, s1: Sched, cpu: Cpu, r: Option<Id>)
    requires cpu < |s.current|
  {
    && s1.contexts.Keys == s.contexts.Keys && s1.idle == s.idle
    && s1.current == (if r.Some? then s.current[cpu := r.value] else s.current)
    && (r.Some? ==> Pickable(s, cpu, r.value))
    && (forall x :: x in s.contexts ==> ContextEffect(s.contexts[x], s1.contexts[x], cpu, r == Some(x), r.Some? && x == s.current[cpu]))
  }

  predicate Pickable(s: Sched, cpu: Cpu, x: Id)
    requires cpu < |s.current|
  {
    && x in s.contexts && !s.contexts[x].running && x != s.current[cpu] && cpu in s.contexts[x].affinity
    && (s.contexts[x].cpuId.None? || s.contexts[x].cpuId == Some(cpu))
  }

  predicate ContextEffect(c: Context, c1: Context, cpu: Cpu, picked: bool, left: bool) {
    && c1.running == (picked || (c.running && !left))
    && c1.cpuId == (if picked then Some(cpu) else c.cpuId)
    && c1.affinity == c.affinity
  }

  lemma SwitchFacts(s: Sched, cpu: Cpu, now: nat, r: Option<Id>)
    requires Inv(s) && cpu < |s.current| && IsPick(s.contexts, s.current[cpu], s.idle[cpu], cpu, now, r)
    ensures r.Some? ==> r.value in s.contexts
    ensures SwitchEffect(s, AfterSwitch(s, cpu, now, r), cpu, r)
  {
    hide RunnersCurrent, IdlesPinned, Between;
  }

  lemma EffectRunners(s: Sched, s1: Sched, cpu: Cpu, r: Option<Id>)
    requires cpu < |s.current| && SwitchEffect(s, s1, cpu, r) && RunnersCurrent(s)
    ensures RunnersCurrent(s1)
  {
    forall x | x in s1.contexts && s1.contexts[x].running
      ensures RunsSomewhere(s1, x)
    {
      assert ContextEffect(s.contexts[x], s1.contexts[x], cpu, r == Some(x), r.Some? && x == s.current[cpu]);
      if r == Some(x) {
        assert s1.current[cpu] == x;
      } else {
        assert RunsSomewhere(s, x);
        var c :| 0 <= c < |s.current| && s.current[c] == x;
        assert s1.current[c] == x;
      }
    }
  }

  lemma EffectCurrents(s: Sched, s1: Sched, cpu: Cpu, r: Option<Id>)
    requires cpu < |s.current| && SwitchEffect(s, s1, cpu, r) && CurrentsRun(s)
    ensures CurrentsRun(s1)
  {
    forall c | 0 <= c < |s1.current|
      ensures CurrentRuns(s1, c)
    {
      var x := s1.current[c];
      assert CurrentRuns(s, c) && CurrentRuns(s, cpu);
      if x in s1.contexts {
        assert ContextEffect(s.contexts[x], s1.contexts[x], cpu, r == Some(x), r.Some? && x == s.current[cpu]);
      }
    }
  }

  lemma EffectIdles(s: Sched, s1: Sched, cpu: Cpu, r: Option<Id>)
    requires cpu < |s.current| && SwitchEffect(s, s1, cpu, r) && IdlesPinned(s)
    ensures IdlesPinned(s1)
  {
    forall c | 0 <= c < |s1.idle|
      ensures s1.idle[c] in s1.contexts && s1.contexts[s1.idle[c]].cpuId == Some(c)
    {
      var x := s1.idle[c];
      assert ContextEffect(s.contexts[x], s1.contexts[x], cpu, r == Some(x), r.Some? && x == s.current[cpu]);
    }
  }

  lemma SwitchKeeps(s: Sched, cpu: Cpu, now: nat, r: Option<Id>)
    requires Inv(s) && cpu < |s.current| && IsPick(s.contexts, s.current[cpu], s.idle[cpu], cpu, now, r)
    ensures r.Some? ==> r.value in s.contexts
    ensures Inv(AfterSwitch(s, cpu, now, r))
  {
    SwitchFacts(s, cpu, now, r);
    hide AfterSwitch, IsPick, CurrentsRun, IdlesPinned, RunnersCurrent;
    var s1 := AfterSwitch(s, cpu, now, r);
    EffectRunners(s, s1, cpu, r);
    EffectCurrents(s, s1, cpu, r);
    EffectIdles(s, s1, cpu, r);
  }

  lemma OtherKeeps(s: Sched, s1: Sched)
    requires Inv(s) && OtherStep(s, s1)
    ensures Inv(s1)
  {
    forall c | 0 <= c < |s1.idle|
      ensures s1.idle[c] in s1.contexts
    {
      assert s.idle[c] in s.idle;
    }
    forall c | 0 <= c < |s1.current|
      ensures CurrentRuns(s1, c)
    {
      assert CurrentRuns(s, c) && s.current[c] in s.current;
    }
    forall x | x in s1.contexts && s1.contexts[x].running
      ensures RunsSomewhere(s1, x)
    {
      assert RunsSomewhere(s, x);
      var c :| 0 <= c < |s.current| && s.current[c] == x;
      assert s1.current[c] == x;
    }
  }

  lemma {:induction false} RunInv(states: seq<Sched>, acts: seq<Act>, i: nat)
    requires IsRun(states, acts) && i < |states| && Initial(states[0])
    ensures Inv(states[i])
  {
    hide Initial, Inv, AfterSwitch, IsPick, OtherStep;
    if i == 0 {
      InitialInv(states[0]);
    } else {
      RunInv(states, acts, i - 1);
      assert Next(states[i - 1], acts[i - 1], states[i]);
      match acts[i - 1]
      case Switch(cpu, now, r) => SwitchKeeps(states[i - 1], cpu, now, r);
      case Other => OtherKeeps(states[i - 1], states[i]);
    }
  }

  /** Over all runs: a context runs exactly if it is current on a CPU, and then on one only. */
  lemma RunningIsCurrent(states: seq<Sched>, acts: seq<Act>, i: nat, x: Id)
    requires IsRun(states, acts) && i < |states| && Initial(states[0])
    requires x in states[i].contexts
    ensures states[i].contexts[x].running <==> exists c | 0 <= c < |states[i].current| :: states[i].current[c] == x
    ensures forall c, d | 0 <= c < |states[i].current| && 0 <= d < |states[i].current| ::
              states[i].current[c] == x && states[i].current[d] == x ==> c == d
  {
    RunInv(states, acts, i);
    var s := states[i];
    forall c | 0 <= c < |s.current| && s.current[c] == x
      ensures s.contexts[x].running && s.contexts[x].cpuId == Some(c)
    {
      assert CurrentRuns(s, c);
    }
    if s.contexts[x].running {
      assert RunsSomewhere(s, x);
    }
  }

  /** A context that has exited is left for good by the next switch of its CPU, unless nothing else can
      run there, not even the idle context. */
  lemma ExitedIsLeft(states: seq<Sched>, acts: seq<Act>, i: nat)
    requires IsRun(states, acts) && i < |acts| && Initial(states[0]) && acts[i].Switch?
    requires acts[i].cpu < |states[i].current| && states[i].current[acts[i].cpu] !in states[i].contexts
    ensures var s, s1, cpu := states[i], states[i + 1], acts[i].cpu;
            && cpu < |s.idle| && s.idle[cpu] in s.contexts && cpu < |s1.current|
            && (if acts[i].pick.Some? then s1.current[cpu] in s1.contexts && s1.contexts[s1.current[cpu]].running
                else forall y :: y in s.contexts ==> !CouldRun(s.contexts[y], cpu, acts[i].now))
  {
    RunInv(states, acts, i);
    assert Next(states[i], acts[i], states[i + 1]);
    hide RunnersCurrent, Between;
  }

  /** A context is only ever picked by a CPU in its affinity, and never moves to another CPU. */
  lemma PickedWithinAffinity(states: seq<Sched>, acts: seq<Act>, i: nat)
    requires IsRun(states, acts) && i < |acts| && Initial(states[0])
    requires acts[i].Switch? && acts[i].pick.Some?
    ensures var s, cpu, x := states[i], acts[i].cpu, acts[i].pick.value;
            && x in s.contexts && cpu in s.contexts[x].affinity && !s.contexts[x].running
            && (s.contexts[x].cpuId.None? || s.contexts[x].cpuId == Some(cpu))
            && cpu < |states[i + 1].current| && states[i + 1].current[cpu] == x
  {
    hide Initial, AfterSwitch, IsPick, OtherStep;
    RunInv(states, acts, i);
    assert Next(states[i], acts[i], states[i + 1]);
    SwitchFacts(states[i], acts[i].cpu, acts[i].now, acts[i].pick);
  }

  /** A picked context could run: it was runnable, or blocked with a wake time that has come. It is
      runnable and running afterwards. A context that is hard-blocked, dead or not due is never picked. */
  lemma PickedCouldRun(states: seq<Sched>, acts: seq<Act>, i: nat)
    requires IsRun(states, acts) && i < |acts| && Initial(states[0])
    requires acts[i].Switch? && acts[i].pick.Some?
    ensures var m, m1, x := states[i].contexts, states[i + 1].contexts, acts[i].pick.value;
            && x in m && x in m1
            && (m[x].status == Runnable || (m[x].status == Blocked && m[x].wake.Some? && m[x].wake.value <= acts[i].now))
            && m1[x].status == Runnable && m1[x].running && m1[x].cpuId == Some(acts[i].cpu)
  {
    RunInv(states, acts, i);
    assert Next(states[i], acts[i], states[i + 1]);
    hide Inv, Between, Initial;
  }

  /** A switch wakes contexts that are blocked and due and could run here, and changes the status and the
      wake time of no other. */
  lemma SwitchWakesDue(states: seq<Sched>, acts: seq<Act>, i: nat, y: Id)
    requires IsRun(states, acts) && i < |acts| && acts[i].Switch? && y in states[i].contexts
    ensures y in states[i + 1].contexts
    ensures var c, c1, cpu := states[i].contexts[y], states[i + 1].contexts[y], acts[i].cpu;
            || (c1.status == c.status && c1.wake == c.wake)
            || (&& c.status == Blocked && c.wake.Some? && c.wake.value <= acts[i].now
                && !c.running && cpu in c.affinity && (c.cpuId.Some? ==> c.cpuId.value == cpu)
                && c1.status == Runnable && c1.wake == None)
  {
    assert Next(states[i], acts[i], states[i + 1]);
    hide Between;
  }

  /** The search passes over no context that could run: if it ends on another, none in between could, and
      if it ends on the idle context or on nothing, none could at all. */
  lemma NonePassedOver(states: seq<Sched>, acts: seq<Act>, i: nat, y: Id)
    requires IsRun(states, acts) && i < |acts| && acts[i].Switch?
    requires var cpu := acts[i].cpu;
             cpu < |states[i].current| == |states[i].idle| && y in states[i].contexts && y != states[i].current[cpu] && y != states[i].idle[cpu]
    requires CouldRun(states[i].contexts[y], acts[i].cpu, acts[i].now)
    ensures acts[i].pick.Some?
    ensures var n, p := acts[i].pick.value, states[i].current[acts[i].cpu];
            n != states[i].idle[acts[i].cpu] && (n == y || (if p < y then p < n < y else p < n || n < y))
  {
    assert Next(states[i], acts[i], states[i + 1]);
    var cpu := acts[i].cpu;
    assert Eligible(states[i].contexts[y], cpu, acts[i].now);
  }

  // ----- bounded waiting -----

  ghost function Ahead(ids: set<Id>, p: Id, x: Id): set<Id> {
    set y | y in ids && Between(p, y, x)
  }

  /** Context `x` could be picked at every switch of `cpu`, and is not. */
  ghost predicate WaitsAt(s: Sched, act: Act, cpu: Cpu, x: Id) {
    && x in s.contexts && cpu < |s.idle| && x != s.idle[cpu]
    && (act.Switch? && act.cpu == cpu ==> act.pick != Some(x) && CouldRun(s.contexts[x], cpu, act.now))
  }

  function SwitchesOf(acts: seq<Act>, cpu: Cpu): nat {
    if acts == [] then 0
    else SwitchesOf(acts[..|acts| - 1], cpu) + (if acts[|acts| - 1].Switch? && acts[|acts| - 1].cpu == cpu then 1 else 0)
  }

  /** One switch that passes over a waiting context brings it nearer. */
  lemma Nearer(s: Sched, cpu: Cpu, now: nat, r: Option<Id>, x: Id)
    requires Inv(s) && cpu < |s.current| && IsPick(s.contexts, s.current[cpu], s.idle[cpu], cpu, now, r)
    requires x in s.contexts && x != s.idle[cpu] && Eligible(s.contexts[x], cpu, now) && r != Some(x)
    ensures r.Some? && |Ahead(s.contexts.Keys, r.value, x)| < |Ahead(s.contexts.Keys, s.current[cpu], x)|
  {
    var p := s.current[cpu];
    assert CurrentRuns(s, cpu);
    var n := r.value;
    assert Between(p, n, x);
    var far, near := Ahead(s.contexts.Keys, p, x), Ahead(s.contexts.Keys, n, x);
    assert n in far && near <= far - {n};
    Smaller(near, far, n);
  }

  lemma Smaller(near: set<Id>, far: set<Id>, n: Id)
    requires n in far && near <= far - {n}
    ensures |near| < |far|
  {
    var rest := far - {n};
    assert |rest| == |far| - 1;
    SubsetSize(near, rest);
  }

  lemma SubsetSize(a: set<Id>, b: set<Id>)
    requires a <= b
    ensures |a| <= |b|
  {
    assert b == a + (b - a);
  }

  /** Bounded waiting: with a fixed set of contexts, one that stays eligible on a CPU is passed over
      fewer times than there are contexts. */
  lemma {:induction false} BoundedWaiting(states: seq<Sched>, acts: seq<Act>, cpu: Cpu, x: Id)
    requires IsRun(states, acts) && Inv(states[0])
    requires forall i | 0 <= i < |acts| :: WaitsAt(states[i], acts[i], cpu, x)
    requires forall i | 0 <= i < |states| :: states[i].contexts.Keys == states[0].contexts.Keys && |states[i].current| == |states[0].current|
    requires cpu < |states[0].current|
    ensures Inv(states[|acts|])
    ensures SwitchesOf(acts, cpu) + |Ahead(states[0].contexts.Keys, states[|acts|].current[cpu], x)|
            <= |Ahead(states[0].contexts.Keys, states[0].current[cpu], x)|
    decreases |acts|
  {
    hide Inv, AfterSwitch, IsPick, OtherStep, Ahead, Eligible;
    if acts != [] {
      var n := |acts| - 1;
      BoundedWaiting(states[..n + 1], acts[..n], cpu, x);
      assert Next(states[n], acts[n], states[n + 1]) && WaitsAt(states[n], acts[n], cpu, x);
      OneStep(states[n], acts[n], states[n + 1], cpu, x);
    }
  }

  lemma OneStep(s: Sched, act: Act, s1: Sched, cpu: Cpu, x: Id)
    requires Inv(s) && Next(s, act, s1) && WaitsAt(s, act, cpu, x) && cpu < |s.current|
    ensures Inv(s1) && cpu < |s1.current|
    ensures |Ahead(s.contexts.Keys, s1.current[cpu], x)| + (if act.Switch? && act.cpu == cpu then 1 else 0)
            <= |Ahead(s.contexts.Keys, s.current[cpu], x)|
  {
    hide IsPick, Ahead;
    match act
    case Switch(c, now, r) =>
      SwitchKeeps(s, c, now, r);
      if c == cpu {
        Nearer(s, cpu, now, r, x);
      }
    case Other =>
      OtherKeeps(s, s1);
  }

  /** In numbers: fewer switches than contexts. */
  lemma WaitsLessThanContexts(states: seq<Sched>, acts: seq<Act>, cpu: Cpu, x: Id)
    requires IsRun(states, acts) && Inv(states[0]) && acts != []
    requires forall i | 0 <= i < |acts| :: WaitsAt(states[i], acts[i], cpu, x)
    requires forall i | 0 <= i < |states| :: states[i].contexts.Keys == states[0].contexts.Keys && |states[i].current| == |states[0].current|
    requires cpu < |states[0].current| && x != states[0].current[cpu]
    ensures SwitchesOf(acts, cpu) + (if states[0].current[cpu] in states[0].contexts then 2 else 1) <= |states[0].contexts|
  {
    BoundedWaiting(states, acts, cpu, x);
    var ids, p := states[0].contexts.Keys, states[0].current[cpu];
    assert WaitsAt(states[0], acts[0], cpu, x);
    assert Ahead(ids, p, x) <= ids - {p, x};
    SubsetSize(Ahead(ids, p, x), ids - {p, x});
    var others := if p in ids then {p, x} else {x};
    assert ids == (ids - {p, x}) + others;
    assert |ids - {p, x}| == |ids| - |others|;
    assert |ids| == |states[0].contexts|;
  }

  // ----- the loop -----

  /** The contexts [lo, hi) but for `idle`, updated. */
  function ScanPart(m: Contexts, lo: nat, hi: nat, idle: Id, cpu: Cpu, now: nat): Contexts {
    map y | y in m :: if lo <= y < hi && y != idle then Updated(m[y], cpu, now) else m[y]
  }

  /** The search ends above the current context. */
  lemma PickAbove(m: Contexts, prev: Id, idle: Id, cpu: Cpu, now: nat, n: Id)
    requires n in m && prev < n && n != idle && Eligible(m[n], cpu, now)
    requires forall y :: y in m && prev + 1 <= y < n && y != idle ==> !Eligible(m[y], cpu, now)
    ensures IsPick(m, prev, idle, cpu, now, Some(n))
    ensures ScanPart(m, prev + 1, n + 1, idle, cpu, now) == AfterScan(m, prev, idle, cpu, now, Some(n))
  {
    hide Eligible, Updated;
  }

  /** The search wraps around and ends below it. */
  lemma PickBelow(m: Contexts, bound: nat, prev: Id, idle: Id, cpu: Cpu, now: nat, n: Id)
    requires n in m && n < prev && n != idle && (forall y :: y in m ==> y < bound)
    requires var m1 := ScanPart(m, prev + 1, bound, idle, cpu, now);
             && Eligible(m1[n], cpu, now)
             && (forall y :: y in m1 && 0 <= y < n && y != idle ==> !Eligible(m1[y], cpu, now))
    requires forall y :: y in m && prev + 1 <= y < bound && y != idle ==> !Eligible(m[y], cpu, now)
    ensures IsPick(m, prev, idle, cpu, now, Some(n))
    ensures ScanPart(ScanPart(m, prev + 1, bound, idle, cpu, now), 0, n + 1, idle, cpu, now) == AfterScan(m, prev, idle, cpu, now, Some(n))
  {
    SameEligible(m, prev + 1, bound, idle, cpu, now);
    hide Eligible, Updated;
  }

  /** Neither range holds one: the idle context is left, unless it is the current one. */
  lemma NonePicked(m: Contexts, bound: nat, prev: Id, idle: Id, cpu: Cpu, now: nat)
    requires idle in m && (forall y :: y in m ==> y < bound)
    requires forall y :: y in m && prev + 1 <= y < bound && y != idle ==> !Eligible(m[y], cpu, now)
    requires var m1 := ScanPart(m, prev + 1, bound, idle, cpu, now);
             forall y :: y in m1 && 0 <= y < prev && y != idle ==> !Eligible(m1[y], cpu, now)
    ensures var m2 := ScanPart(ScanPart(m, prev + 1, bound, idle, cpu, now), 0, prev, idle, cpu, now);
            && idle in m2
            && (prev != idle ==>
                  && m2[idle] == m[idle]
                  && m2[idle := Updated(m[idle], cpu, now)] == AfterScan(m, prev, idle, cpu, now, None)
                  && AfterScan(m, prev, idle, cpu, now, None) == AfterScan(m, prev, idle, cpu, now, Some(idle))
                  && (if Eligible(m[idle], cpu, now) then IsPick(m, prev, idle, cpu, now, Some(idle))
                      else IsPick(m, prev, idle, cpu, now, None)))
            && (prev == idle ==> IsPick(m, prev, idle, cpu, now, None) && m2 == AfterScan(m, prev, idle, cpu, now, None))
  {
    SameEligible(m, prev + 1, bound, idle, cpu, now);
    hide Eligible, Updated;
    forall y | y in m && y != prev && y != idle
      ensures !Eligible(m[y], cpu, now)
    {
      assert y < prev || prev + 1 <= y < bound;
    }
  }

  class Switcher {
    var contexts: Contexts
    var current: seq<Id>
    var idle: seq<Id>
    /** Above all context numbers. */
    var bound: nat

    ghost function State(): Sched
      reads this
    {
      Sched(contexts, current, idle)
    }

    ghost predicate Valid()
      reads this
    {
      Inv(State()) && (forall x :: x in contexts ==> x < bound) && (forall c | 0 <= c < |current| :: current[c] < bound)
    }

    /** One of the two ranges the search goes through; the idle context is skipped there. */
    method Scan(lo: nat, hi: nat, cpu: Cpu, skip: Id, now: nat) returns (r: Option<Id>)
      requires lo <= hi
      modifies this`contexts
      ensures r.None? ==>
                && contexts == ScanPart(old(contexts), lo, hi, skip, cpu, now)
                && (forall y :: y in old(contexts) && lo <= y < hi && y != skip ==> !Eligible(old(contexts)[y], cpu, now))
      ensures r.Some? ==>
                && r.value in old(contexts) && lo <= r.value < hi && r.value != skip && Eligible(old(contexts)[r.value], cpu, now)
                && contexts == ScanPart(old(contexts), lo, r.value + 1, skip, cpu, now)
                && (forall y :: y in old(contexts) && lo <= y < r.value && y != skip ==> !Eligible(old(contexts)[y], cpu, now))
    {
      hide Eligible, Updated;
      ghost var m := contexts;
      var x := lo;
      assert contexts == ScanPart(m, lo, lo, skip, cpu, now);
      while x < hi
        invariant lo <= x <= hi
        invariant contexts == ScanPart(m, lo, x, skip, cpu, now)
        invariant forall y :: y in m && lo <= y < x && y != skip ==> !Eligible(m[y], cpu, now)
      {
        if x in contexts && x != skip {
          var updated, canSwitch := UpdateRunnable(contexts[x], cpu, now);
          contexts := contexts[x := updated];
          assert contexts == ScanPart(m, lo, x + 1, skip, cpu, now);
          if canSwitch {
            return Some(x);
          }
        }
        x := x + 1;
      }
      r := None;
    }

    /** The search of `switch`: above the current context, then below it, then the idle context. */
    method Select(cpu: Cpu, now: nat) returns (r: Option<Id>)
      requires Valid() && cpu < |current|
      modifies this`contexts
      ensures IsPick(old(contexts), current[cpu], idle[cpu], cpu, now, r)
      ensures contexts == AfterScan(old(contexts), current[cpu], idle[cpu], cpu, now, r)
    {
      hide Eligible, Updated, Inv, IsPick, AfterScan, ScanPart;
      ghost var m := contexts;
      IdleExists(State(), cpu);
      var prev, idling := current[cpu], idle[cpu];
      r := Scan(prev + 1, bound, cpu, idling, now);
      if r.Some? {
        PickAbove(m, prev, idling, cpu, now, r.value);
        return;
      }
      SameEligible(m, prev + 1, bound, idling, cpu, now);
      r := Scan(0, prev, cpu, idling, now);
      if r.Some? {
        PickBelow(m, bound, prev, idling, cpu, now, r.value);
        return;
      }
      NonePicked(m, bound, prev, idling, cpu, now);
      if prev != idling {
        var updated, canSwitch := UpdateRunnable(contexts[idling], cpu, now);
        contexts := contexts[idling := updated];
        if canSwitch {
          r := Some(idling);
          return;
        }
      }
    }

    /** `switch`: to the selected context, if there is one. */
    method SwitchOn(cpu: Cpu, now: nat) returns (r: Option<Id>)
      requires Valid() && cpu < |current|
      modifies this`contexts, this`current
      ensures Next(old(State()), Switch(cpu, now, r), State()) && Valid()
    {
      hide IsPick, Inv, AfterScan;
      ghost var s := State();
      IdleExists(s, cpu);
      r := Select(cpu, now);
      PickFacts(s.contexts, s.current[cpu], s.idle[cpu], cpu, now, r);
      SwitchKeeps(s, cpu, now, r);
      if r.Some? {
        var prev, next := current[cpu], r.value;
        // through the guard of the context, whether or not it is still in the set
        if prev in contexts {
          contexts := contexts[prev := contexts[prev].(running := false)];
        }
        contexts := contexts[next := contexts[next].(running := true)];
        contexts := contexts[next := contexts[next].(cpuId := Some(cpu))];
        current := current[cpu := next];
      }
      assert State() == AfterSwitch(s, cpu, now, r);
    }
  }

  lemma IdleExists(s: Sched, cpu: Cpu)
    requires Inv(s) && cpu < |s.current|
    ensures |s.idle| == |s.current| && s.idle[cpu] in s.contexts
  {
  }

  lemma SameEligible(m: Contexts, lo: nat, hi: nat, idle: Id, cpu: Cpu, now: nat)
    ensures ScanPart(m, lo, hi, idle, cpu, now).Keys == m.Keys
    ensures forall y :: y in m ==> y in ScanPart(m, lo, hi, idle, cpu, now)
                                   && (Eligible(ScanPart(m, lo, hi, idle, cpu, now)[y], cpu, now) <==> Eligible(m[y], cpu, now))
  {
  }

  lemma PickFacts(m: Contexts, prev: Id, idle: Id, cpu: Cpu, now: nat, r: Option<Id>)
    requires IsPick(m, prev, idle, cpu, now, r)
    ensures r.Some? ==> r.value in m && r.value != prev
    ensures AfterScan(m, prev, idle, cpu, now, r).Keys == m.Keys
  {
  }
}
