module ShootdownSteps {
  import opened Common
  import opened ShootdownModel
  import opened ShootdownInvariant

  lemma InitialInv(s: State)
    requires Initial(s)
    ensures Inv(s)
  {
  }

  // ----- locks and membership -----

  /** A step changes nothing about the locks and membership of another CPU. */
  lemma OtherPair(s: State, step: Step, c: Cpu, a: Space)
    requires Enabled(s, step) && c < |s.cpus| && c != step.c && a < |s.spaces| && PairOk(s, c, a)
    requires PairOk(s, step.c, a)
    ensures PairOk(Apply(s, step), c, a)
  {
  }

  lemma OwnWriter(s: State, step: Step, a: Space)
    requires Enabled(s, step) && a < |s.spaces| && WriterOk(s, step.c, a)
    ensures |Apply(s, step).cpus| == |s.cpus| && |Apply(s, step).spaces| == |s.spaces| && WriterOk(Apply(s, step), step.c, a)
  {
  }

  lemma OwnReader(s: State, step: Step, a: Space)
    requires Enabled(s, step) && a < |s.spaces| && ReaderOk(s, step.c, a)
    ensures |Apply(s, step).cpus| == |s.cpus| && |Apply(s, step).spaces| == |s.spaces| && ReaderOk(Apply(s, step), step.c, a)
  {
  }

  lemma OwnMember(s: State, step: Step, a: Space)
    requires Enabled(s, step) && a < |s.spaces| && MemberOk(s, step.c, a) && CurrentOk(s.cpus[step.c])
    ensures |Apply(s, step).cpus| == |s.cpus| && |Apply(s, step).spaces| == |s.spaces| && MemberOk(Apply(s, step), step.c, a)
  {
  }

  lemma OwnPair(s: State, step: Step, a: Space)
    requires Enabled(s, step) && a < |s.spaces| && PairOk(s, step.c, a) && CpuOk(s, step.c)
    ensures PairOk(Apply(s, step), step.c, a)
  {
    hide Enabled, Apply, WriterOk, ReaderOk, MemberOk, CurrentOk;
    OwnWriter(s, step, a);
    OwnReader(s, step, a);
    OwnMember(s, step, a);
  }

  lemma StepPairs(s: State, step: Step)
    requires Pairs(s) && Cpus(s) && Enabled(s, step)
    ensures Pairs(Apply(s, step))
  {
    hide PairOk, CpuOk, Enabled;
    var s1 := Apply(s, step);
    StepSizes(s, step);
    forall c, a | 0 <= c < |s1.cpus| && 0 <= a < |s1.spaces|
      ensures PairOk(s1, c, a)
    {
      assert PairOk(s, c, a) && PairOk(s, step.c, a);
      if c == step.c {
        assert CpuOk(s, c);
        OwnPair(s, step, a);
      } else {
        OtherPair(s, step, c, a);
      }
    }
  }

  lemma StepSizes(s: State, step: Step)
    requires Enabled(s, step)
    ensures step.c < |s.cpus| && |Apply(s, step).cpus| == |s.cpus| && |Apply(s, step).spaces| == |s.spaces|
  {
  }

  lemma StepLock(s: State, step: Step, a: Space)
    requires Enabled(s, step) && a < |s.spaces| && LockOk(s, a) && PairOk(s, step.c, a)
    ensures |Apply(s, step).spaces| == |s.spaces| && LockOk(Apply(s, step), a)
  {
  }

  lemma StepLocks(s: State, step: Step)
    requires Pairs(s) && Locks(s) && Enabled(s, step)
    ensures Locks(Apply(s, step))
  {
    hide PairOk, LockOk, Enabled, Apply;
    StepSizes(s, step);
    forall a | 0 <= a < |s.spaces|
      ensures LockOk(Apply(s, step), a)
    {
      assert LockOk(s, a) && PairOk(s, step.c, a);
      StepLock(s, step, a);
    }
  }

  // ----- CPUs -----

  /** A request is never sent to a CPU that still has one: the wait for the flag never spins. */
  lemma TargetIsIdle(s: State, c: Cpu, t: Cpu)
    requires Inv(s) && c < |s.cpus| && s.cpus[c].pc.Sending? && t in s.cpus[c].pc.todo
    ensures t < |s.cpus| && t != c && !Busy(s.cpus[t])
  {
    hide Freshness;
    var pc := s.cpus[c].pc;
    assert CpuOk(s, c) && FlushOk(s, c) && LockOk(s, pc.a);
    assert t in s.spaces[pc.a].usedBy;
    assert PairOk(s, t, pc.a) && PairOk(s, c, pc.a) && RequestOk(s, t);
  }

  /** The steps of a context switch. */
  predicate OfSwitch(step: Step) {
    || step.StartSwitch? || step.AcquireLeave? || step.ClearUsed? || step.ReleaseLeave? || step.SetCurrent?
    || step.AcquireEnter? || step.SetUsed? || step.LoadTable? || step.ReleaseEnter?
  }

  lemma OwnSpacesSwitch(s: State, step: Step)
    requires Enabled(s, step) && OfSwitch(step) && SpacesExist(s.cpus[step.c], |s.spaces|)
    ensures |Apply(s, step).cpus| == |s.cpus| && SpacesExist(Apply(s, step).cpus[step.c], |s.spaces|)
  {
  }

  lemma OwnSpacesOther(s: State, step: Step)
    requires Enabled(s, step) && !OfSwitch(step) && SpacesExist(s.cpus[step.c], |s.spaces|)
    ensures |Apply(s, step).cpus| == |s.cpus| && SpacesExist(Apply(s, step).cpus[step.c], |s.spaces|)
  {
  }

  lemma OwnSpaces(s: State, step: Step)
    requires Enabled(s, step) && SpacesExist(s.cpus[step.c], |s.spaces|)
    ensures |Apply(s, step).cpus| == |s.cpus| && SpacesExist(Apply(s, step).cpus[step.c], |s.spaces|)
  {
    hide Enabled, Apply, SpacesExist;
    StepSizes(s, step);
    if OfSwitch(step) {
      OwnSpacesSwitch(s, step);
    } else {
      OwnSpacesOther(s, step);
    }
  }

  lemma OwnCurrent(s: State, step: Step)
    requires Enabled(s, step) && CurrentOk(s.cpus[step.c])
    ensures |Apply(s, step).cpus| == |s.cpus| && CurrentOk(Apply(s, step).cpus[step.c])
  {
  }

  lemma OwnTable(s: State, step: Step)
    requires Enabled(s, step) && TableOk(s.cpus[step.c]) && CurrentOk(s.cpus[step.c])
    ensures |Apply(s, step).cpus| == |s.cpus| && TableOk(Apply(s, step).cpus[step.c])
  {
  }

  lemma OwnFlags(s: State, step: Step)
    requires Enabled(s, step) && !(s.cpus[step.c].wants && !s.cpus[step.c].handler.NoRequest?)
    ensures |Apply(s, step).cpus| == |s.cpus|
    ensures !(Apply(s, step).cpus[step.c].wants && !Apply(s, step).cpus[step.c].handler.NoRequest?)
  {
  }

  lemma OwnCpu(s: State, step: Step)
    requires Enabled(s, step) && CpuOk(s, step.c)
    ensures CpuOk(Apply(s, step), step.c)
  {
    hide Enabled, Apply, SpacesExist, CurrentOk, TableOk;
    StepSizes(s, step);
    OwnSpaces(s, step);
    OwnCurrent(s, step);
    OwnTable(s, step);
    OwnFlags(s, step);
  }

  lemma OtherCpu(s: State, step: Step, c: Cpu)
    requires Enabled(s, step) && c < |s.cpus| && c != step.c && CpuOk(s, c)
    requires step.Send? && c == step.target ==> !Busy(s.cpus[c])
    ensures CpuOk(Apply(s, step), c)
  {
  }

  lemma StepCpus(s: State, step: Step)
    requires Inv(s) && Enabled(s, step)
    ensures Cpus(Apply(s, step))
  {
    hide Pairs, Locks, Requests, Flushes, Freshness, CpuOk;
    var s1 := Apply(s, step);
    StepSizes(s, step);
    forall c | 0 <= c < |s1.cpus|
      ensures CpuOk(s1, c)
    {
      assert CpuOk(s, c);
      if c == step.c {
        OwnCpu(s, step);
      } else {
        if step.Send? {
          TargetIsIdle(s, step.c, step.target);
        }
        OtherCpu(s, step, c);
      }
    }
  }

  // ----- requests -----

  /** Who waits for the request that CPU `t` has. */
  lemma RequestFacts(s: State, t: Cpu) returns (a: Space, w: Cpu)
    requires Inv(s) && t < |s.cpus| && Busy(s.cpus[t])
    ensures a < |s.spaces| && s.cpus[t].cur == Some(a) && s.spaces[a].writer == Some(w)
    ensures w < |s.cpus| && w != t && Flushing(s.cpus[w].pc) && s.cpus[w].pc.a == a && t in s.cpus[w].pc.sent
    ensures t in s.spaces[a].usedBy && !InWindow(s.cpus[t].pc) && !s.cpus[t].pc.Entered? && !s.cpus[t].pc.Loaded? && !s.cpus[t].pc.LeaveHeld?
  {
    hide Freshness;
    assert RequestOk(s, t);
    a := s.cpus[t].cur.value;
    w := s.spaces[a].writer.value;
    assert CpuOk(s, t) && PairOk(s, w, a) && PairOk(s, t, a) && FlushOk(s, w) && LockOk(s, a);
  }

  /** When the acknowledgements are in, every target has finished its handler. */
  lemma AllFinished(s: State, w: Cpu)
    requires w < |s.cpus| && s.cpus[w].pc.Waiting? && s.cpus[w].pc.a < |s.spaces| && FlushOk(s, w)
    requires s.spaces[s.cpus[w].pc.a].ack >= |s.cpus[w].pc.sent|
    ensures forall t :: t in s.cpus[w].pc.sent ==> t < |s.cpus| && !Busy(s.cpus[t])
  {
    var sent := s.cpus[w].pc.sent;
    SubsetOfSize(Finished(s, sent), sent);
  }

  lemma SubsetOfSize(x: set<Cpu>, y: set<Cpu>)
    requires x <= y && |x| >= |y|
    ensures x == y
  {
    assert y == x + (y - x);
  }

  /** The step of another CPU leaves the flush that CPU `t` answers to in place. */
  lemma FlusherStays(s: State, step: Step, t: Cpu, a: Space, w: Cpu)
    requires Enabled(s, step) && t < |s.cpus| && Busy(s.cpus[t])
    requires a < |s.spaces| && s.cpus[t].cur == Some(a) && s.spaces[a].writer == Some(w)
    requires w < |s.cpus| && w != t && Flushing(s.cpus[w].pc) && s.cpus[w].pc.a == a && t in s.cpus[w].pc.sent
    requires step.c < |s.cpus| && (step.c != w ==> WriterOk(s, step.c, a))
    requires step != Free(w)
    ensures var s1 := Apply(s, step);
            |s1.cpus| == |s.cpus| && |s1.spaces| == |s.spaces| && s1.spaces[a].writer == Some(w) && Flushing(s1.cpus[w].pc) && t in s1.cpus[w].pc.sent
  {
  }

  lemma CurrentStays(s: State, step: Step, t: Cpu)
    requires Enabled(s, step) && t < |s.cpus|
    requires t == step.c ==> !s.cpus[t].pc.Between?
    ensures |Apply(s, step).cpus| == |s.cpus| && Apply(s, step).cpus[t].cur == s.cpus[t].cur
    ensures Busy(Apply(s, step).cpus[t]) ==> Busy(s.cpus[t]) || (step.Send? && step.target == t)
  {
  }

  /** While a CPU has a request it stays in the flushed space, and the flush waits for it. */
  lemma StepRequest(s: State, step: Step, t: Cpu)
    requires Inv(s) && Enabled(s, step) && t < |s.cpus|
    ensures |Apply(s, step).cpus| == |s.cpus| && RequestOk(Apply(s, step), t)
  {
    hide Pairs, Locks, Cpus, Requests, Flushes, Freshness, Apply, Enabled;
    StepSizes(s, step);
    var s1 := Apply(s, step);
    if Busy(s.cpus[t]) {
      var a, w := RequestFacts(s, t);
      PairAt(s, step.c, a);
      if step == Free(w) {
        FreeMeansFinished(s, w);
        assert false;
      }
      FlusherStays(s, step, t, a, w);
      CurrentStays(s, step, t);
    } else if step.Send? && step.target == t {
      SendRequest(s, step.c, t);
    } else if Busy(s1.cpus[t]) {
      if t == step.c && s.cpus[t].pc.Between? {
        NotBusyBetween(s, step);
      } else {
        CurrentStays(s, step, t);
      }
    }
  }

  lemma PairAt(s: State, c: Cpu, a: Space)
    requires Inv(s) && c < |s.cpus| && a < |s.spaces|
    ensures PairOk(s, c, a)
  {
  }

  lemma FreeMeansFinished(s: State, w: Cpu)
    requires Inv(s) && Enabled(s, Free(w))
    ensures forall t :: t in s.cpus[w].pc.sent ==> t < |s.cpus| && !Busy(s.cpus[t])
  {
    assert CpuOk(s, w) && FlushOk(s, w);
    AllFinished(s, w);
  }

  lemma NotBusyBetween(s: State, step: Step)
    requires Enabled(s, step) && step.c < |s.cpus| && s.cpus[step.c].pc.Between? && !Busy(s.cpus[step.c])
    ensures |Apply(s, step).cpus| == |s.cpus| && !Busy(Apply(s, step).cpus[step.c])
  {
  }

  /** A request just sent is for the space that is current on its target. */
  lemma SendRequest(s: State, c: Cpu, t: Cpu)
    requires Inv(s) && Enabled(s, Send(c, t))
    ensures |Apply(s, Send(c, t)).cpus| == |s.cpus| && RequestOk(Apply(s, Send(c, t)), t)
  {
    hide Freshness, Requests;
    var a := s.cpus[c].pc.a;
    assert CpuOk(s, c) && FlushOk(s, c) && PairOk(s, c, a) && PairOk(s, t, a);
    assert t in s.spaces[a].usedBy;
  }

  // ----- flushes -----

  /** No CPU but the flusher changes the members of the space while the flush lasts. */
  lemma MembersStay(s: State, step: Step, w: Cpu, a: Space)
    requires Enabled(s, step) && w < |s.cpus| && a < |s.spaces| && w != step.c
    requires s.spaces[a].writer == Some(w) && s.spaces[a].readers == {} && ReaderOk(s, step.c, a) && WriterOk(s, step.c, a)
    ensures var s1 := Apply(s, step);
            && |s1.cpus| == |s.cpus| && |s1.spaces| == |s.spaces| && s1.cpus[w].pc == s.cpus[w].pc
            && s1.spaces[a].usedBy == s.spaces[a].usedBy
            && s1.spaces[a].ack == s.spaces[a].ack + (if step.Acknowledge? && s.cpus[step.c].cur == Some(a) then 1 else 0)
  {
  }

  /** The flusher's own steps. */
  lemma OwnSent(s: State, step: Step)
    requires Enabled(s, step)
    ensures |Apply(s, step).cpus| == |s.cpus| && |Apply(s, step).spaces| == |s.spaces|
    ensures var pc1 := Apply(s, step).cpus[step.c].pc;
            Flushing(pc1) ==>
              var pc := s.cpus[step.c].pc;
              && (step.StartFlush? ==> pc1.sent == {})
              && (!step.StartFlush? ==> Flushing(pc) && pc1.a == pc.a)
              && (step.Send? ==> pc1.sent == pc.sent + {step.target})
              && (!step.StartFlush? && !step.Send? ==> pc1.sent == pc.sent)
  {
  }

  lemma OwnFlushPc(s: State, step: Step)
    requires Enabled(s, step)
    ensures |Apply(s, step).cpus| == |s.cpus| && |Apply(s, step).spaces| == |s.spaces|
    ensures var pc, pc1 := s.cpus[step.c].pc, Apply(s, step).cpus[step.c].pc;
            Flushing(pc1) ==>
              && (step.StartFlush? ==> pc1.Sending? && pc.Locked? && IsSpace(s, pc.a) && pc1.a == pc.a && pc1.todo == s.spaces[pc.a].usedBy - {step.c} && pc1.sent == {})
              && (step.Send? ==> pc.Sending? && pc1 == pc.(todo := pc.todo - {step.target}, sent := pc.sent + {step.target}) && step.target in pc.todo)
              && (step.FlushOwn? ==> pc.Sending? && pc.todo == {} && pc1.Waiting? && pc1.a == pc.a && pc1.sent == pc.sent)
              && (!step.StartFlush? && !step.Send? && !step.FlushOwn? ==> pc1 == pc)
  {
  }

  lemma OwnMembersStay(s: State, step: Step, a: Space)
    requires Enabled(s, step) && a < |s.spaces|
    ensures |Apply(s, step).cpus| == |s.cpus| && |Apply(s, step).spaces| == |s.spaces|
    ensures Flushing(Apply(s, step).cpus[step.c].pc) ==> Apply(s, step).spaces[a].usedBy == s.spaces[a].usedBy
  {
  }

  lemma OwnTargets(s: State, step: Step)
    requires Enabled(s, step)
    requires var pc := s.cpus[step.c].pc; Flushing(pc) ==> pc.a < |s.spaces| && TargetsOk(pc, s.spaces[pc.a].usedBy - {step.c})
    ensures |Apply(s, step).cpus| == |s.cpus| && |Apply(s, step).spaces| == |s.spaces|
    ensures var s1 := Apply(s, step);
            var pc1 := s1.cpus[step.c].pc;
            Flushing(pc1) ==> pc1.a < |s1.spaces| && TargetsOk(pc1, s1.spaces[pc1.a].usedBy - {step.c})
  {
    hide Apply, Enabled;
    StepSizes(s, step);
    OwnFlushPc(s, step);
    var pc1 := Apply(s, step).cpus[step.c].pc;
    if Flushing(pc1) {
      OwnMembersStay(s, step, pc1.a);
    }
  }

  lemma OwnAck(s: State, step: Step)
    requires Enabled(s, step)
    requires var pc := s.cpus[step.c].pc;
             Flushing(pc) ==> pc.a < |s.spaces| && (s.cpus[step.c].cur != Some(pc.a) || !s.cpus[step.c].handler.Invalidated?)
    ensures |Apply(s, step).cpus| == |s.cpus| && |Apply(s, step).spaces| == |s.spaces|
    ensures var s1 := Apply(s, step);
            var pc1 := s1.cpus[step.c].pc;
            Flushing(pc1) && pc1.a < |s.spaces| ==> s1.spaces[pc1.a].ack == if step.StartFlush? then 0 else s.spaces[pc1.a].ack
  {
  }

  /** A step changes who is busy only through a request sent or a handler finished. */
  lemma BusyChanges(s: State, step: Step, t: Cpu)
    requires Enabled(s, step) && t < |s.cpus|
    ensures |Apply(s, step).cpus| == |s.cpus|
    ensures Busy(Apply(s, step).cpus[t]) <==>
            (step.Send? && step.target == t) || (Busy(s.cpus[t]) && !(step.Acknowledge? && step.c == t && !s.cpus[t].wants))
  {
  }

  /** A CPU is the target of one flush only. */
  lemma OneFlush(s: State, w: Cpu, t: Cpu)
    requires Inv(s) && w < |s.cpus| && Flushing(s.cpus[w].pc)
    requires t in s.cpus[w].pc.sent || (s.cpus[w].pc.Sending? && t in s.cpus[w].pc.todo)
    ensures t < |s.cpus| && t != w && s.cpus[w].pc.a < |s.spaces|
    ensures s.cpus[t].cur == Some(s.cpus[w].pc.a) && s.spaces[s.cpus[w].pc.a].writer == Some(w)
  {
    hide Freshness, Requests;
    var a := s.cpus[w].pc.a;
    assert CpuOk(s, w) && FlushOk(s, w) && LockOk(s, a) && PairOk(s, w, a);
    assert t in s.spaces[a].usedBy;
    assert PairOk(s, t, a);
  }

  /** The flush of `w` and what it counts, before a step. */
  lemma FlushFacts(s: State, w: Cpu) returns (a: Space)
    requires Inv(s) && w < |s.cpus| && Flushing(s.cpus[w].pc)
    ensures a == s.cpus[w].pc.a < |s.spaces| && s.spaces[a].writer == Some(w) && s.spaces[a].readers == {}
    ensures TargetsOk(s.cpus[w].pc, s.spaces[a].usedBy - {w}) && s.spaces[a].ack == |Finished(s, s.cpus[w].pc.sent)|
  {
    hide Freshness, Requests;
    a := s.cpus[w].pc.a;
    assert CpuOk(s, w) && FlushOk(s, w) && LockOk(s, a) && PairOk(s, w, a);
  }

  /** An acknowledging CPU is a target that had not finished, and nobody else's target. */
  lemma AckCounts(s: State, c: Cpu, w: Cpu)
    requires Inv(s) && Enabled(s, Acknowledge(c)) && w < |s.cpus| && Flushing(s.cpus[w].pc)
    ensures s.cpus[c].cur == Some(s.cpus[w].pc.a) <==> c in s.cpus[w].pc.sent
    ensures c != w || s.cpus[c].cur != Some(s.cpus[w].pc.a)
    ensures !s.cpus[c].wants
  {
    hide Freshness, Pairs, Locks, Flushes, Requests;
    assert CpuOk(s, c);
    var a, w1 := RequestFacts(s, c);
    var b := FlushFacts(s, w);
    if c in s.cpus[w].pc.sent {
      OneFlush(s, w, c);
    }
  }

  lemma FinishedSame(s: State, step: Step, sent: set<Cpu>)
    requires Enabled(s, step)
    requires forall t :: t in sent ==> t < |s.cpus|
    requires step.Send? ==> step.target !in sent
    requires step.Acknowledge? ==> step.c !in sent
    ensures Finished(Apply(s, step), sent) == Finished(s, sent)
  {
    hide Enabled, Apply, Busy;
    StepSizes(s, step);
    forall t | t in sent
      ensures Busy(Apply(s, step).cpus[t]) <==> Busy(s.cpus[t])
    {
      BusyChanges(s, step, t);
    }
  }

  lemma FinishedGains(s: State, c: Cpu, sent: set<Cpu>)
    requires Enabled(s, Acknowledge(c)) && c in sent && !s.cpus[c].wants
    requires forall t :: t in sent ==> t < |s.cpus|
    ensures |Finished(Apply(s, Acknowledge(c)), sent)| == |Finished(s, sent)| + 1
  {
    var step := Acknowledge(c);
    hide Enabled, Apply, Busy;
    StepSizes(s, step);
    forall t | t in sent
      ensures Busy(Apply(s, step).cpus[t]) <==> Busy(s.cpus[t]) && t != c
    {
      BusyChanges(s, step, t);
    }
    AckIsBusy(s, c);
    assert Finished(Apply(s, step), sent) == Finished(s, sent) + {c};
  }

  lemma AckIsBusy(s: State, c: Cpu)
    requires Enabled(s, Acknowledge(c))
    ensures Busy(s.cpus[c])
  {
  }

  lemma FinishedSend(s: State, c: Cpu, t: Cpu, sent: set<Cpu>)
    requires Enabled(s, Send(c, t)) && t !in sent
    requires forall u :: u in sent ==> u < |s.cpus|
    ensures Finished(Apply(s, Send(c, t)), sent + {t}) == Finished(s, sent)
  {
    FinishedSame(s, Send(c, t), sent);
    BusyChanges(s, Send(c, t), t);
    hide Enabled, Apply, Busy;
    StepSizes(s, Send(c, t));
  }

  lemma TargetsExist(s: State, w: Cpu)
    requires Inv(s) && w < |s.cpus| && Flushing(s.cpus[w].pc)
    ensures forall t :: t in s.cpus[w].pc.sent ==> t < |s.cpus|
  {
    hide Inv;
    forall t | t in s.cpus[w].pc.sent
      ensures t < |s.cpus|
    {
      OneFlush(s, w, t);
    }
  }

  lemma OtherFlush(s: State, step: Step, w: Cpu)
    requires Inv(s) && Enabled(s, step) && w < |s.cpus| && w != step.c && Flushing(s.cpus[w].pc)
    ensures |Apply(s, step).cpus| == |s.cpus| && FlushOk(Apply(s, step), w)
  {
    hide Inv, Enabled, Apply, Finished, TargetsOk, WriterOk, ReaderOk, MemberOk;
    StepSizes(s, step);
    var a := FlushFacts(s, w);
    PairAt(s, step.c, a);
    MembersStay(s, step, w, a);
    TargetsExist(s, w);
    var sent := s.cpus[w].pc.sent;
    if step.Acknowledge? {
      AckCounts(s, step.c, w);
      if step.c in sent {
        FinishedGains(s, step.c, sent);
      } else {
        FinishedSame(s, step, sent);
      }
    } else {
      if step.Send? && step.target in sent {
        OneFlush(s, w, step.target);
        SendTarget(s, step.c, step.target);
        assert false;
      }
      FinishedSame(s, step, sent);
    }
  }

  lemma SendTarget(s: State, c: Cpu, t: Cpu)
    requires Inv(s) && Enabled(s, Send(c, t))
    ensures s.cpus[c].pc.Sending? && t in s.cpus[c].pc.todo && t !in s.cpus[c].pc.sent
    ensures s.cpus[c].pc.a < |s.spaces| && s.cpus[t].cur == Some(s.cpus[c].pc.a) && s.spaces[s.cpus[c].pc.a].writer == Some(c)
  {
    hide Freshness, Requests;
    OneFlush(s, c, t);
    assert CpuOk(s, c) && FlushOk(s, c);
  }

  lemma OwnFlush(s: State, step: Step)
    requires Inv(s) && Enabled(s, step)
    ensures |Apply(s, step).cpus| == |s.cpus| && FlushOk(Apply(s, step), step.c)
  {
    hide Inv, Enabled, Apply, Finished, TargetsOk, WriterOk, ReaderOk, MemberOk;
    var c := step.c;
    StepSizes(s, step);
    if Flushing(s.cpus[c].pc) {
      var a := FlushFacts(s, c);
      TargetsExist(s, c);
      if step.Acknowledge? {
        AckCounts(s, c, c);
      }
      InvalidatedAcks(s, c);
    }
    OwnSent(s, step);
    OwnTargets(s, step);
    OwnAck(s, step);
    var s1 := Apply(s, step);
    var pc := s1.cpus[c].pc;
    if Flushing(pc) {
      if step.StartFlush? {
        NoneFinished(s1);
      } else if step.Send? {
        SendTarget(s, c, step.target);
        FinishedSend(s, c, step.target, s.cpus[c].pc.sent);
      } else {
        if step.Acknowledge? {
          AckCounts(s, c, c);
        }
        FinishedSame(s, step, pc.sent);
      }
    }
  }

  lemma NoneFinished(s: State)
    ensures Finished(s, {}) == {}
  {
  }

  /** A flusher that is itself being asked answers for another space than the one it flushes. */
  lemma InvalidatedAcks(s: State, c: Cpu)
    requires Inv(s) && c < |s.cpus| && Flushing(s.cpus[c].pc)
    ensures s.cpus[c].cur != Some(s.cpus[c].pc.a) || !s.cpus[c].handler.Invalidated?
  {
    if s.cpus[c].handler.Invalidated? {
      hide Inv;
      assert Busy(s.cpus[c]);
      var a, w := RequestFacts(s, c);
      var b := FlushFacts(s, c);
    }
  }

  // ----- freshness -----

  /** Steps of the CPU itself, its own flushes and page-table changes apart. */
  lemma FreshOwnPlain(s: State, step: Step)
    requires Enabled(s, step) && FreshOk(s, step.c) && CpuOk(s, step.c)
    requires !step.StartFlush? && !step.Send? && !step.FlushOwn? && !step.Free? && !step.ReleaseWrite? && !step.UnmapEntry? && !step.AcquireWrite? && !step.MapEntry?
    ensures |Apply(s, step).cpus| == |s.cpus| && FreshOk(Apply(s, step), step.c)
  {
  }

  lemma FreshOtherSwitch(s: State, step: Step, c: Cpu)
    requires Enabled(s, step) && OfSwitch(step) && c < |s.cpus| && c != step.c && FreshOk(s, c)
    ensures |Apply(s, step).cpus| == |s.cpus| && FreshOk(Apply(s, step), c)
  {
  }

  lemma FreshOtherRest(s: State, step: Step, c: Cpu)
    requires Enabled(s, step) && !OfSwitch(step) && c < |s.cpus| && c != step.c && FreshOk(s, c)
    requires !step.StartFlush? && !step.Send? && !step.FlushOwn? && !step.Free? && !step.ReleaseWrite? && !step.UnmapEntry? && !step.AcquireWrite? && !step.MapEntry?
    ensures |Apply(s, step).cpus| == |s.cpus| && FreshOk(Apply(s, step), c)
  {
  }

  /** Steps of another CPU that is not the one that flushes. */
  lemma FreshOtherPlain(s: State, step: Step, c: Cpu)
    requires Enabled(s, step) && c < |s.cpus| && c != step.c && FreshOk(s, c)
    requires !step.StartFlush? && !step.Send? && !step.FlushOwn? && !step.Free? && !step.ReleaseWrite? && !step.UnmapEntry? && !step.AcquireWrite? && !step.MapEntry?
    ensures |Apply(s, step).cpus| == |s.cpus| && FreshOk(Apply(s, step), c)
  {
    hide Enabled, Apply, FreshOk;
    StepSizes(s, step);
    if OfSwitch(step) {
      FreshOtherSwitch(s, step, c);
    } else {
      FreshOtherRest(s, step, c);
    }
  }

  /** Taking the guard, and changing the table under it. */
  lemma FreshTable(s: State, step: Step, c: Cpu)
    requires Inv(s) && Enabled(s, step) && c < |s.cpus|
    requires step.AcquireWrite? || step.MapEntry? || step.UnmapEntry?
    ensures |Apply(s, step).cpus| == |s.cpus| && FreshOk(Apply(s, step), c)
  {
    hide Flushes, Requests, Locks, Pairs, Freshness;
    FreshAt(s, c);
    PairAt(s, step.c, s.cpus[step.c].pc.a);
  }

  lemma FreshAt(s: State, c: Cpu)
    requires Inv(s) && c < |s.cpus|
    ensures FreshOk(s, c) && CpuOk(s, c)
  {
  }

  /** Every CPU that runs in the space is a target, or the flusher. */
  lemma FreshStartFlush(s: State, w: Cpu, c: Cpu)
    requires Inv(s) && Enabled(s, StartFlush(w)) && c < |s.cpus|
    ensures |Apply(s, StartFlush(w)).cpus| == |s.cpus| && FreshOk(Apply(s, StartFlush(w)), c)
  {
    hide Flushes, Requests, Locks, Pairs, Freshness;
    var a := s.cpus[w].pc.a;
    FreshAt(s, c);
    PairAt(s, w, a);
    PairAt(s, c, a);
    if s.cpus[c].cur.Some? {
      PairAt(s, w, s.cpus[c].cur.value);
    }
  }

  lemma FreshSend(s: State, w: Cpu, t: Cpu, c: Cpu)
    requires Inv(s) && Enabled(s, Send(w, t)) && c < |s.cpus|
    ensures |Apply(s, Send(w, t)).cpus| == |s.cpus| && FreshOk(Apply(s, Send(w, t)), c)
  {
    hide Flushes, Requests, Locks, Pairs, Freshness, Cpus;
    FreshAt(s, c);
    SendTarget(s, w, t);
  }

  lemma FreshFlushOwn(s: State, w: Cpu, c: Cpu)
    requires Inv(s) && Enabled(s, FlushOwn(w)) && c < |s.cpus|
    ensures |Apply(s, FlushOwn(w)).cpus| == |s.cpus| && FreshOk(Apply(s, FlushOwn(w)), c)
  {
    hide Flushes, Requests, Locks, Pairs, Freshness, Cpus;
    FreshAt(s, c);
    FreshAt(s, w);
    PairAt(s, w, s.cpus[w].pc.a);
    if s.cpus[c].cur.Some? {
      PairAt(s, w, s.cpus[c].cur.value);
    }
  }

  /** When the flusher frees the queued frames, nothing stale is left in the space. */
  lemma FreshFree(s: State, w: Cpu, c: Cpu)
    requires Inv(s) && Enabled(s, Free(w)) && c < |s.cpus|
    ensures |Apply(s, Free(w)).cpus| == |s.cpus| && FreshOk(Apply(s, Free(w)), c)
    ensures s.cpus[w].pc.a < |s.spaces| && !MayBeStale(s, s.cpus[w].pc.a, c)
  {
    hide Flushes, Requests, Locks, Pairs, Freshness, Cpus;
    FreshAt(s, c);
    FreeMeansFinished(s, w);
    PairAt(s, w, s.cpus[w].pc.a);
  }

  lemma FreshRelease(s: State, w: Cpu, c: Cpu)
    requires Inv(s) && Enabled(s, ReleaseWrite(w)) && c < |s.cpus|
    ensures |Apply(s, ReleaseWrite(w)).cpus| == |s.cpus| && FreshOk(Apply(s, ReleaseWrite(w)), c)
  {
    hide Flushes, Requests, Locks, Pairs, Freshness, Cpus;
    FreshAt(s, c);
    PairAt(s, w, s.cpus[w].pc.a);
  }

  lemma StepFresh(s: State, step: Step, c: Cpu)
    requires Inv(s) && Enabled(s, step) && c < |s.cpus|
    ensures |Apply(s, step).cpus| == |s.cpus| && FreshOk(Apply(s, step), c)
  {
    hide Inv, Enabled, Apply, FreshOk, CpuOk, MayBeStale;
    match step
    case StartFlush(w) => FreshStartFlush(s, w, c);
    case Send(w, t) => FreshSend(s, w, t, c);
    case FlushOwn(w) => FreshFlushOwn(s, w, c);
    case Free(w) => FreshFree(s, w, c);
    case ReleaseWrite(w) => FreshRelease(s, w, c);
    case AcquireWrite(_) => FreshTable(s, step, c);
    case MapEntry(_, _, _) => FreshTable(s, step, c);
    case UnmapEntry(_, _) => FreshTable(s, step, c);
    case _ =>
      FreshAt(s, c);
      if c == step.c {
        FreshOwnPlain(s, step);
      } else {
        FreshOtherPlain(s, step, c);
      }
  }

  // ----- the whole invariant -----

  lemma StepFlush(s: State, step: Step, w: Cpu)
    requires Inv(s) && Enabled(s, step) && w < |s.cpus|
    ensures |Apply(s, step).cpus| == |s.cpus| && FlushOk(Apply(s, step), w)
  {
    hide Inv, Enabled, Apply, TargetsOk, Finished;
    StepSizes(s, step);
    if w == step.c {
      OwnFlush(s, step);
    } else if Flushing(s.cpus[w].pc) {
      OtherFlush(s, step, w);
    } else {
      OtherPc(s, step, w);
    }
  }

  lemma OtherPc(s: State, step: Step, w: Cpu)
    requires Enabled(s, step) && w < |s.cpus| && w != step.c
    ensures |Apply(s, step).cpus| == |s.cpus| && Apply(s, step).cpus[w].pc == s.cpus[w].pc
  {
  }

  /** Every step keeps the invariant. */
  lemma StepInv(s: State, step: Step)
    requires Inv(s) && Enabled(s, step)
    ensures Inv(Apply(s, step))
  {
    hide Enabled, Apply, PairOk, CpuOk, LockOk, RequestOk, FlushOk, FreshOk;
    StepSizes(s, step);
    StepPairs(s, step);
    StepLocks(s, step);
    StepCpus(s, step);
    forall t | 0 <= t < |s.cpus|
      ensures RequestOk(Apply(s, step), t) && FlushOk(Apply(s, step), t) && FreshOk(Apply(s, step), t)
    {
      StepRequest(s, step, t);
      StepFlush(s, step, t);
      StepFresh(s, step, t);
    }
  }
}
