/**
 What every step of a scheme call keeps, and what holds over whole runs.
 */
module SchemeProofs {
  import opened Common
  import opened SchemeCalls

  // ----- slots -----

  /** The tag whose slot a step of a caller may change: its own. */
  function TagOf(s: State, step: Step): Tag
    requires Enabled(s, step) && !step.Read? && !step.Respond? && !step.ProvideMmap?
  {
    if step.NextId? then step.t else s.callers[step.k].tag
  }

  /** What a step of a caller leaves alone. */
  lemma CallerStepFrame(s: State, step: Step)
    requires Enabled(s, step) && !step.Read? && !step.Respond? && !step.ProvideMmap?
    ensures var s1 := Apply(s, step);
            && s1.callers == s.callers[step.k := s1.callers[step.k]] && s1.given == s.given
            && (forall u :: u != TagOf(s, step) ==> (u in s1.slots <==> u in s.slots) && (u in s1.slots ==> s1.slots[u] == s.slots[u]))
    ensures if step.NextId? then step.k !in s.callers && TagOf(s, step) !in s.slots else step.k in s.callers && TagOf(s, step) == s.callers[step.k].tag
    ensures step.Release? ==> Apply(s, step).slots == s.slots
    ensures step.k in s.callers && s.callers[step.k].phase.Done? ==> Apply(s, step).slots == s.slots
  {
  }

  /** The slot of the caller itself. */
  lemma OwnStepSlot(s: State, step: Step)
    requires Enabled(s, step) && !step.Read? && !step.Respond? && !step.ProvideMmap? && TagOf(s, step) in Apply(s, step).slots
    requires TagOf(s, step) in s.slots ==> SlotOk(s, TagOf(s, step))
    requires step.k in s.callers ==> CallerOk(s, step.k)
    requires forall k :: k in s.given ==> k in s.callers
    ensures SlotOk(Apply(s, step), TagOf(s, step))
  {
  }

  /** Any other slot belongs to another call. */
  lemma OtherStepSlot(s: State, step: Step, t: Tag)
    requires Enabled(s, step) && !step.Read? && !step.Respond? && !step.ProvideMmap? && t != TagOf(s, step)
    requires t in Apply(s, step).slots && (t in s.slots ==> SlotOk(s, t))
    ensures SlotOk(Apply(s, step), t)
  {
    hide Enabled, Apply;
    CallerStepFrame(s, step);
  }

  lemma CallerStepSlot(s: State, step: Step, t: Tag)
    requires Slots(s) && Callers(s) && Enabled(s, step) && Orderly(s, step) && t in Apply(s, step).slots
    requires !step.Read? && !step.Respond? && !step.ProvideMmap?
    ensures SlotOk(Apply(s, step), t)
  {
    hide Enabled, Apply, SlotOk, CallerOk;
    if t == TagOf(s, step) {
      OwnStepSlot(s, step);
    } else {
      CallerStepFrame(s, step);
      OtherStepSlot(s, step, t);
    }
  }

  lemma RespondSlot(s: State, t0: Tag, a: Answer, alive: bool, t: Tag)
    requires t0 in s.owed && AwaitsAnswer(s, t0, s.owed[t0]) && SlotOk(s, t0)
    requires t in AfterRespond(s, t0, a, alive).slots && t in s.slots && SlotOk(s, t)
    ensures SlotOk(AfterRespond(s, t0, a, alive), t)
  {
  }

  lemma SchemeStepSlot(s: State, step: Step, t: Tag)
    requires Slots(s) && Owed(s) && Enabled(s, step) && Orderly(s, step) && t in Apply(s, step).slots
    requires step.Read? || step.Respond? || step.ProvideMmap?
    ensures SlotOk(Apply(s, step), t)
  {
    hide Slots, Owed, SlotFits;
    InSlots(s, step, t);
    TagSlot(s, t);
    if step.Respond? {
      OwedAt(s, step.t);
      TagSlot(s, step.t);
      RespondSlot(s, step.t, step.a, step.alive, t);
    }
  }

  lemma InSlots(s: State, step: Step, t: Tag)
    requires Enabled(s, step) && Orderly(s, step) && t in Apply(s, step).slots && (step.Read? || step.Respond? || step.ProvideMmap?)
    ensures t in s.slots
  {
  }

  lemma OwedAt(s: State, t: Tag)
    requires Owed(s)
    ensures t in s.owed ==> AwaitsAnswer(s, t, s.owed[t])
    ensures t in s.owedMmap ==> AwaitsMmap(s, t, s.owedMmap[t])
  {
  }

  // ----- callers -----

  lemma TakeAnswerCaller(s: State, k: Call)
    requires Enabled(s, TakeAnswer(k)) && CallerOk(s, k) && SlotOk(s, s.callers[k].tag)
    ensures k in Apply(s, TakeAnswer(k)).callers && CallerOk(Apply(s, TakeAnswer(k)), k)
  {
  }

  /** The steps before the call sleeps. */
  predicate Early(step: Step) {
    step.NextId? || step.Unmounted? || step.Enter? || step.SendRequest? || step.SendMmap?
  }

  lemma EarlyStepCaller(s: State, step: Step)
    requires Enabled(s, step) && Early(step)
    requires step.k in s.callers ==> CallerOk(s, step.k)
    requires forall k :: k in s.given ==> k in s.callers
    ensures step.k in Apply(s, step).callers && CallerOk(Apply(s, step), step.k)
  {
  }

  lemma LateStepCaller(s: State, step: Step)
    requires Enabled(s, step) && !Early(step) && !step.Read? && !step.Respond? && !step.ProvideMmap? && !step.TakeAnswer?
    requires step.k in s.callers ==> CallerOk(s, step.k)
    ensures step.k in Apply(s, step).callers && CallerOk(Apply(s, step), step.k)
  {
  }

  /** Any other step of the call itself. */
  lemma OwnStepCaller(s: State, step: Step)
    requires Enabled(s, step) && !step.Read? && !step.Respond? && !step.ProvideMmap? && !step.TakeAnswer?
    requires step.k in s.callers ==> CallerOk(s, step.k)
    requires forall k :: k in s.given ==> k in s.callers
    ensures step.k in Apply(s, step).callers && CallerOk(Apply(s, step), step.k)
  {
    hide Enabled, Apply, CallerOk;
    if Early(step) {
      EarlyStepCaller(s, step);
    } else {
      LateStepCaller(s, step);
    }
  }

  /** A step of another call, which has another tag while both have a slot. */
  lemma OtherStepCaller(s: State, step: Step, k: Call)
    requires Enabled(s, step) && !step.Read? && !step.Respond? && !step.ProvideMmap?
    requires k in s.callers && step.k != k && CallerOk(s, k)
    requires step.k in s.callers ==> CallerOk(s, step.k)
    ensures k in Apply(s, step).callers && CallerOk(Apply(s, step), k)
  {
    hide Enabled, Apply;
    CallerStepFrame(s, step);
  }

  lemma HasAnswer(s: State, k: Call)
    requires Enabled(s, TakeAnswer(k))
    ensures k in s.callers && s.callers[k].tag in s.slots
  {
  }

  lemma CallerStepCaller(s: State, step: Step, k: Call)
    requires Slots(s) && Callers(s) && Enabled(s, step) && Orderly(s, step) && k in Apply(s, step).callers
    requires !step.Read? && !step.Respond? && !step.ProvideMmap?
    ensures CallerOk(Apply(s, step), k)
  {
    hide Slots, Enabled, Apply, CallerOk, SlotOk;
    CallerStepFrame(s, step);
    if k == step.k {
      if step.TakeAnswer? {
        TagSlot(s, s.callers[k].tag);
        HasAnswer(s, k);
        TakeAnswerCaller(s, k);
      } else {
        OwnStepCaller(s, step);
      }
    } else {
      OtherStepCaller(s, step, k);
    }
  }

  lemma TagSlot(s: State, t: Tag)
    requires Slots(s)
    ensures t in s.slots ==> SlotOk(s, t)
  {
  }

  lemma RespondCaller(s: State, t0: Tag, a: Answer, alive: bool, k: Call)
    requires t0 in s.owed && Enabled(s, Respond(t0, a, alive)) && AwaitsAnswer(s, t0, s.owed[t0]) && SlotOk(s, t0)
    requires k in s.callers && CallerOk(s, k)
    ensures CallerOk(AfterRespond(s, t0, a, alive), k)
  {
  }

  lemma ProvideCaller(s: State, t: Tag, k: Call)
    requires t in s.owedMmap && Enabled(s, ProvideMmap(t)) && (t in s.slots ==> SlotOk(s, t)) && k in s.callers && CallerOk(s, k)
    ensures CallerOk(Apply(s, ProvideMmap(t)), k)
  {
  }

  lemma ReadCaller(s: State, k: Call)
    requires Enabled(s, Read) && k in s.callers && CallerOk(s, k)
    ensures k in Apply(s, Read).callers && CallerOk(Apply(s, Read), k)
  {
  }

  lemma SchemeStepCaller(s: State, step: Step, k: Call)
    requires Slots(s) && Callers(s) && Owed(s) && Enabled(s, step) && Orderly(s, step) && k in s.callers
    requires step.Read? || step.Respond? || step.ProvideMmap?
    ensures k in Apply(s, step).callers && CallerOk(Apply(s, step), k)
  {
    assert CallerOk(s, k);
    hide Slots, Owed, Callers, SlotFits, CallerOk, SlotOk, Enabled, AfterRespond;
    match step
    case Respond(t, a, alive) =>
      RespondIs(s, t, a, alive);
      OwedAt(s, t);
      TagSlot(s, t);
      RespondCaller(s, t, a, alive, k);
    case ProvideMmap(t) =>
      TagSlot(s, t);
      ProvideCaller(s, t, k);
    case Read =>
      ReadCaller(s, k);
  }

  lemma RespondIs(s: State, t: Tag, a: Answer, alive: bool)
    requires Enabled(s, Respond(t, a, alive))
    ensures Apply(s, Respond(t, a, alive)) == AfterRespond(s, t, a, alive)
    ensures AfterRespond(s, t, a, alive).callers == s.callers
  {
  }

  lemma StepGiven(s: State, step: Step)
    requires Slots(s) && Callers(s) && Owed(s) && Enabled(s, step) && Orderly(s, step)
    ensures forall k :: k in Apply(s, step).given ==> k in Apply(s, step).callers
  {
    if step.Respond? {
      assert AwaitsAnswer(s, step.t, s.owed[step.t]);
      assert SlotOk(s, step.t);
    }
  }

  // ----- what is owed, and what is queued -----

  lemma SchemeStepAwaits(s: State, step: Step, t: Tag, k: Call)
    requires Enabled(s, step) && Orderly(s, step) && AwaitsAnswer(s, t, k) && (step.Read? || step.Respond? || step.ProvideMmap?)
    requires step.Respond? ==> step.t != t
    ensures AwaitsAnswer(Apply(s, step), t, k)
  {
  }

  lemma CallerStepAwaits(s: State, step: Step, t: Tag, k: Call)
    requires Enabled(s, step) && Orderly(s, step) && AwaitsAnswer(s, t, k) && !step.Read? && !step.Respond? && !step.ProvideMmap?
    requires SlotOk(s, t) && CallerOk(s, k) && (step.k in s.callers ==> CallerOk(s, step.k))
    ensures AwaitsAnswer(Apply(s, step), t, k)
  {
  }

  lemma StepAwaits(s: State, step: Step, t: Tag, k: Call)
    requires Slots(s) && Callers(s) && Enabled(s, step) && Orderly(s, step) && AwaitsAnswer(s, t, k)
    requires step.Respond? ==> step.t != t
    ensures AwaitsAnswer(Apply(s, step), t, k)
  {
    assert SlotOk(s, t) && CallerOk(s, k);
    hide Slots, Enabled, Apply, CallerOk, SlotOk;
    if step.Read? || step.Respond? || step.ProvideMmap? {
      SchemeStepAwaits(s, step, t, k);
    } else {
      CallerStepAwaits(s, step, t, k);
    }
  }

  lemma StepAwaitsMmap(s: State, step: Step, t: Tag, k: Call)
    requires Slots(s) && Callers(s) && Enabled(s, step) && Orderly(s, step) && AwaitsMmap(s, t, k)
    requires step.ProvideMmap? ==> step.t != t
    ensures AwaitsMmap(Apply(s, step), t, k)
  {
    hide Enabled, Apply, SlotOk, CallerOk;
    StepAwaitsMmapAt(s, step, t, k);
  }

  lemma StepAwaitsMmapAt(s: State, step: Step, t: Tag, k: Call)
    requires Enabled(s, step) && Orderly(s, step) && AwaitsMmap(s, t, k) && SlotOk(s, t)
    requires step.ProvideMmap? ==> step.t != t
    requires !step.Read? && !step.Respond? && !step.ProvideMmap? && step.k in s.callers ==> CallerOk(s, step.k)
    ensures AwaitsMmap(Apply(s, step), t, k)
  {
  }

  /** The owed answers after a step: those before it, a request just read, or less the one given. */
  lemma OwedAfter(s: State, step: Step, t: Tag)
    requires Enabled(s, step) && Orderly(s, step) && t in Apply(s, step).owed
    ensures (t in s.owed && Apply(s, step).owed[t] == s.owed[t])
            || (step.Read? && s.queue != [] && s.queue[0] == Request(t, Apply(s, step).owed[t]))
    ensures step.Respond? && step.t == t ==> !(t in s.slots && s.slots[t].Waiting?)
  {
  }

  lemma StepOwed(s: State, step: Step, t: Tag)
    requires Inv(s) && Enabled(s, step) && Orderly(s, step) && t in Apply(s, step).owed
    ensures AwaitsAnswer(Apply(s, step), t, Apply(s, step).owed[t])
  {
    OwedAfter(s, step, t);
    var k := Apply(s, step).owed[t];
    if t in s.owed && s.owed[t] == k {
      assert AwaitsAnswer(s, t, k);
    } else {
      assert MsgOk(s, s.queue[0]);
    }
    hide Slots, Callers, Owed, Queued, Apply, Enabled;
    StepAwaits(s, step, t, k);
  }

  lemma OwedMmapAfter(s: State, step: Step, t: Tag)
    requires Enabled(s, step) && Orderly(s, step) && t in Apply(s, step).owedMmap
    ensures (t in s.owedMmap && Apply(s, step).owedMmap[t] == s.owedMmap[t])
            || (step.Read? && s.queue != [] && s.queue[0] == RequestMmap(t, Apply(s, step).owedMmap[t]))
    ensures step.ProvideMmap? && step.t == t ==> !(t in s.slots && s.slots[t].Fmap?)
  {
  }

  lemma StepOwedMmap(s: State, step: Step, t: Tag)
    requires Inv(s) && Enabled(s, step) && Orderly(s, step) && t in Apply(s, step).owedMmap
    ensures AwaitsMmap(Apply(s, step), t, Apply(s, step).owedMmap[t])
  {
    OwedMmapAfter(s, step, t);
    var k := Apply(s, step).owedMmap[t];
    if t in s.owedMmap && s.owedMmap[t] == k {
      assert AwaitsMmap(s, t, k);
    } else {
      assert MsgOk(s, s.queue[0]);
    }
    hide Slots, Callers, Owed, Queued, Apply, Enabled;
    StepAwaitsMmap(s, step, t, k);
  }

  /** The queue after a step: one message at the back, or one less at the front. */
  lemma QueueAfter(s: State, step: Step)
    requires Enabled(s, step) && Orderly(s, step)
    ensures var q := Apply(s, step).queue;
            if step.Read? then s.queue != [] && q == s.queue[1..]
            else if step.SendRequest? then step.k in s.callers && q == s.queue + [Request(s.callers[step.k].tag, step.k)]
            else if step.SendMmap? then step.k in s.callers && q == s.queue + [RequestMmap(s.callers[step.k].tag, step.k)]
            else if step.SendCancel? then step.k in s.callers && q == s.queue + [Cancel(s.callers[step.k].tag, step.k)]
            else q == s.queue
  {
  }

  /** A message that stays in the queue stays right. */
  lemma OldMsg(s: State, step: Step, i: nat)
    requires Inv(s) && Enabled(s, step) && Orderly(s, step) && i < |s.queue| && (step.Read? ==> i > 0)
    ensures MsgOk(Apply(s, step), s.queue[i])
  {
    var m := s.queue[i];
    assert MsgOk(s, m);
    if step.Read? && !s.queue[0].Cancel? && !m.Cancel? {
      assert s.queue[0].tag != m.tag;
    }
    hide Slots, Callers, Owed, Queued, Apply;
    match m
    case Request(t, k) =>
      StepAwaits(s, step, t, k);
      if t in Apply(s, step).owed {
        OwedAfter(s, step, t);
      }
    case Cancel(_, _) =>
    case RequestMmap(t, k) =>
      StepAwaitsMmap(s, step, t, k);
      if t in Apply(s, step).owedMmap {
        OwedMmapAfter(s, step, t);
      }
  }

  /** A call about to send has nothing queued or owed under its tag. */
  lemma NothingSentYet(s: State, k: Call, i: nat)
    requires Inv(s) && k in s.callers && (s.callers[k].phase.Entered? || s.callers[k].phase.Preparing?)
    ensures s.callers[k].tag !in s.owed && s.callers[k].tag !in s.owedMmap
    ensures i < |s.queue| && !s.queue[i].Cancel? ==> s.queue[i].tag != s.callers[k].tag
  {
    var t := s.callers[k].tag;
    assert CallerOk(s, k);
    OwedAt(s, t);
    if i < |s.queue| {
      assert MsgOk(s, s.queue[i]);
    }
  }

  lemma NewRequest(s: State, k: Call)
    requires Inv(s) && Enabled(s, SendRequest(k))
    ensures MsgOk(Apply(s, SendRequest(k)), Request(s.callers[k].tag, k))
  {
    assert CallerOk(s, k);
    NothingSentYet(s, k, 0);
  }

  lemma NewMmap(s: State, k: Call)
    requires Inv(s) && Enabled(s, SendMmap(k))
    ensures MsgOk(Apply(s, SendMmap(k)), RequestMmap(s.callers[k].tag, k))
  {
    NothingSentYet(s, k, 0);
  }

  /** Each message of the new queue is an old one or the one just sent. */
  lemma NewQueueAt(s: State, step: Step, i: nat)
    requires Inv(s) && Enabled(s, step) && Orderly(s, step) && i < |Apply(s, step).queue|
    ensures MsgOk(Apply(s, step), Apply(s, step).queue[i])
  {
    hide Inv, Apply, MsgOk, Enabled;
    QueueAfter(s, step);
    var shift := if step.Read? then 1 else 0;
    if i + shift < |s.queue| {
      OldMsg(s, step, i + shift);
    } else if step.SendRequest? {
      NewRequest(s, step.k);
    } else if step.SendMmap? {
      NewMmap(s, step.k);
    } else {
      CancelIsFine(Apply(s, step), s.callers[step.k].tag, step.k);
    }
  }

  lemma NewQueueDistinct(s: State, step: Step, i: nat, j: nat)
    requires Inv(s) && Enabled(s, step) && Orderly(s, step) && i < j < |Apply(s, step).queue|
    ensures var q := Apply(s, step).queue; !q[i].Cancel? && !q[j].Cancel? ==> q[i].tag != q[j].tag
  {
    hide Inv, Apply, Enabled;
    QueueAfter(s, step);
    var shift := if step.Read? then 1 else 0;
    if j + shift < |s.queue| {
      QueueDistinct(s, i + shift, j + shift);
    } else if step.SendRequest? || step.SendMmap? {
      SendsFrom(s, step);
      NothingSentYet(s, step.k, i);
    }
  }

  lemma StepQueued(s: State, step: Step)
    requires Inv(s) && Enabled(s, step) && Orderly(s, step)
    ensures Queued(Apply(s, step))
  {
    hide Inv, Apply, MsgOk, Enabled;
    var s1 := Apply(s, step);
    forall i | 0 <= i < |s1.queue|
      ensures MsgOk(s1, s1.queue[i])
    {
      NewQueueAt(s, step, i);
    }
    forall i, j | 0 <= i < j < |s1.queue|
      ensures !s1.queue[i].Cancel? && !s1.queue[j].Cancel? ==> s1.queue[i].tag != s1.queue[j].tag
    {
      NewQueueDistinct(s, step, i, j);
    }
  }

  lemma CancelIsFine(s: State, t: Tag, k: Call)
    ensures MsgOk(s, Cancel(t, k))
  {
  }

  lemma QueueDistinct(s: State, i: nat, j: nat)
    requires Inv(s) && i < j < |s.queue|
    ensures !s.queue[i].Cancel? && !s.queue[j].Cancel? ==> s.queue[i].tag != s.queue[j].tag
  {
  }

  lemma SendsFrom(s: State, step: Step)
    requires Enabled(s, step) && Orderly(s, step) && (step.SendRequest? || step.SendMmap?)
    ensures step.k in s.callers && (s.callers[step.k].phase.Entered? || s.callers[step.k].phase.Preparing?)
  {
  }

  // ----- nothing is lost -----

  /** A call that awaits an answer did so before, unless it has just sent its request. */
  lemma AwaitsBefore(s: State, step: Step, t: Tag, k: Call)
    requires Enabled(s, step) && Orderly(s, step) && AwaitsAnswer(Apply(s, step), t, k)
    requires !step.Read? && !step.Respond? && !step.ProvideMmap? && step.k in s.callers ==> CallerOk(s, step.k)
    requires t in s.slots ==> SlotOk(s, t)
    ensures AwaitsAnswer(s, t, k) || (step == SendRequest(k) && k in s.callers && s.callers[k].tag == t)
  {
  }

  lemma MmapBefore(s: State, step: Step, t: Tag, k: Call)
    requires Enabled(s, step) && Orderly(s, step) && AwaitsMmap(Apply(s, step), t, k)
    ensures AwaitsMmap(s, t, k) || (step == SendMmap(k) && k in s.callers && s.callers[k].tag == t)
  {
  }

  /** A message leaves the queue only by being read, and then its answer is owed. */
  lemma MessageStays(s: State, step: Step, m: Msg)
    requires Enabled(s, step) && Orderly(s, step) && m in s.queue
    ensures m in Apply(s, step).queue || (step.Read? && s.queue[0] == m)
    ensures step.Read? && s.queue[0] == m && m.Request? ==> m.tag in Apply(s, step).owed
    ensures step.Read? && s.queue[0] == m && m.RequestMmap? ==> m.tag in Apply(s, step).owedMmap
  {
    QueueAfter(s, step);
    if step.Read? && s.queue[0] != m {
      var i :| 0 <= i < |s.queue| && s.queue[i] == m;
      assert s.queue[1..][i - 1] == m;
    }
  }

  lemma OwedStays(s: State, step: Step, t: Tag)
    requires Enabled(s, step) && Orderly(s, step)
    ensures t in s.owed ==> t in Apply(s, step).owed || (step.Respond? && step.t == t && t in s.slots && s.slots[t].Waiting?)
    ensures t in s.owedMmap ==> t in Apply(s, step).owedMmap || (step.ProvideMmap? && step.t == t && t in s.slots && s.slots[t].Fmap?)
  {
  }

  lemma Sent(s: State, step: Step)
    requires Enabled(s, step) && Orderly(s, step)
    ensures step.SendRequest? ==> step.k in s.callers && Request(s.callers[step.k].tag, step.k) in Apply(s, step).queue
    ensures step.SendMmap? ==> step.k in s.callers && RequestMmap(s.callers[step.k].tag, step.k) in Apply(s, step).queue
  {
    QueueAfter(s, step);
  }

  lemma AnsweredNotWaiting(s: State, t: Tag, a: Answer, alive: bool, k: Call)
    requires t in s.owed && Enabled(s, Respond(t, a, alive)) && t in s.slots && s.slots[t].Waiting?
    ensures !AwaitsAnswer(Apply(s, Respond(t, a, alive)), t, k)
  {
  }

  lemma ProvidedNotWaiting(s: State, t: Tag, k: Call)
    requires t in s.owedMmap && Enabled(s, ProvideMmap(t)) && t in s.slots && s.slots[t].Fmap?
    ensures !AwaitsMmap(Apply(s, ProvideMmap(t)), t, k)
  {
  }

  lemma StepAnswerableAt(s: State, step: Step, t: Tag, k: Call)
    requires Inv(s) && Enabled(s, step) && Orderly(s, step) && AwaitsAnswer(Apply(s, step), t, k)
    ensures t in Apply(s, step).owed || Request(t, k) in Apply(s, step).queue
  {
    assert t in s.slots ==> SlotOk(s, t);
    hide Apply, Enabled, CallerOk, SlotOk, Owed, Queued, Cancels;
    AwaitsBefore(s, step, t, k);
    Sent(s, step);
    if AwaitsAnswer(s, t, k) {
      OwedStays(s, step, t);
      if t !in s.owed {
        MessageStays(s, step, Request(t, k));
      } else if t !in Apply(s, step).owed {
        AnsweredNotWaiting(s, t, step.a, step.alive, k);
      }
    }
  }

  lemma StepMmapAt(s: State, step: Step, t: Tag, k: Call)
    requires Inv(s) && Enabled(s, step) && Orderly(s, step) && AwaitsMmap(Apply(s, step), t, k)
    ensures t in Apply(s, step).owedMmap || RequestMmap(t, k) in Apply(s, step).queue
  {
    hide Apply, Enabled, CallerOk, SlotOk, Owed, Queued, Cancels, Slots, Callers;
    MmapBefore(s, step, t, k);
    Sent(s, step);
    if AwaitsMmap(s, t, k) {
      OwedStays(s, step, t);
      if t !in s.owedMmap {
        MessageStays(s, step, RequestMmap(t, k));
      } else if t !in Apply(s, step).owedMmap {
        ProvidedNotWaiting(s, t, k);
      }
    }
  }

  lemma StepAnswerable(s: State, step: Step)
    requires Inv(s) && Enabled(s, step) && Orderly(s, step)
    ensures Answerable(Apply(s, step))
  {
    hide Inv, Apply, Enabled;
    var s1 := Apply(s, step);
    forall t | t in s1.slots && AwaitsAnswer(s1, t, s1.slots[t].call)
      ensures t in s1.owed || Request(t, s1.slots[t].call) in s1.queue
    {
      StepAnswerableAt(s, step, t, s1.slots[t].call);
    }
    forall t | t in s1.slots && s1.slots[t].Fmap?
      ensures t in s1.owedMmap || RequestMmap(t, s1.slots[t].call) in s1.queue
    {
      StepMmapAt(s, step, t, s1.slots[t].call);
    }
  }

  // ----- cancelations -----

  /** A new cancelation names the call that holds the tag. */
  lemma NewCancel(s: State, k: Call)
    requires Inv(s) && Enabled(s, SendCancel(k))
    ensures var t := s.callers[k].tag;
            && (t in s.owed ==> s.owed[t] == k) && t !in s.owedMmap
            && (forall j | 0 <= j < |s.queue| :: s.queue[j].tag == t ==> !s.queue[j].RequestMmap? && (s.queue[j].Request? ==> s.queue[j].call == k))
  {
    var t := s.callers[k].tag;
    assert CallerOk(s, k);
    OwedAt(s, t);
    forall j | 0 <= j < |s.queue| && s.queue[j].tag == t
      ensures !s.queue[j].RequestMmap? && (s.queue[j].Request? ==> s.queue[j].call == k)
    {
      assert MsgOk(s, s.queue[j]);
    }
  }

  /** What is owed after a step to a tag: as before, or to the request just read. */
  lemma CancelOwed(s: State, step: Step, t: Tag, k: Call)
    requires Enabled(s, step) && Orderly(s, step) && (t in s.owed ==> s.owed[t] == k) && t !in s.owedMmap
    requires step.Read? && s.queue[0].tag == t ==> !s.queue[0].RequestMmap? && (s.queue[0].Request? ==> s.queue[0].call == k)
    ensures t in Apply(s, step).owed ==> Apply(s, step).owed[t] == k
    ensures t !in Apply(s, step).owedMmap
  {
    hide Apply;
    if t in Apply(s, step).owed {
      OwedAfter(s, step, t);
    }
    if t in Apply(s, step).owedMmap {
      OwedMmapAfter(s, step, t);
    }
  }

  lemma OldCancel(s: State, step: Step, i: nat)
    requires Inv(s) && Enabled(s, step) && Orderly(s, step) && i < |s.queue| && s.queue[i].Cancel? && (step.Read? ==> i > 0)
    ensures var n := if step.Read? then i - 1 else i;
            n < |Apply(s, step).queue| && CancelOk(Apply(s, step), n)
  {
    hide Inv, Apply, Enabled;
    CancelAt(s, i);
    QueueAfter(s, step);
    ReadIsEnabled(s, step);
    CancelOwed(s, step, s.queue[i].tag, s.queue[i].call);
    var s1 := Apply(s, step);
    var shift := if step.Read? then 1 else 0;
    assert s1.queue[i - shift] == s.queue[i];
    forall j | 0 <= j < i - shift && s1.queue[j].tag == s.queue[i].tag
      ensures !s1.queue[j].RequestMmap? && (s1.queue[j].Request? ==> s1.queue[j].call == s.queue[i].call)
    {
      assert s1.queue[j] == s.queue[j + shift];
    }
  }

  lemma ReadIsEnabled(s: State, step: Step)
    requires Enabled(s, step) && Orderly(s, step)
    ensures step.Read? ==> s.queue != []
  {
  }

  lemma SentCancel(s: State, k: Call)
    requires Inv(s) && Enabled(s, SendCancel(k))
    ensures |Apply(s, SendCancel(k)).queue| == |s.queue| + 1 && CancelOk(Apply(s, SendCancel(k)), |s.queue|)
  {
    hide Inv, Apply;
    NewCancel(s, k);
    QueueAfter(s, SendCancel(k));
    CancelOwed(s, SendCancel(k), s.callers[k].tag, k);
    assert forall j | 0 <= j < |s.queue| :: Apply(s, SendCancel(k)).queue[j] == s.queue[j];
  }

  lemma StepCancelAt(s: State, step: Step, i: nat)
    requires Inv(s) && Enabled(s, step) && Orderly(s, step) && i < |Apply(s, step).queue|
    ensures CancelOk(Apply(s, step), i)
  {
    hide Inv, Apply, Enabled;
    QueueAfter(s, step);
    var shift := if step.Read? then 1 else 0;
    if Apply(s, step).queue[i].Cancel? {
      if i + shift < |s.queue| {
        OldCancel(s, step, i + shift);
      } else {
        SentCancel(s, step.k);
      }
    }
  }

  lemma CancelAt(s: State, i: nat)
    requires Inv(s) && i < |s.queue|
    ensures CancelOk(s, i)
  {
  }

  // ----- whole runs -----

  lemma StepSlots(s: State, step: Step)
    requires Inv(s) && Enabled(s, step) && Orderly(s, step)
    ensures Slots(Apply(s, step))
  {
    hide Enabled, Apply, SlotOk, Queued, Answerable, Cancels;
    forall t | t in Apply(s, step).slots
      ensures SlotOk(Apply(s, step), t)
    {
      if step.Read? || step.Respond? || step.ProvideMmap? {
        SchemeStepSlot(s, step, t);
      } else {
        CallerStepSlot(s, step, t);
      }
    }
  }

  lemma StepCallers(s: State, step: Step)
    requires Inv(s) && Enabled(s, step) && Orderly(s, step)
    ensures Callers(Apply(s, step))
  {
    hide Enabled, Apply, CallerOk, SlotOk, Queued, Answerable, Cancels;
    StepGiven(s, step);
    forall k | k in Apply(s, step).callers
      ensures CallerOk(Apply(s, step), k)
    {
      if step.Read? || step.Respond? || step.ProvideMmap? {
        SameCallers(s, step);
        SchemeStepCaller(s, step, k);
      } else {
        CallerStepCaller(s, step, k);
      }
    }
  }

  lemma StepOwes(s: State, step: Step)
    requires Inv(s) && Enabled(s, step) && Orderly(s, step)
    ensures Owed(Apply(s, step))
  {
    hide Inv, Enabled, Apply;
    var s1 := Apply(s, step);
    forall t | t in s1.owed
      ensures AwaitsAnswer(s1, t, s1.owed[t])
    {
      StepOwed(s, step, t);
    }
    forall t | t in s1.owedMmap
      ensures AwaitsMmap(s1, t, s1.owedMmap[t])
    {
      StepOwedMmap(s, step, t);
    }
  }

  lemma StepCancels(s: State, step: Step)
    requires Inv(s) && Enabled(s, step) && Orderly(s, step)
    ensures Cancels(Apply(s, step))
  {
    hide Inv, Enabled, Apply, CancelOk;
    forall i | 0 <= i < |Apply(s, step).queue|
      ensures CancelOk(Apply(s, step), i)
    {
      StepCancelAt(s, step, i);
    }
  }

  lemma StepInv(s: State, step: Step)
    requires Inv(s) && Enabled(s, step) && Orderly(s, step)
    ensures Inv(Apply(s, step))
  {
    hide Enabled, Apply, Slots, Callers, Owed, Queued, Answerable, Cancels;
    StepSlots(s, step);
    StepCallers(s, step);
    StepOwes(s, step);
    StepQueued(s, step);
    StepAnswerable(s, step);
    StepCancels(s, step);
  }

  lemma SameCallers(s: State, step: Step)
    requires Enabled(s, step) && Orderly(s, step) && (step.Read? || step.Respond? || step.ProvideMmap?)
    ensures Apply(s, step).callers == s.callers
  {
  }

  lemma {:induction false} RunInv(states: seq<State>, steps: seq<Step>, i: nat)
    requires IsRun(states, steps) && i < |states|
    ensures Inv(states[i])
  {
    hide Enabled, Apply;
    if i > 0 {
      hide Inv;
      RunInv(states, steps, i - 1);
      StepInv(states[i - 1], steps[i - 1]);
    }
  }

  /** A tag is not handed out while an answer to it is owed, or its request is still queued. */
  lemma TagNotReused(states: seq<State>, steps: seq<Step>, i: nat)
    requires IsRun(states, steps) && i < |steps| && steps[i].NextId?
    ensures steps[i].t !in states[i].owed && steps[i].t !in states[i].owedMmap
    ensures forall j | 0 <= j < |states[i].queue| :: !states[i].queue[j].Cancel? ==> states[i].queue[j].tag != steps[i].t
  {
    RunInv(states, steps, i);
    var s := states[i];
    OwedAt(s, steps[i].t);
    forall j | 0 <= j < |s.queue| && !s.queue[j].Cancel?
      ensures s.queue[j].tag != steps[i].t
    {
      assert MsgOk(s, s.queue[j]);
    }
  }

  /** An answer goes to the slot of the call whose request the scheme read, and to no other. */
  lemma AnswerReachesItsCall(states: seq<State>, steps: seq<Step>, i: nat)
    requires IsRun(states, steps) && i < |steps| && steps[i].Respond?
    ensures var s, t := states[i], steps[i].t;
            && t in s.slots && s.slots[t].Waiting? && s.slots[t].call == s.owed[t]
            && (forall u :: u != t ==> (u in states[i + 1].slots <==> u in s.slots) && (u in s.slots ==> states[i + 1].slots[u] == s.slots[u]))
  {
    hide Slots, Callers, Queued, Answerable, Cancels, Enabled, Apply;
    RunInv(states, steps, i);
    OwedAt(states[i], steps[i].t);
    RespondIs(states[i], steps[i].t, steps[i].a, steps[i].alive);
  }

  /** Step `j` is the scheme's answer `a` to the request of call `k`. */
  ghost predicate Answers(states: seq<State>, steps: seq<Step>, j: nat, k: Call, a: Answer)
    requires j < |steps| < |states|
  {
    steps[j].Respond? && steps[j].a == a && steps[j].t in states[j].owed && states[j].owed[steps[j].t] == k
  }

  /** Call `k` asked for cancelation in step `j`: it woke up without an answer. */
  predicate AsksToCancel(step: Step, k: Call) {
    step == WakeSpurious(k) || step == WakeKilled(k)
  }

  lemma GivenAfter(s: State, step: Step, k: Call)
    requires Enabled(s, step) && k in Apply(s, step).given
    ensures (k in s.given && Apply(s, step).given[k] == s.given[k])
            || (step.Respond? && step.t in s.owed && s.owed[step.t] == k && Apply(s, step).given[k] == step.a)
  {
  }

  /** What is recorded as given was answered. */
  lemma {:induction false} GivenWasAnswered(states: seq<State>, steps: seq<Step>, i: nat, k: Call) returns (j: nat)
    requires IsAnyRun(states, steps) && i < |states| && k in states[i].given
    ensures j < i && Answers(states, steps, j, k, states[i].given[k])
    decreases i
  {
    hide Enabled, Apply;
    GivenAfter(states[i - 1], steps[i - 1], k);
    if k in states[i - 1].given && states[i].given[k] == states[i - 1].given[k] {
      j := GivenWasAnswered(states, steps, i - 1, k);
    } else {
      j := i - 1;
    }
  }

  lemma FlaggedAfter(s: State, step: Step, k: Call)
    requires Enabled(s, step) && k in Apply(s, step).callers
    requires k in s.callers && InPhase(s, k, Sleeping) && s.callers[k].tag in s.slots && s.slots[s.callers[k].tag].Waiting? ==>
               s.slots[s.callers[k].tag].canceling == s.callers[k].flagged
    ensures Apply(s, step).callers[k].flagged <==> (k in s.callers && s.callers[k].flagged) || AsksToCancel(step, k)
  {
  }

  lemma CancelingIsFlagged(s: State, k: Call)
    requires Inv(s) && SeesWaiting(s, k)
    ensures s.slots[s.callers[k].tag].canceling == s.callers[k].flagged
  {
    hide Owed, Queued, Answerable, Cancels;
    assert CallerOk(s, k);
    assert SlotOk(s, s.callers[k].tag);
  }

  /** A call counts as canceling exactly when it has woken up without an answer. */
  lemma {:induction false} FlaggedIff(states: seq<State>, steps: seq<Step>, i: nat, k: Call)
    requires IsRun(states, steps) && i < |states| && k in states[i].callers
    ensures states[i].callers[k].flagged <==> exists j | 0 <= j < i :: AsksToCancel(steps[j], k)
    decreases i
  {
    hide Enabled, Apply, Inv, AsksToCancel;
    if i > 0 {
      var s, step := states[i - 1], steps[i - 1];
      RunInv(states, steps, i - 1);
      if SeesWaiting(s, k) {
        CancelingIsFlagged(s, k);
      }
      FlaggedAfter(s, step, k);
      if k in s.callers {
        FlaggedIff(states, steps, i - 1, k);
      } else {
        NeverAsked(states, steps, i - 1, k);
      }
    }
  }

  lemma AskerIsThere(s: State, step: Step, k: Call)
    requires Enabled(s, step) && (k in s.callers || AsksToCancel(step, k))
    ensures k in Apply(s, step).callers
  {
  }

  /** Who is not there has not asked. */
  lemma {:induction false} NeverAsked(states: seq<State>, steps: seq<Step>, i: nat, k: Call)
    requires IsAnyRun(states, steps) && i < |states| && k !in states[i].callers
    ensures !exists j | 0 <= j < i :: AsksToCancel(steps[j], k)
    decreases i
  {
    hide Enabled, Apply, AsksToCancel;
    if i > 0 {
      if k in states[i - 1].callers || AsksToCancel(steps[i - 1], k) {
        AskerIsThere(states[i - 1], steps[i - 1], k);
      }
      NeverAsked(states, steps, i - 1, k);
    }
  }

  /** What a call returns is the scheme's answer to its request, unchanged, except that an interruption
      is replaced by an input/output error if the call never woke up without an answer. A call never finds its slot
      gone or misused. */
  lemma ReturnsItsAnswer(states: seq<State>, steps: seq<Step>, i: nat, k: Call) returns (j: nat, a: Answer)
    requires IsRun(states, steps) && i < |states| && k in states[i].callers && states[i].callers[k].phase.Done?
    ensures states[i].callers[k].phase.outcome != BadSlot
    ensures states[i].callers[k].phase.outcome.Answered? ==>
              && j < i && Answers(states, steps, j, k, a)
              && var asked := exists n | 0 <= n < i :: AsksToCancel(steps[n], k);
                 states[i].callers[k].phase.outcome.answer == if a == Regular(EINTR) && !asked then Regular(EIO) else a
  {
    hide Slots, Owed, Queued, Answerable, Cancels, Enabled, Apply, AsksToCancel, Answers;
    RunInv(states, steps, i);
    assert CallerOk(states[i], k);
    j, a := 0, Regular(0);
    if states[i].callers[k].phase.outcome.Answered? {
      a := states[i].given[k];
      j := GivenWasAnswered(states, steps, i, k);
      FlaggedIff(states, steps, i, k);
    }
  }

  /** A cancelation is never taken for another call's: when it is read, whatever the scheme still
      owes under its tag it owes to the call that sent it. */
  lemma CancelMeansItsCall(states: seq<State>, steps: seq<Step>, i: nat)
    requires IsRun(states, steps) && i < |steps| && steps[i].Read? && states[i].queue[0].Cancel?
    ensures var s, m := states[i], states[i].queue[0];
            (m.tag in s.owed ==> s.owed[m.tag] == m.call) && m.tag !in s.owedMmap
  {
    hide Inv;
    RunInv(states, steps, i);
    CancelAt(states[i], 0);
  }

  /** A call that goes on after it has woken up without an answer has sent a cancelation first. */
  ghost predicate CancelKept(steps: seq<Step>, s: State, i: nat, k: Call)
    requires i <= |steps| && k in s.callers
  {
    var c := s.callers[k];
    c.flagged && !c.phase.Cancelling? && c.phase != Done(Killed) ==> exists j | 0 <= j < i :: steps[j] == SendCancel(k)
  }

  lemma CancelStep(s: State, step: Step, k: Call)
    requires Enabled(s, step) && k in Apply(s, step).callers
    requires SeesWaiting(s, k) ==> s.slots[s.callers[k].tag].canceling == s.callers[k].flagged
    ensures var c1 := Apply(s, step).callers[k];
            c1.flagged && !c1.phase.Cancelling? && c1.phase != Done(Killed) ==>
              step == SendCancel(k) || (k in s.callers && s.callers[k].flagged && !s.callers[k].phase.Cancelling? && s.callers[k].phase != Done(Killed))
  {
  }

  /** Over all runs: a call that has asked for cancelation, lives on and sleeps again or returns an
      answer has sent the cancelation. */
  lemma {:induction false} CancelIsSent(states: seq<State>, steps: seq<Step>, i: nat, k: Call)
    requires IsRun(states, steps) && i < |states| && k in states[i].callers
    ensures CancelKept(steps, states[i], i, k)
    decreases i
  {
    hide Enabled, Apply, Inv;
    if i > 0 {
      var s, step := states[i - 1], steps[i - 1];
      RunInv(states, steps, i - 1);
      if SeesWaiting(s, k) {
        CancelingIsFlagged(s, k);
      }
      CancelStep(s, step, k);
      if k in s.callers {
        CancelIsSent(states, steps, i - 1, k);
      }
    }
  }
}
