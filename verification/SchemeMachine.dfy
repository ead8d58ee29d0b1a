/**
 The slab of call states as an object (src/scheme/user.rs): what the callers and the scheme do to it
 in place, one critical section at a time.
 */
module SchemeMachine {
  import opened Common
  import opened SchemeCalls
  import opened SchemeProofs
  import opened SchemeSpans

  /** What a caller that has woken up does next. */
  datatype Wakeup = Return(outcome: Outcome) | CancelFirst | SleepAgain

  datatype RespondError = Accepted | Ebadfd | Einval

  lemma SleeperFindsSlot(s: State, k: Call)
    requires Inv(s) && InPhase(s, k, Sleeping)
    ensures var t := s.callers[k].tag;
            t in s.slots && (s.slots[t].Waiting? || s.slots[t].Responded?) && s.slots[t].call == k
  {
    hide Slots, Owed, Queued, Answerable, Cancels;
    assert CallerOk(s, k);
  }

  lemma TakeAnswerIs(s: State, k: Call)
    requires Enabled(s, TakeAnswer(k))
    ensures var s1 := Apply(s, TakeAnswer(k)); s1.slots == s.slots - {s.callers[k].tag} && s1.queue == s.queue
  {
  }

  lemma WakeKilledIs(s: State, k: Call)
    requires Enabled(s, WakeKilled(k))
    ensures var c := s.callers[k];
            var s1 := Apply(s, WakeKilled(k));
            s1.slots == s.slots[c.tag := Waiting(s.slots[c.tag].call, true, c.guard)] && s1.queue == s.queue
  {
  }

  lemma WakeSpuriousIs(s: State, k: Call)
    requires Enabled(s, WakeSpurious(k))
    ensures var t := s.callers[k].tag;
            var s1 := Apply(s, WakeSpurious(k));
            && s1.slots == (if s.slots[t].canceling then s.slots else s.slots[t := s.slots[t].(canceling := true)])
            && s1.queue == s.queue
  {
  }

  class UserInner {
    var slots: map<Tag, Slot>
    var queue: seq<Msg>
    /** The rest of the model's state: the callers and the records about the scheme. */
    ghost var rest: State

    ghost function View(): State
      reads this
    {
      rest.(slots := slots, queue := queue)
    }

    ghost predicate Valid()
      reads this
    {
      Inv(View()) && SpanInv(View())
    }

    constructor ()
      ensures Valid() && View() == EMPTY_STATE
    {
      slots, queue, rest := map[], [], EMPTY_STATE;
    }

    /** `next_id`: the slab takes the lowest free key. */
    method NextTag(k: Call, ghost captures: bool) returns (t: Tag)
      requires Valid() && k !in View().callers
      modifies this
      ensures t !in old(slots) && View() == Apply(old(View()), NextId(k, t, captures)) && Valid()
    {
      hide Inv, SpanInv;
      ghost var s := View();
      t := FreeKey();
      StepInv(s, NextId(k, t, captures));
      StepSpanInv(s, NextId(k, t, captures));
      slots := slots[t := Placeholder(k)];
      rest := Apply(s, NextId(k, t, captures));
    }

    method FreeKey() returns (t: Tag)
      ensures t !in slots && forall u: Tag :: u < t ==> u in slots
    {
      t := 0;
      ghost var left := slots.Keys;
      while t in slots
        invariant forall u: Tag :: u < t ==> u in slots
        invariant forall u: Tag :: u in slots && t <= u ==> u in left
        decreases left
      {
        left := left - {t};
        t := t + 1;
      }
    }

    /** The critical section that publishes the call, and the request that follows it. */
    method EnterWaiting(k: Call, t: Tag)
      requires Valid() && k in View().callers && View().callers[k].tag == t && Enabled(View(), Enter(k))
      modifies this
      ensures View() == Apply(old(View()), Enter(k)) && Valid()
    {
      hide Inv, SpanInv;
      ghost var s := View();
      StepInv(s, Enter(k));
      StepSpanInv(s, Enter(k));
      slots := slots[t := Waiting(k, false, false)];
      rest := Apply(s, Enter(k));
    }

    method Send(k: Call, t: Tag)
      requires Valid() && k in View().callers && View().callers[k].tag == t && Enabled(View(), SendRequest(k))
      modifies this
      ensures View() == Apply(old(View()), SendRequest(k)) && Valid()
    {
      hide Inv, SpanInv;
      ghost var s := View();
      StepInv(s, SendRequest(k));
      StepSpanInv(s, SendRequest(k));
      queue := queue + [Request(t, k)];
      rest := Apply(s, SendRequest(k));
    }

    /** One round of the caller's loop after a wakeup. `guard` says whether the caller is still
        responsible for a span. */
    method WakeUp(k: Call, t: Tag, killed: bool, guard: bool) returns (r: Wakeup)
      requires Valid() && InPhase(View(), k, Sleeping) && View().callers[k].tag == t && View().callers[k].guard == guard
      modifies this
      ensures Valid()
      ensures t in old(slots) && (old(slots)[t].Waiting? || old(slots)[t].Responded?) && old(slots)[t].call == k
      ensures old(slots)[t].Responded? ==> r == Return(Answered(old(slots)[t].answer)) && View() == Apply(old(View()), TakeAnswer(k))
      ensures old(slots)[t].Waiting? && killed ==> r == Return(Killed) && View() == Apply(old(View()), WakeKilled(k))
      ensures old(slots)[t].Waiting? && !killed ==>
                && r == (if old(slots)[t].canceling then SleepAgain else CancelFirst)
                && View() == Apply(old(View()), WakeSpurious(k))
    {
      hide Inv, SpanInv, Apply;
      ghost var s := View();
      SleeperFindsSlot(s, k);
      var o := slots[t];
      if o.Responded? {
        StepInv(s, TakeAnswer(k));
        StepSpanInv(s, TakeAnswer(k));
        TakeAnswerIs(s, k);
        slots := slots - {t};
        rest := Apply(s, TakeAnswer(k));
        return Return(Answered(o.answer));
      }
      if killed {
        StepInv(s, WakeKilled(k));
        StepSpanInv(s, WakeKilled(k));
        WakeKilledIs(s, k);
        slots := slots[t := Waiting(o.call, true, guard)];
        rest := Apply(s, WakeKilled(k));
        return Return(Killed);
      }
      StepInv(s, WakeSpurious(k));
      StepSpanInv(s, WakeSpurious(k));
      WakeSpuriousIs(s, k);
      rest := Apply(s, WakeSpurious(k));
      if o.canceling {
        return SleepAgain;
      }
      slots := slots[t := o.(canceling := true)];
      r := CancelFirst;
    }

    /** `respond`, whatever the scheme may send. `alive` says whether the caller's context still
        exists; `unmap` whether the scheme is then to unmap the captured span. */
    method RespondTo(t: Tag, a: Answer, alive: bool) returns (r: RespondError, unmap: bool)
      modifies this
      ensures r.Ebadfd? <==> t !in old(slots) || old(slots)[t].Placeholder?
      ensures r.Einval? <==> t in old(slots) && (old(slots)[t].Responded? || old(slots)[t].Fmap?)
      ensures !r.Accepted? ==> View() == old(View()) && !unmap
      ensures r.Accepted? ==>
                var o := old(slots)[t];
                && unmap == o.callee && queue == old(queue)
                && (!alive ==> slots == old(slots) - {t})
                // the answer is passed on as it is, but for an interruption that nobody asked for
                && (alive && !(a == Regular(EINTR) && !o.canceling) ==> slots == old(slots)[t := Responded(o.call, a)])
                && (alive && a == Regular(EINTR) && !o.canceling ==> slots == old(slots)[t := Responded(o.call, Regular(EIO))])
      ensures View() == AfterRespond(old(View()), t, a, alive)
      // who unmaps the pages stays clear whatever the scheme answers
      ensures old(SpanInv(View())) && old(Enabled(View(), Respond(t, a, alive))) ==> SpanInv(View())
      // a scheme that answers each request it has read once is never refused
      ensures old(Valid()) && old(Enabled(View(), Respond(t, a, alive))) && t in old(View()).owed ==> r.Accepted? && Valid()
    {
      hide Inv, SpanInv, Apply, Enabled;
      ghost var s := View();
      if Enabled(s, Respond(t, a, alive)) {
        AnyAnswer(s, t, a, alive);
      }
      if t !in slots || slots[t].Placeholder? {
        return Ebadfd, false;
      }
      if slots[t].Responded? || slots[t].Fmap? {
        return Einval, false;
      }
      var o := slots[t];
      var answer := a;
      if answer.Regular? && !o.canceling && answer.code == EINTR {
        answer := Regular(EIO);
      }
      slots := if alive then slots[t := Responded(o.call, answer)] else slots - {t};
      r, unmap := Accepted, o.callee;
      rest := AfterRespond(s, t, a, alive);
    }
  }

  lemma AnyAnswer(s: State, t: Tag, a: Answer, alive: bool)
    requires Enabled(s, Respond(t, a, alive))
    ensures SpanInv(s) ==> SpanInv(AfterRespond(s, t, a, alive))
    ensures Inv(s) && t in s.owed ==> t in s.slots && s.slots[t].Waiting? && Inv(AfterRespond(s, t, a, alive))
  {
    hide SpanInv, Slots, Callers, Queued, Answerable, Cancels;
    RespondIs(s, t, a, alive);
    if SpanInv(s) {
      StepSpanInv(s, Respond(t, a, alive));
    }
    if Inv(s) && t in s.owed {
      OwedAt(s, t);
      StepInv(s, Respond(t, a, alive));
    }
  }
}
