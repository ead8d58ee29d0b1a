/**
 Calls into a user scheme (src/scheme/user.rs): the slab of call states, the request queue and who is
 to unmap the captured pages, as steps of the callers and of the scheme.

 Calls are numbered; a slot carries the number of the call it was made for. `given` records what the
 scheme answered to each call, `lost` the calls whose captured pages nobody will unmap. The scheme may
 answer any tag at any time; an orderly scheme answers each request it has read once.
 */
module SchemeCalls {
  import opened Common

  type Tag = nat

  type Call = nat

  const EINTR: int := -4
  const EIO: int := -5

  datatype Answer = Regular(code: int) | Fd(description: nat)

  datatype Slot =
    | Placeholder(call: Call)
    // `callee`: the span was handed to the slot, for the scheme's answer to unmap
    | Waiting(call: Call, canceling: bool, callee: bool)
    | Responded(call: Call, answer: Answer)
    | Fmap(call: Call)

  datatype Msg = Request(tag: Tag, call: Call) | Cancel(tag: Tag, call: Call) | RequestMmap(tag: Tag, call: Call)

  datatype Outcome = Answered(answer: Answer) | Killed | NoDevice | BadSlot | MmapRequested

  datatype Phase = Preparing | Entered | Sleeping | Cancelling | Done(outcome: Outcome)

  /** `captured`: the call has a span of pages mapped into the scheme; `guard`: the caller's guard
      is still responsible for it; `flagged`: the call has asked for cancelation. */
  datatype Caller = Caller(tag: Tag, phase: Phase, flagged: bool, captured: bool, guard: bool)

  datatype State = State(
    slots: map<Tag, Slot>,
    queue: seq<Msg>,
    owed: map<Tag, Call>,
    owedMmap: map<Tag, Call>,
    callers: map<Call, Caller>,
    given: map<Call, Answer>,
    unmapped: multiset<Call>,
    lost: set<Call>)

  datatype Step =
    | NextId(k: Call, t: Tag, captures: bool)
    | Unmounted(k: Call)
    | Enter(k: Call)
    | SendRequest(k: Call)
    | WakeKilled(k: Call)
    | WakeSpurious(k: Call)
    | SendCancel(k: Call)
    | TakeAnswer(k: Call)
    | FindBadSlot(k: Call)
    | Release(k: Call, copied: bool)
    | SendMmap(k: Call)
    | Read
    | Respond(t: Tag, a: Answer, alive: bool)
    | ProvideMmap(t: Tag)

  /** An interruption is passed on only when cancelation was asked for. */
  function Filter(a: Answer, canceling: bool): Answer {
    if a == Regular(EINTR) && !canceling then Regular(EIO) else a
  }

  predicate InPhase(s: State, k: Call, p: Phase) {
    k in s.callers && s.callers[k].phase == p
  }

  /** The caller looks at its slot, which is in state Waiting. */
  predicate SeesWaiting(s: State, k: Call) {
    InPhase(s, k, Sleeping) && s.callers[k].tag in s.slots && s.slots[s.callers[k].tag].Waiting?
  }

  predicate Enabled(s: State, step: Step) {
    match step
    // the slab gives any key that is free
    case NextId(k, t, _) => k !in s.callers && t !in s.slots
    case Unmounted(k) => InPhase(s, k, Preparing)
    case Enter(k) => InPhase(s, k, Preparing)
    case SendRequest(k) => InPhase(s, k, Entered)
    case WakeKilled(k) => SeesWaiting(s, k)
    case WakeSpurious(k) => SeesWaiting(s, k)
    case SendCancel(k) => InPhase(s, k, Cancelling)
    case TakeAnswer(k) => InPhase(s, k, Sleeping) && s.callers[k].tag in s.slots && s.slots[s.callers[k].tag].Responded?
    case FindBadSlot(k) =>
      InPhase(s, k, Sleeping) &&
      (s.callers[k].tag !in s.slots || s.slots[s.callers[k].tag].Placeholder? || s.slots[s.callers[k].tag].Fmap?)
    case Release(k, _) => k in s.callers && s.callers[k].phase.Done? && s.callers[k].guard
    case SendMmap(k) => InPhase(s, k, Preparing) && !s.callers[k].captured
    case Read => s.queue != []
    // the caller's context can only be gone once its call has returned
    case Respond(t, _, alive) =>
      t in s.slots && s.slots[t].Waiting? && s.slots[t].call in s.callers && !s.callers[s.slots[t].call].phase.Done? ==> alive
    case ProvideMmap(_) => true
  }

  /** The scheme answers what it has read and not answered yet. */
  predicate Orderly(s: State, step: Step) {
    (step.Respond? ==> step.t in s.owed) && (step.ProvideMmap? ==> step.t in s.owedMmap)
  }

  function WithCaller(s: State, k: Call, c: Caller): State {
    s.(callers := s.callers[k := c])
  }

  function WithPhase(s: State, k: Call, p: Phase): State
    requires k in s.callers
  {
    WithCaller(s, k, s.callers[k].(phase := p))
  }

  function AfterRead(s: State): State
    requires s.queue != []
  {
    var s1 := s.(queue := s.queue[1..]);
    match s.queue[0]
    case Request(t, k) => s1.(owed := s.owed[t := k])
    case Cancel(_, _) => s1
    case RequestMmap(t, k) => s1.(owedMmap := s.owedMmap[t := k])
  }

  /** `respond`: a slot that is not waiting is an error and stays as it is. */
  function AfterRespond(s: State, t: Tag, a: Answer, alive: bool): State {
    if t !in s.slots || !s.slots[t].Waiting? then s
    else
      var w := s.slots[t];
      s.(slots := if alive then s.slots[t := Responded(w.call, Filter(a, w.canceling))] else s.slots - {t},
         unmapped := if w.callee then s.unmapped + multiset{w.call} else s.unmapped,
         given := if t in s.owed then s.given[s.owed[t] := a] else s.given,
         owed := s.owed - {t})
  }

  function Apply(s: State, step: Step): State
    requires Enabled(s, step)
  {
    match step
    case NextId(k, t, captures) => WithCaller(s, k, Caller(t, Preparing, false, captures, captures)).(slots := s.slots[t := Placeholder(k)])
    // the slot is not given back
    case Unmounted(k) => WithPhase(s, k, Done(NoDevice))
    case Enter(k) => WithPhase(s, k, Entered).(slots := s.slots[s.callers[k].tag := Waiting(k, false, false)])
    case SendRequest(k) => WithPhase(s, k, Sleeping).(queue := s.queue + [Request(s.callers[k].tag, k)])
    case WakeKilled(k) =>
      var c := s.callers[k];
      WithCaller(s, k, c.(phase := Done(Killed), guard := false, flagged := true))
      .(slots := s.slots[c.tag := s.slots[c.tag].(canceling := true, callee := c.guard)])
    case WakeSpurious(k) =>
      var c := s.callers[k];
      if s.slots[c.tag].canceling then s
      else WithCaller(s, k, c.(phase := Cancelling, flagged := true)).(slots := s.slots[c.tag := s.slots[c.tag].(canceling := true)])
    case SendCancel(k) => WithPhase(s, k, Sleeping).(queue := s.queue + [Cancel(s.callers[k].tag, k)])
    case TakeAnswer(k) =>
      WithPhase(s, k, Done(Answered(s.slots[s.callers[k].tag].answer))).(slots := s.slots - {s.callers[k].tag})
    case FindBadSlot(k) => WithPhase(s, k, Done(BadSlot))
    // the guard counts as released even if copying back to the caller's buffer fails before the unmapping
    case Release(k, copied) =>
      var s1 := WithCaller(s, k, s.callers[k].(guard := false));
      if copied then s1.(unmapped := s.unmapped + multiset{k}) else s1.(lost := s.lost + {k})
    case SendMmap(k) =>
      WithPhase(s, k, Done(MmapRequested))
      .(slots := s.slots[s.callers[k].tag := Fmap(k)], queue := s.queue + [RequestMmap(s.callers[k].tag, k)])
    case Read => AfterRead(s)
    case Respond(t, a, alive) => AfterRespond(s, t, a, alive)
    case ProvideMmap(t) =>
      if t in s.slots && s.slots[t].Fmap? then s.(slots := s.slots - {t}, owedMmap := s.owedMmap - {t}) else s
  }

  const EMPTY_STATE: State := State(map[], [], map[], map[], map[], map[], multiset{}, {})

  // ----- the invariant -----

  /** The slot belongs to the call it names, and fits what that call is doing. */
  ghost predicate SlotOk(s: State, t: Tag)
    requires t in s.slots
  {
    var x := s.slots[t];
    && x.call in s.callers && s.callers[x.call].tag == t
    && SlotFits(x, s.callers[x.call])
    && (x.Waiting? ==> x.call !in s.given)
    && (x.Responded? ==> x.call in s.given && x.answer == Filter(s.given[x.call], s.callers[x.call].flagged))
  }

  ghost predicate SlotFits(x: Slot, c: Caller) {
    match x
    case Placeholder(_) => c.phase.Preparing? || c.phase == Done(NoDevice)
    case Waiting(_, canceling, callee) =>
      && (c.phase.Entered? || c.phase.Sleeping? || c.phase.Cancelling? || c.phase == Done(Killed))
      && canceling == c.flagged && (callee ==> c.phase == Done(Killed))
    case Responded(_, _) => c.phase.Sleeping? || c.phase.Cancelling? || c.phase == Done(Killed)
    case Fmap(_) => c.phase == Done(MmapRequested)
  }

  ghost predicate Slots(s: State) {
    forall t :: t in s.slots ==> SlotOk(s, t)
  }

  /** A call that has not returned has its slot; one that has returned an answer got the one given to it. */
  ghost predicate CallerOk(s: State, k: Call)
    requires k in s.callers
  {
    var c := s.callers[k];
    && (c.phase.Preparing? ==> c.tag in s.slots && s.slots[c.tag] == Placeholder(k))
    && (c.phase.Entered? ==> c.tag in s.slots && s.slots[c.tag].Waiting? && s.slots[c.tag].call == k)
    && (c.phase.Sleeping? || c.phase.Cancelling? ==>
          c.tag in s.slots && (s.slots[c.tag].Waiting? || s.slots[c.tag].Responded?) && s.slots[c.tag].call == k)
    && (c.phase.Done? && c.phase.outcome.Answered? ==>
          k in s.given && c.phase.outcome.answer == Filter(s.given[k], c.flagged))
    && (c.phase.Preparing? || c.phase.Entered? ==> !c.flagged && k !in s.given)
    && (c.phase != Done(BadSlot))
  }

  ghost predicate Callers(s: State) {
    && (forall k :: k in s.callers ==> CallerOk(s, k))
    && (forall k :: k in s.given ==> k in s.callers)
  }

  /** A call that waits for an answer to a request that has been sent. */
  ghost predicate AwaitsAnswer(s: State, t: Tag, k: Call) {
    t in s.slots && s.slots[t].Waiting? && s.slots[t].call == k && k in s.callers && !s.callers[k].phase.Entered?
  }

  ghost predicate AwaitsMmap(s: State, t: Tag, k: Call) {
    t in s.slots && s.slots[t] == Fmap(k)
  }

  /** While an answer is owed, the slot is held for it. */
  ghost predicate Owed(s: State) {
    && (forall t :: t in s.owed ==> AwaitsAnswer(s, t, s.owed[t]))
    && (forall t :: t in s.owedMmap ==> AwaitsMmap(s, t, s.owedMmap[t]))
  }

  ghost predicate MsgOk(s: State, m: Msg) {
    match m
    case Request(t, k) => AwaitsAnswer(s, t, k) && t !in s.owed
    case Cancel(_, _) => true
    case RequestMmap(t, k) => AwaitsMmap(s, t, k) && t !in s.owedMmap
  }

  ghost predicate Queued(s: State) {
    && (forall i | 0 <= i < |s.queue| :: MsgOk(s, s.queue[i]))
    && (forall i, j | 0 <= i < j < |s.queue| :: !s.queue[i].Cancel? && !s.queue[j].Cancel? ==> s.queue[i].tag != s.queue[j].tag)
  }

  /** Nothing is lost: a request that was sent is in the queue or its answer is owed. */
  ghost predicate Answerable(s: State) {
    && (forall t :: t in s.slots && AwaitsAnswer(s, t, s.slots[t].call) ==> t in s.owed || Request(t, s.slots[t].call) in s.queue)
    && (forall t :: t in s.slots && s.slots[t].Fmap? ==> t in s.owedMmap || RequestMmap(t, s.slots[t].call) in s.queue)
  }

  /** No other call under the same tag is ahead of a cancelation, in the queue or with the scheme. */
  ghost predicate CancelOk(s: State, i: nat)
    requires i < |s.queue|
  {
    s.queue[i].Cancel? ==>
      var (t, k) := (s.queue[i].tag, s.queue[i].call);
      && (t in s.owed ==> s.owed[t] == k) && t !in s.owedMmap
      && (forall j | 0 <= j < i :: s.queue[j].tag == t ==> !s.queue[j].RequestMmap? && (s.queue[j].Request? ==> s.queue[j].call == k))
  }

  ghost predicate Cancels(s: State) {
    forall i | 0 <= i < |s.queue| :: CancelOk(s, i)
  }

  ghost predicate Inv(s: State) {
    Slots(s) && Callers(s) && Owed(s) && Queued(s) && Answerable(s) && Cancels(s)
  }

  /** A run with any scheme. */
  ghost predicate IsAnyRun(states: seq<State>, steps: seq<Step>) {
    && |states| == |steps| + 1
    && states[0] == EMPTY_STATE
    && (forall i | 0 <= i < |steps| :: Enabled(states[i], steps[i]) && Apply(states[i], steps[i]) == states[i + 1])
  }

  /** A run with an orderly scheme. */
  ghost predicate IsRun(states: seq<State>, steps: seq<Step>) {
    IsAnyRun(states, steps) && forall i | 0 <= i < |steps| :: Orderly(states[i], steps[i])
  }
}
