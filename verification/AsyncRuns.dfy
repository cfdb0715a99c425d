/** Whole runs of a requeue-polled operation: how often it is triggered, and what a crash can leave behind. */
module AsyncRuns {
  import opened Json

  datatype Action = Create | Update

  /** Why the resource is Pending: an operation was accepted, or a lookup still misses its referent. */
  datatype Ready = Other | Unavailable | Pending(forReferent: bool)

  /** Where the worker stands between two requests. */
  datatype Pc =
    | Idle
    | Told(action: Action)         // the observe asked for a create or an update
    | Triggered(action: Action)    // the verb succeeded, its handle is not recorded yet
    | Recorded                     // the handle is recorded, Pending is not written yet
    | Called                       // a verb without polling succeeded, its status is not written yet
    | SawSuccess                   // the poll reported success, the handle is still there
    | SawFailure                   // the poll reported failure, Unavailable is not written yet
    | WroteFailure                 // Unavailable is written, the handle is still there

  /**
   What the definition says: verbs polled by requeueing, verbs with a lookup that may wait for its referent, and
   whether there is a get or a findby verb to see the resource with.
   */
  datatype Definition = Definition(requeued: set<Action>, waiting: set<Action>, visible: bool)

  /** `failed`: the operation that ran last was seen to fail. Counted: triggers, observed outcomes, lost handles. */
  datatype State = State(
    d: Definition,
    handle: Option<Action>,
    ready: Ready,
    pc: Pc,
    failed: bool,
    triggers: nat,
    outcomes: nat,
    lost: nat)

  datatype Poll = PollFailed | StillPending | Succeeded | Failed

  /** What the ordinary observe finds. */
  datatype Finding = Unreadable | Missing | Different | Same

  datatype Call = ReferentMissing | CallFailed | CallSucceeded

  /**
   `fails` means that a request returned an error, `applied` that it took effect all the same; `overwrites` that
   the runtime replaced Ready on an error.
   */
  datatype Event =
    | Observes(poll: Poll, finding: Finding, overwrites: bool)
    | Calls(call: Call, fails: bool, applied: bool)
    | Writes(fails: bool, applied: bool, pending: bool, overwrites: bool)
    | Crashes

  predicate Effective(fails: bool, applied: bool) {
    !fails || applied
  }

  function OnError(s: State, overwrites: bool): State {
    s.(pc := Idle, ready := if overwrites then Other else s.ready)
  }

  /** Polls what is in flight; otherwise looks. */
  function Observed(s: State, poll: Poll, finding: Finding, overwrites: bool): State {
    if s.handle.Some? then
      match poll
      case PollFailed => OnError(s, overwrites)
      case StillPending => s
      case Succeeded => s.(pc := SawSuccess, failed := false, outcomes := s.outcomes + 1)
      case Failed => s.(pc := SawFailure, failed := true, outcomes := s.outcomes + 1)
    else Looked(s, finding, overwrites)
  }

  /**
   The ordinary observe holds a resource that is missing but Pending. One that cannot be seen is told by its
   condition alone: it is missing when Unavailable or Pending, and otherwise missing unless it was being created or
   available and the last reconcile went through.
   */
  function Looked(s: State, finding: Finding, overwrites: bool): State {
    match finding
    case Unreadable => OnError(s, overwrites)
    case Missing => if s.d.visible && s.ready.Pending? then s else s.(pc := Told(Create))
    case Different =>
      if s.d.visible then s.(ready := Unavailable, pc := Told(Update))
      else if s.ready == Other then s else s.(pc := Told(Create))
    case Same => if s.d.visible || s.ready == Other then s.(ready := Other) else s.(pc := Told(Create))
  }

  /** Runs the verb. A missing referent writes Pending and ends the call; a polled verb counts as a trigger. */
  function AfterCall(s: State, action: Action, call: Call, fails: bool, applied: bool): State {
    match call
    case ReferentMissing => s.(pc := Idle, ready := if Effective(fails, applied) then Pending(true) else s.ready)
    case CallFailed => s.(pc := Idle)
    case CallSucceeded =>
      if action in s.d.requeued then s.(pc := Triggered(action), failed := false, triggers := s.triggers + 1)
      else s.(pc := Called, failed := false)
  }

  /** The next write of the step under way. */
  function Written(s: State, fails: bool, applied: bool, pending: bool, overwrites: bool): State {
    var done := Effective(fails, applied);
    match s.pc
    case Triggered(action) =>
      var s' := if done then s.(handle := Some(action)) else s;
      if fails then s'.(pc := Idle, lost := s.lost + 1) else s'.(pc := Recorded)
    case Recorded => s.(pc := Idle, ready := if done then Pending(false) else s.ready)
    case Called => s.(pc := Idle, ready := if done then (if pending then Pending(false) else Other) else s.ready)
    case SawSuccess =>
      var s' := if done then s.(handle := None) else s;
      if fails then OnError(s', overwrites) else s'.(pc := Idle)
    case SawFailure =>
      var s' := if done then s.(ready := Unavailable) else s;
      if fails then OnError(s', overwrites) else s'.(pc := WroteFailure)
    case WroteFailure => s.(pc := Idle, handle := if done then None else s.handle)
    case _ => s
  }

  function Next(s: State, e: Event): State {
    match e
    case Observes(poll, finding, overwrites) => if s.pc == Idle then Observed(s, poll, finding, overwrites) else s
    case Calls(call, fails, applied) => if s.pc.Told? then AfterCall(s, s.pc.action, call, fails, applied) else s
    case Writes(fails, applied, pending, overwrites) => Written(s, fails, applied, pending, overwrites)
    case Crashes => s.(pc := Idle, lost := if s.pc.Triggered? then s.lost + 1 else s.lost)
  }

  function Run(s: State, events: seq<Event>): State {
    if events == [] then s else Next(Run(s, events[..|events| - 1]), events[|events| - 1])
  }

  function Start(d: Definition): State {
    State(d, None, Other, Idle, false, 0, 0, 0)
  }

  // ---- conservation of triggers -----------------------------------------------------------------------

  /** One trigger is unaccounted for while its handle is being recorded, or is recorded and not yet resolved. */
  predicate Conserved(s: State) {
    var open := if s.pc.Triggered? || (s.handle.Some? && !s.pc.SawSuccess? && !s.pc.SawFailure? && !s.pc.WroteFailure?) then 1 else 0;
    && s.triggers <= s.outcomes + s.lost + open
    && (s.pc.Told? || s.pc.Triggered? || s.pc.Called? ==> s.handle.None?)
    && (s.pc.Recorded? ==> s.handle.Some?)
  }

  lemma NextConserved(s: State, e: Event)
    requires Conserved(s)
    ensures Conserved(Next(s, e))
  {
  }

  /** The mutating verbs are never triggered more often than one plus the observed outcomes and the lost handles. */
  lemma {:induction false} TriggersConserved(d: Definition, events: seq<Event>)
    ensures var s := Run(Start(d), events); Conserved(s) && s.triggers <= 1 + s.outcomes + s.lost
  {
    if events != [] {
      TriggersConserved(d, events[..|events| - 1]);
      NextConserved(Run(Start(d), events[..|events| - 1]), events[|events| - 1]);
    }
  }

  // ---- what each step changes -------------------------------------------------------------------------

  /** A write that takes effect. */
  predicate Lands(e: Event) {
    e.Writes? && (!e.fails || e.applied)
  }

  /** A call of a polled verb that succeeds. */
  predicate Triggers(s: State, e: Event) {
    s.pc.Told? && e.Calls? && e.call == CallSucceeded && s.pc.action in s.d.requeued
  }

  /** A poll that reports how the operation ended. */
  predicate SeesOutcome(s: State, e: Event) {
    s.pc == Idle && s.handle.Some? && e.Observes? && e.poll in {Succeeded, Failed}
  }

  /** An accepted operation whose handle the caller does not know to be recorded. */
  predicate LosesHandle(s: State, e: Event) {
    s.pc.Triggered? && (e.Crashes? || (e.Writes? && e.fails))
  }

  /** What is counted, and that a handle comes with an accepted operation and goes only after its outcome was seen. */
  lemma CountsExactly(s: State, e: Event)
    ensures var s' := Next(s, e);
      && s'.triggers == s.triggers + (if Triggers(s, e) then 1 else 0)
      && s'.outcomes == s.outcomes + (if SeesOutcome(s, e) then 1 else 0)
      && s'.lost == s.lost + (if LosesHandle(s, e) then 1 else 0)
      && (s'.handle.Some? <==> (s.pc.Triggered? && Lands(e)) || (s.handle.Some? && !(s.pc in {SawSuccess, WroteFailure} && Lands(e))))
      && (s'.handle.Some? ==> s'.handle == if s.pc.Triggered? && Lands(e) then Some(s.pc.action) else s.handle)
      && (s'.failed <==> if SeesOutcome(s, e) then e.poll == Failed
                         else s.failed && !(s.pc.Told? && e.Calls? && e.call == CallSucceeded))
  {
  }

  /** From where a handle can go. */
  lemma OutcomeFirst(s: State, e: Event)
    ensures Next(s, e).pc == SawSuccess && s.pc != SawSuccess ==> SeesOutcome(s, e) && e.poll == Succeeded
    ensures Next(s, e).pc == SawFailure && s.pc != SawFailure ==> SeesOutcome(s, e) && e.poll == Failed
    ensures Next(s, e).pc == WroteFailure && s.pc != WroteFailure ==> s.pc == SawFailure && e.Writes? && !e.fails
    ensures Next(s, e).pc == Recorded && s.pc != Recorded ==> s.pc.Triggered? && e.Writes? && !e.fails
    ensures Next(s, e).pc.Triggered? && !s.pc.Triggered? ==> Triggers(s, e) && Next(s, e).pc.action == s.pc.action
    ensures Next(s, e).pc == Called && s.pc != Called ==> s.pc.Told? && e.Calls? && e.call == CallSucceeded && s.pc.action !in s.d.requeued
  {
  }

  /** A verb is asked for exactly by an observe that polls nothing and finds the resource missing or different. */
  lemma AskedExactly(s: State, e: Event)
    requires !s.pc.Told?
    ensures Next(s, e).pc.Told? <==>
      && s.pc == Idle && s.handle.None? && e.Observes? && e.finding != Unreadable
      && if s.d.visible then e.finding == Different || (e.finding == Missing && !s.ready.Pending?)
         else e.finding == Missing || s.ready != Other
    ensures Next(s, e).pc.Told? ==> Next(s, e).pc.action == if s.d.visible && e.finding == Different then Update else Create
  {
  }

  /** A condition that replaces the one that was there. */
  lemma ReadyExactly(s: State, e: Event)
    ensures var s' := Next(s, e); s'.ready != s.ready ==>
      match s'.ready
      case Pending(forReferent) =>
        if forReferent then s.pc.Told? && e.Calls? && e.call == ReferentMissing
        else Lands(e) && (s.pc == Recorded || (s.pc == Called && e.pending))
      case Unavailable => (s.pc == SawFailure && Lands(e)) || (s.pc == Idle && e.Observes? && s.handle.None? && e.finding == Different && s.d.visible)
      case Other => (s.pc == Called && Lands(e) && !e.pending) || (s.pc == Idle && e.Observes? && (e.overwrites || e.finding == Same))
                    || (s.pc in {SawSuccess, SawFailure} && e.Writes? && e.fails && e.overwrites)
    ensures var s' := Next(s, e);
      && (s.pc in {Recorded, Called} && Lands(e) ==> s'.ready == if s.pc == Recorded || e.pending then Pending(false) else Other)
      && (s.pc == SawFailure && Lands(e) && !(e.fails && e.overwrites) ==> s'.ready == Unavailable)
      && (s.pc.Told? && e.Calls? && e.call == ReferentMissing && (!e.fails || e.applied) ==> s'.ready == Pending(true))
  {
  }

  /** The operation in flight is not seen to end in this run. */
  ghost predicate NoOutcome(s: State, events: seq<Event>) {
    forall i {:trigger events[i]} | 0 <= i < |events| :: !SeesOutcome(Run(s, events[..i]), events[i])
  }

  /**
   As long as no poll reports how the operation ended, its handle stays and nothing is triggered or lost: not by
   polls that fail, and not by crashes or writes that come late.
   */
  lemma {:induction false} HandleKept(s: State, events: seq<Event>)
    requires s.handle.Some? && s.pc == Idle && NoOutcome(s, events)
    ensures var r := Run(s, events); r == s.(ready := r.ready) && r.ready in {s.ready, Other}
  {
    if events != [] {
      var n := |events| - 1;
      var init := events[..n];
      forall i | 0 <= i < n ensures !SeesOutcome(Run(s, init[..i]), init[i]) {
        assert init[..i] == events[..i] && init[i] == events[i];
      }
      HandleKept(s, init);
      assert !SeesOutcome(Run(s, events[..n]), events[n]);
      HandleStays(Run(s, init), events[n]);
    }
  }

  lemma HandleStays(s: State, e: Event)
    requires s.handle.Some? && s.pc == Idle && !SeesOutcome(s, e)
    ensures Next(s, e) == s || Next(s, e) == s.(ready := Other)
  {
  }

  // ---- what a crash leaves behind ---------------------------------------------------------------------

  /** A failed operation whose handle is gone has left its Pending behind. */
  predicate Ordered(s: State) {
    && (s.pc.WroteFailure? ==> s.ready == Unavailable)
    && (s.pc.SawFailure? || s.pc.WroteFailure? ==> s.failed && s.handle.Some?)
    && (s.pc.SawSuccess? || s.pc.Triggered? || s.pc.Recorded? || s.pc.Called? ==> !s.failed)
    && (s.handle.None? && s.failed ==> s.ready != Pending(false))
  }

  lemma NextOrdered(s: State, e: Event)
    requires Ordered(s) && Conserved(s)
    ensures Ordered(Next(s, e))
    ensures s.handle.Some? && Next(s, e).handle.None? && Next(s, e).failed ==> s.ready == Unavailable && Next(s, e).ready == Unavailable
  {
  }

  /**
   At every point of every run: a failed operation without a handle is not Pending for that operation. It is
   Pending only when a later call waits for a referent.
   */
  lemma {:induction false} FailureLeavesPending(d: Definition, events: seq<Event>)
    ensures var s := Run(Start(d), events); Ordered(s) && (s.handle.None? && s.failed && s.ready.Pending? ==> s.ready.forReferent)
  {
    if events != [] {
      FailureLeavesPending(d, events[..|events| - 1]);
      TriggersConserved(d, events[..|events| - 1]);
      NextOrdered(Run(Start(d), events[..|events| - 1]), events[|events| - 1]);
    }
  }

  // ---- waiting for a referent -------------------------------------------------------------------------

  /** The handle of a failed operation is gone, and the resource is still Pending. */
  predicate Stuck(s: State) {
    s.handle.None? && s.failed && s.ready.Pending?
  }

  /** Only calls of verbs with such a lookup miss a referent. */
  predicate Possible(s: State, e: Event) {
    e.Calls? && e.call.ReferentMissing? && s.pc.Told? ==> s.pc.action in s.d.waiting
  }

  ghost predicate AllPossible(d: Definition, events: seq<Event>) {
    forall i {:trigger events[i]} | 0 <= i < |events| :: Possible(Run(Start(d), events[..i]), events[i])
  }

  ghost predicate Reachable(d: Definition, s: State) {
    exists events :: AllPossible(d, events) && Run(Start(d), events) == s
  }

  lemma AllPossibleBefore(d: Definition, events: seq<Event>)
    requires AllPossible(d, events) && events != []
    ensures AllPossible(d, events[..|events| - 1])
    ensures Possible(Run(Start(d), events[..|events| - 1]), events[|events| - 1])
  {
    var init := events[..|events| - 1];
    forall i | 0 <= i < |init| ensures Possible(Run(Start(d), init[..i]), init[i]) {
      assert init[..i] == events[..i] && init[i] == events[i];
    }
    assert events[|events| - 1] == events[|init|];
  }

  /** The verb can be called at all: an update needs a resource that can be seen to differ. */
  predicate Callable(d: Definition, action: Action) {
    action.Create? || d.visible
  }

  /** What cannot be seen cannot be found different: only creates are asked for. */
  predicate AsksCallable(s: State) {
    s.pc.Told? ==> Callable(s.d, s.pc.action)
  }

  lemma NextCallable(s: State, e: Event)
    requires AsksCallable(s)
    ensures AsksCallable(Next(s, e)) && Next(s, e).d == s.d
  {
  }

  lemma WaitsOnlyIfCalled(s: State, e: Event)
    requires AsksCallable(s) && Possible(s, e) && s.ready != Pending(true)
    ensures Next(s, e).ready == Pending(true) ==> exists waits :: waits in s.d.waiting && Callable(s.d, waits)
  {
  }

  /** Where no verb that can be called waits, nothing is Pending for a referent. */
  lemma {:induction false} NothingWaits(d: Definition, events: seq<Event>)
    requires AllPossible(d, events) && forall waits | waits in d.waiting :: !Callable(d, waits)
    ensures var s := Run(Start(d), events); s.d == d && AsksCallable(s) && s.ready != Pending(true)
  {
    if events != [] {
      var init, e := events[..|events| - 1], events[|events| - 1];
      AllPossibleBefore(d, events);
      NothingWaits(d, init);
      NextCallable(Run(Start(d), init), e);
      WaitsOnlyIfCalled(Run(Start(d), init), e);
    }
  }

  predicate NoOperation(s: State) {
    s.handle.None? && !s.failed && (s.pc.Idle? || s.pc.Told? || s.pc.Called?)
  }

  lemma PolledOnlyIfCalled(s: State, e: Event)
    requires AsksCallable(s) && NoOperation(s)
    ensures NoOperation(Next(s, e)) || exists polled :: polled in s.d.requeued && Callable(s.d, polled)
  {
  }

  /** Where no verb that can be called is polled, no operation is seen to fail. */
  lemma {:induction false} NothingPolled(d: Definition, events: seq<Event>)
    requires forall polled | polled in d.requeued :: !Callable(d, polled)
    ensures var s := Run(Start(d), events); s.d == d && AsksCallable(s) && NoOperation(s)
  {
    if events != [] {
      var init, e := events[..|events| - 1], events[|events| - 1];
      NothingPolled(d, init);
      NextCallable(Run(Start(d), init), e);
      PolledOnlyIfCalled(Run(Start(d), init), e);
    }
  }

  lemma ReachNext(d: Definition, s: State, e: Event, s': State)
    requires Reachable(d, s) && Possible(s, e) && s' == Next(s, e)
    ensures Reachable(d, s')
  {
    var events :| AllPossible(d, events) && Run(Start(d), events) == s;
    var more := events + [e];
    assert more[..|events|] == events;
    forall i | 0 <= i < |more| ensures Possible(Run(Start(d), more[..i]), more[i]) {
      if i < |events| {
        assert more[..i] == events[..i] && more[i] == events[i];
      }
    }
    assert Run(Start(d), more) == s';
  }

  /** The observe that asks for this action. */
  function Asks(action: Action): Event {
    Observes(StillPending, if action.Create? then Missing else Different, false)
  }

  /** Where an operation leads whose requests all succeed, one state a step. */
  function AskedFor(d: Definition, polled: Action): State {
    State(d, None, if polled.Create? then Other else Unavailable, Told(polled), false, 0, 0, 0)
  }

  function InFlight(d: Definition, polled: Action): State {
    State(d, Some(polled), Pending(false), Idle, false, 1, 0, 0)
  }

  function FailureSeen(d: Definition, polled: Action): State {
    State(d, Some(polled), Pending(false), SawFailure, true, 1, 1, 0)
  }

  lemma TriggerSteps(d: Definition, polled: Action)
    requires polled in d.requeued && Callable(d, polled)
    ensures Next(Start(d), Asks(polled)) == AskedFor(d, polled)
    ensures var triggered := AskedFor(d, polled).(pc := Triggered(polled), triggers := 1);
      && Next(AskedFor(d, polled), Calls(CallSucceeded, false, true)) == triggered
      && var recorded := triggered.(pc := Recorded, handle := Some(polled));
         && Next(triggered, Writes(false, true, true, false)) == recorded
         && Next(recorded, Writes(false, true, true, false)) == InFlight(d, polled)
  {
  }

  lemma FailureSteps(d: Definition, polled: Action)
    ensures Next(InFlight(d, polled), Observes(Failed, Missing, false)) == FailureSeen(d, polled)
    ensures var wrote := FailureSeen(d, polled).(pc := WroteFailure, ready := Unavailable);
      && Next(FailureSeen(d, polled), Writes(false, true, false, false)) == wrote
      && Next(wrote, Writes(false, true, false, false)) == State(d, None, Unavailable, Idle, true, 1, 1, 0)
  {
  }

  lemma OperationReached(d: Definition, polled: Action)
    requires polled in d.requeued && Callable(d, polled)
    ensures Reachable(d, InFlight(d, polled))
  {
    var start, told := Start(d), AskedFor(d, polled);
    assert Run(start, []) == start && AllPossible(d, []);
    TriggerSteps(d, polled);
    ReachNext(d, start, Asks(polled), told);
    var triggered := told.(pc := Triggered(polled), triggers := 1);
    ReachNext(d, told, Calls(CallSucceeded, false, true), triggered);
    var recorded := triggered.(pc := Recorded, handle := Some(polled));
    ReachNext(d, triggered, Writes(false, true, true, false), recorded);
    ReachNext(d, recorded, Writes(false, true, true, false), InFlight(d, polled));
  }

  lemma FailureReached(d: Definition, polled: Action)
    requires Reachable(d, InFlight(d, polled))
    ensures Reachable(d, State(d, None, Unavailable, Idle, true, 1, 1, 0))
  {
    FailureSteps(d, polled);
    var saw := FailureSeen(d, polled);
    ReachNext(d, InFlight(d, polled), Observes(Failed, Missing, false), saw);
    var wrote := saw.(pc := WroteFailure, ready := Unavailable);
    ReachNext(d, saw, Writes(false, true, false, false), wrote);
    ReachNext(d, wrote, Writes(false, true, false, false), State(d, None, Unavailable, Idle, true, 1, 1, 0));
  }

  /** An operation fails, and the next call of a verb finds its referent missing. */
  lemma StuckReached(d: Definition, polled: Action, waits: Action) returns (s: State)
    requires polled in d.requeued && waits in d.waiting && Callable(d, polled) && Callable(d, waits)
    ensures Reachable(d, s) && Stuck(s)
  {
    OperationReached(d, polled);
    FailureReached(d, polled);
    s := State(d, None, Unavailable, Idle, true, 1, 1, 0);
    var told := s.(pc := Told(waits));
    ReachNext(d, s, Asks(waits), told);
    s := told.(pc := Idle, ready := Pending(true));
    ReachNext(d, told, Calls(ReferentMissing, false, true), s);
  }

  /**
   Handle gone, operation failed, still Pending is reachable if and only if the definition polls some verb by
   requeueing and some verb has a lookup that may wait for its referent, updates counting only when the resource
   can be seen.
   */
  lemma StuckExactly(d: Definition)
    ensures (exists s :: Reachable(d, s) && Stuck(s)) <==>
      (exists polled :: polled in d.requeued && Callable(d, polled)) && exists waits :: waits in d.waiting && Callable(d, waits)
  {
    forall s | Reachable(d, s) && Stuck(s)
      ensures (exists polled :: polled in d.requeued && Callable(d, polled)) && exists waits :: waits in d.waiting && Callable(d, waits) {
      var events :| AllPossible(d, events) && Run(Start(d), events) == s;
      FailureLeavesPending(d, events);
      if forall polled | polled in d.requeued :: !Callable(d, polled) {
        NothingPolled(d, events);
      }
      if forall waits | waits in d.waiting :: !Callable(d, waits) {
        NothingWaits(d, events);
      }
    }
    if polled, waits :| polled in d.requeued && Callable(d, polled) && waits in d.waiting && Callable(d, waits) {
      var s := StuckReached(d, polled, waits);
    }
  }

  // ---- what becomes of a wait ---------------------------------------------------------------------------

  predicate Waiting(s: State) {
    s.handle.None? && s.ready == Pending(true) && s.pc == Idle
  }

  /** The next step calls a verb again exactly if it finds the resource different, or cannot see it. */
  lemma RetriedExactly(s: State, e: Event)
    requires Waiting(s)
    ensures Next(s, e).pc.Told? <==>
      e.Observes? && e.finding != Unreadable && if s.d.visible then e.finding == Different else true
  {
  }

  predicate StillMissing(e: Event) {
    match e
    case Observes(_, finding, _) => finding == Missing
    case _ => true
  }

  ghost predicate CalledAgain(s: State, events: seq<Event>) {
    exists i | 0 <= i <= |events| :: Run(s, events[..i]).pc.Told?
  }

  predicate HasObserve(events: seq<Event>) {
    exists i | 0 <= i < |events| :: events[i].Observes?
  }

  /** Until an observe answers otherwise, nothing happens to a resource that waits. */
  lemma {:induction false} WaitStands(s: State, events: seq<Event>)
    requires Waiting(s) && forall i | 0 <= i < |events| :: StillMissing(events[i]) && (events[i].Observes? ==> s.d.visible)
    ensures Run(s, events) == s
  {
    if events != [] {
      WaitStands(s, events[..|events| - 1]);
    }
  }

  /**
   As long as the resource is missing, a wait for a referent is not retried when the resource can be seen: it is
   held as up to date, whether or not the referent has appeared. It is retried by the next observe when it cannot.
   */
  lemma MissingRetried(s: State, events: seq<Event>)
    requires Waiting(s) && forall i | 0 <= i < |events| :: StillMissing(events[i])
    ensures CalledAgain(s, events) <==> !s.d.visible && HasObserve(events)
    ensures s.d.visible ==> Run(s, events) == s
  {
    forall i | 0 <= i <= |events| && (s.d.visible || !HasObserve(events[..i])) ensures Run(s, events[..i]) == s {
      assert forall k | 0 <= k < i :: events[..i][k] == events[k];
      WaitStands(s, events[..i]);
    }
    assert events[..|events|] == events;
    if !s.d.visible && HasObserve(events) {
      var i := FirstObserve(events);
      assert events[..i + 1][..i] == events[..i];
      assert Run(s, events[..i + 1]) == Next(Run(s, events[..i]), events[i]);
      RetriedExactly(s, events[i]);
    }
    if CalledAgain(s, events) {
      var i :| 0 <= i <= |events| && Run(s, events[..i]).pc.Told?;
      assert !s.d.visible && HasObserve(events[..i]);
      var k :| 0 <= k < i && events[..i][k].Observes?;
      assert events[k].Observes?;
    }
  }

  lemma FirstObserve(events: seq<Event>) returns (i: nat)
    requires HasObserve(events)
    ensures i < |events| && events[i].Observes? && !HasObserve(events[..i])
  {
    i := 0;
    while !events[i].Observes?
      invariant i < |events| && forall k | 0 <= k < i :: !events[k].Observes?
      decreases |events| - i
    {
      var j :| 0 <= j < |events| && events[j].Observes?;
      assert j > i;
      i := i + 1;
    }
  }
}
