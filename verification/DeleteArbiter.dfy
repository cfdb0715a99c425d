/** When a delete may release the finalizer, and what that means for the external resource over a whole run. */
module DeleteArbiter {
  /** How the resource is declared: its verbs, a delegated delete, an async delete, a predicate for tombstones. */
  datatype Kind = Kind(dispatch: bool, delegated: bool, deleteVerb: bool, asyncDelete: bool, getVerb: bool, tombstones: bool)

  datatype Definition = Unreadable | NotFound | Declares(kind: Kind)

  /** What the get verb answers; a body may be run through the tombstone predicate. */
  datatype GetAnswer = Gone404 | GetFails | Body(tombstone: bool, predicateFails: bool)

  datatype Reply = DeleteOk | Delete404 | DeleteFails

  /** Everything the environment decides during one delete. */
  datatype Luck = Luck(
    clientFails: bool,
    callUnbuildable: bool,
    deleteAddressable: bool,
    restActionFails: bool,
    transformFails: bool,
    reply: Reply,
    asyncFails: bool,
    getClientFails: bool,
    getUnbuildable: bool,
    getAddressable: bool,
    get: GetAnswer,
    conditionFails: bool)

  // ---- the probe --------------------------------------------------------------------------------------

  datatype Probe = Absent | Present | Unverifiable | ProbeFails

  /** Asks the get verb. Not being able to ask is not an answer, and neither is a failing predicate. */
  function StillExists(k: Kind, l: Luck): Probe {
    if l.getClientFails then ProbeFails
    else if !k.getVerb || l.getUnbuildable || !l.getAddressable then Unverifiable
    else
      match l.get
      case Gone404 => Absent
      case GetFails => ProbeFails
      case Body(tombstone, predicateFails) =>
        if !k.tombstones then Present else if predicateFails then Unverifiable else if tombstone then Absent else Present
  }

  /** The one rule of every delete path: released when absence is verified, or when it cannot be checked and the delete succeeded. */
  predicate Releases(probe: Probe, deleteFailed: bool) {
    match probe
    case Absent => true
    case Present => false
    case ProbeFails => false
    case Unverifiable => !deleteFailed
  }

  // ---- one delete -------------------------------------------------------------------------------------

  datatype Outcome = Held | Released(why: Why)

  datatype Why = Verified | NoDefinition | DispatchHistory | NoDeleteVerb | NotAddressable | Trusted

  function ByProbe(probe: Probe, deleteFailed: bool): Outcome {
    if !Releases(probe, deleteFailed) then Held else if probe == Absent then Released(Verified) else Released(Trusted)
  }

  function Delete(d: Definition, l: Luck): Outcome {
    match d
    case Unreadable => Held
    case NotFound => if l.conditionFails then Held else Released(NoDefinition)
    case Declares(k) =>
      if l.clientFails then Held
      else if k.dispatch then Released(DispatchHistory)
      else if k.delegated then (if l.restActionFails then Held else ByProbe(StillExists(k, l), false))
      else if !k.deleteVerb then Released(NoDeleteVerb)
      else if l.callUnbuildable then Held
      else if !l.deleteAddressable then Released(NotAddressable)
      else if l.transformFails then Held
      else if k.asyncDelete && l.reply != Delete404 && l.asyncFails then Held
      else if l.conditionFails then Held
      else ByProbe(StillExists(k, l), l.reply == DeleteFails)
  }

  // ---- what the outcome depends on ----------------------------------------------------------------------

  /** Every request and write before the probe goes through; what the delete call itself answers does not matter. */
  predicate ReachesProbe(k: Kind, l: Luck) {
    && !k.dispatch && !l.clientFails
    && if k.delegated then !l.restActionFails
       else && k.deleteVerb && !l.callUnbuildable && l.deleteAddressable && !l.transformFails && !l.conditionFails
            && (k.asyncDelete && l.asyncFails ==> l.reply == Delete404)
  }

  /** There is a get verb and it can be called. */
  predicate CanAsk(k: Kind, l: Luck) {
    k.getVerb && !l.getUnbuildable && l.getAddressable
  }

  /** The answer says that the resource is gone: a 404, or a body that a declared predicate calls a tombstone. */
  predicate AnswersGone(k: Kind, l: Luck) {
    l.get == Gone404 || (k.tombstones && l.get == Body(true, false))
  }

  /** The answer says nothing either way: a body, and a declared predicate that fails on it. */
  predicate AnswersNothing(k: Kind, l: Luck) {
    k.tombstones && l.get.Body? && l.get.predicateFails
  }

  /** The finalizer is released on verified absence exactly if the get could be called and says that the resource is gone. */
  lemma VerifiedExactly(d: Definition, l: Luck)
    ensures Delete(d, l) == Released(Verified) <==>
      d.Declares? && ReachesProbe(d.kind, l) && !l.getClientFails && CanAsk(d.kind, l) && AnswersGone(d.kind, l)
  {
  }

  /** Every other release, and when: there is nothing to delete, nothing to delete it with, or no way to check. */
  lemma UnverifiedExactly(d: Definition, l: Luck)
    ensures Delete(d, l) == Released(NoDefinition) <==> d.NotFound? && !l.conditionFails
    ensures Delete(d, l) == Released(DispatchHistory) <==> d.Declares? && !l.clientFails && d.kind.dispatch
    ensures Delete(d, l) == Released(NoDeleteVerb) <==>
      d.Declares? && !l.clientFails && !d.kind.dispatch && !d.kind.delegated && !d.kind.deleteVerb
    ensures Delete(d, l) == Released(NotAddressable) <==>
      && d.Declares? && !l.clientFails && !d.kind.dispatch && !d.kind.delegated && d.kind.deleteVerb
      && !l.callUnbuildable && !l.deleteAddressable
    ensures Delete(d, l) == Released(Trusted) <==>
      && d.Declares? && ReachesProbe(d.kind, l) && (d.kind.delegated || l.reply != DeleteFails)
      && !l.getClientFails && (!CanAsk(d.kind, l) || AnswersNothing(d.kind, l))
  {
  }

  /** A get that fails, or that finds a resource no predicate calls gone, holds it: whatever the delete call said. */
  lemma SeenHeld(k: Kind, l: Luck)
    requires ReachesProbe(k, l) && CanAsk(k, l) && !l.getClientFails
    requires l.get.GetFails? || (l.get.Body? && (!k.tombstones || l.get == Body(false, false)))
    ensures Delete(Declares(k), l) == Held
  {
  }

  /** A kind that can be deleted and checked: a delete and a get verb, and paths that can be addressed. */
  predicate Checkable(d: Definition, l: Luck) {
    && d.Declares? && !d.kind.dispatch && (d.kind.delegated || d.kind.deleteVerb)
    && (d.kind.delegated || l.deleteAddressable) && CanAsk(d.kind, l) && !AnswersNothing(d.kind, l)
  }

  /** On a checkable kind the finalizer is released exactly if the delete gets as far as the get, and that says gone. */
  lemma ReleasedOnlyVerified(d: Definition, l: Luck)
    requires Checkable(d, l)
    ensures Delete(d, l).Released? <==> ReachesProbe(d.kind, l) && !l.getClientFails && AnswersGone(d.kind, l)
    ensures Delete(d, l).Released? ==> Delete(d, l) == Released(Verified)
  {
  }

  /** A failed delete never releases by itself. */
  lemma FailureDecidesNothing(k: Kind, l: Luck)
    requires !k.dispatch && !k.delegated && k.deleteVerb && l.deleteAddressable && l.reply == DeleteFails
    ensures Delete(Declares(k), l).Released? ==> CanAsk(k, l) && !l.getClientFails && AnswersGone(k, l)
  {
  }

  // ---- whole runs -------------------------------------------------------------------------------------

  datatype Pc = Idle | Creating

  /** `external` says whether the external resource exists, `late` whether the vendor still works on a create. */
  datatype State = State(external: bool, late: bool, deleting: bool, released: bool, pc: Pc)

  /**
   The worker does one thing at a time; the deletion timestamp and the vendor's own doings come in between. A
   create may be synchronous, or leave the vendor at work; a delete may or may not have removed the resource by
   the time it is looked for.
   */
  datatype Event =
    | MarksDeleted
    | StartsCreate
    | EndsCreate(posts: bool, synchronous: bool)
    | VendorFinishesCreate
    | VendorRemoves
    | Deletes(d: Definition, l: Luck, removed: bool)

  function Next(s: State, e: Event): State {
    match e
    case MarksDeleted => s.(deleting := true)
    case StartsCreate => if s.pc == Idle && !s.deleting then s.(pc := Creating) else s
    case EndsCreate(posts, synchronous) =>
      if s.pc != Creating then s
      else s.(pc := Idle, external := s.external || (posts && synchronous), late := s.late || (posts && !synchronous))
    case VendorFinishesCreate => if s.late then s.(external := true, late := false) else s
    case VendorRemoves => s.(external := false)
    case Deletes(d, l, removed) =>
      if s.pc != Idle || !s.deleting || s.released then s
      else
        s.(external := s.external && !removed, released := Delete(d, l).Released?)
  }

  function Run(s: State, events: seq<Event>): State {
    if events == [] then s else Next(Run(s, events[..|events| - 1]), events[|events| - 1])
  }

  /** The get verb is honest: it says that the resource is gone only when it is. */
  predicate Honest(s: State, e: Event) {
    e.Deletes? ==> Checkable(e.d, e.l) && (AnswersGone(e.d.kind, e.l) ==> !s.external || e.removed)
  }

  ghost predicate HonestRun(s: State, events: seq<Event>) {
    forall i {:trigger events[i]} | 0 <= i < |events| :: Honest(Run(s, events[..i]), events[i])
  }

  predicate Synchronous(events: seq<Event>) {
    forall i | 0 <= i < |events| :: events[i].EndsCreate? && events[i].posts ==> events[i].synchronous
  }

  predicate NoOrphanYet(s: State) {
    !s.late && (s.released ==> s.deleting && !s.external && s.pc == Idle)
  }

  lemma NextNoOrphan(s: State, e: Event)
    requires NoOrphanYet(s) && Honest(s, e) && (e.EndsCreate? && e.posts ==> e.synchronous)
    ensures NoOrphanYet(Next(s, e))
  {
    if e.Deletes? {
      ReleasedOnlyVerified(e.d, e.l);
    }
  }

  /**
   No orphan: from any state without one, the external resource there or not, with synchronous creates and an
   honest get verb: in every state of every run in which the finalizer has been released it is absent.
   */
  lemma {:induction false} NoOrphan(s: State, events: seq<Event>)
    requires NoOrphanYet(s) && HonestRun(s, events) && Synchronous(events)
    ensures NoOrphanYet(Run(s, events))
  {
    if events != [] {
      var init := events[..|events| - 1];
      forall i | 0 <= i < |init| ensures Honest(Run(s, init[..i]), init[i]) {
        assert init[..i] == events[..i] && init[i] == events[i];
      }
      NoOrphan(s, init);
      NextNoOrphan(Run(s, init), events[|events| - 1]);
    }
  }

  /** With a create that the vendor finishes later, an honest get verb does not help: the resource appears after the release. */
  lemma LateCreateOrphans(k: Kind, l: Luck)
    requires Checkable(Declares(k), l) && ReachesProbe(k, l) && !l.getClientFails && AnswersGone(k, l)
    ensures var s := State(false, true, true, false, Idle);
      && Honest(s, Deletes(Declares(k), l, false))
      && var r := Next(Next(s, Deletes(Declares(k), l, false)), VendorFinishesCreate); r.released && r.external
  {
    ReleasedOnlyVerified(Declares(k), l);
  }

  /** A resource that exists but cannot be addressed is orphaned, on purpose. */
  lemma UnaddressableOrphans(k: Kind, l: Luck)
    requires !k.dispatch && !k.delegated && k.deleteVerb && !l.clientFails && !l.callUnbuildable && !l.deleteAddressable
    ensures var r := Next(State(true, false, true, false, Idle), Deletes(Declares(k), l, false)); r.released && r.external
  {
  }
}
