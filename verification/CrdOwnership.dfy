/** Who owns the shared CRD, over any run of interleaved applies and prunes. */
module CrdOwnership {
  import opened Json
  import opened CrdVersions
  import opened CrdProtocol

  /** The owner annotation of the object, "" when there is none. */
  function Owner(s: State): string {
    if s.server.obj.None? then "" else OwnerOf(s.server.obj.value)
  }

  /** An owner has the form of a name exactly when it is a namespace, the first slash and something more. */
  lemma WellFormedExactly(owner: string)
    ensures WellFormed(owner) <==>
      exists namespace: string, name: string :: namespace != "" && name != "" && '/' !in namespace && owner == namespace + "/" + name
  {
    if WellFormed(owner) {
      var i :| 0 < i < |owner| - 1 && owner[i] == '/' && '/' !in owner[..i];
      assert owner == owner[..i] + "/" + owner[i + 1..];
    }
    if namespace: string, name: string :| namespace != "" && name != "" && '/' !in namespace && owner == namespace + "/" + name {
      var i := |namespace|;
      assert owner[i] == '/' && owner[..i] == namespace;
    }
  }

  /** `staying` are definitions that exist throughout. */
  predicate CallOwned(server: Server, c: Call, staying: set<string>) {
    c.task.Apply? ==>
      && (c.pc.Writing? ==> c.task.owner == OwnerOf(c.pc.cur) || OwnerOf(c.pc.cur) !in staying)
      && (c.pc == Finished(true) && c.task.owner in staying ==> server.obj.Some? && OwnerOf(server.obj.value) == c.task.owner)
  }

  predicate AllOwned(s: State, staying: set<string>) {
    forall id {:trigger s.calls[id]} | id in s.calls :: CallOwned(s.server, s.calls[id], staying)
  }

  predicate OwnershipKept(s: State, staying: set<string>) {
    && Fresh(s) && staying <= s.live && "" !in staying
    && (forall d | d in staying :: WellFormed(d))
    && AllOwned(s, staying)
  }

  /** No event of the run deletes a definition that stays. */
  predicate Spares(events: seq<Event>, staying: set<string>) {
    forall i {:trigger events[i]} | 0 <= i < |events| && events[i].Leaves? :: events[i].definition !in staying
  }

  lemma MergedOwner(live: Crd, generated: Crd, owner: string)
    requires generated.versions != []
    ensures OwnerOf(Merged(live, generated, owner)) == if owner == "" then OwnerOf(live) else owner
  {
  }

  /** One step of an apply: it takes the CRD from nobody who stays, and what it writes carries its own name. */
  lemma ApplyOwns(s: State, id: nat, owner: string, generated: Crd, luck: Luck, staying: set<string>)
    requires OwnershipKept(s, staying) && id in s.calls && s.calls[id].task == Apply(owner, generated)
    ensures var s' := ApplyStep(s, id, owner, generated, luck);
      && CallOwned(s'.server, s'.calls[id], staying)
      && (Owner(s) in staying ==> Owner(s') == Owner(s))
  {
    var c := s.calls[id];
    assert CallFresh(s.server, c) && CallOwned(s.server, c, staying);
    if c.pc.Writing? && generated.versions != [] {
      WriteOwns(s, id, owner, generated, luck, staying);
    }
  }

  lemma WriteOwns(s: State, id: nat, owner: string, generated: Crd, luck: Luck, staying: set<string>)
    requires "" !in staying && id in s.calls && s.calls[id].task == Apply(owner, generated)
    requires CallFresh(s.server, s.calls[id]) && CallOwned(s.server, s.calls[id], staying)
    requires s.calls[id].pc.Writing? && generated.versions != []
    ensures var s' := ApplyStep(s, id, owner, generated, luck);
      CallOwned(s'.server, s'.calls[id], staying) && (Owner(s) in staying ==> Owner(s') == Owner(s))
  {
    var pc := s.calls[id].pc;
    MergedOwner(pc.cur, generated, owner);
    var next := Persisted(Merged(pc.cur, generated, owner), pc.cur.stored);
    assert ApplyStep(s, id, owner, generated, luck) == Written(s, id, pc.rv, next, luck, Finished(true), Retry(luck));
    assert OwnerOf(next) == if owner == "" then OwnerOf(pc.cur) else owner;
  }

  lemma PruneOwns(s: State, id: nat, current: string, luck: Luck)
    requires Fresh(s) && id in s.calls && s.calls[id].task == Prune(current)
    ensures Owner(PruneStep(s, id, current, luck)) == Owner(s)
  {
    assert CallFresh(s.server, s.calls[id]);
  }

  lemma RetireOwns(s: State, id: nat, current: string, luck: Luck)
    requires Fresh(s) && id in s.calls && s.calls[id].task == Retire(current)
    ensures Owner(RetireStep(s, id, current, luck)) == Owner(s)
  {
    assert CallFresh(s.server, s.calls[id]);
  }

  lemma ActsOwned(s: State, id: nat, luck: Luck, staying: set<string>)
    requires OwnershipKept(s, staying) && id in s.calls
    ensures OwnershipKept(Next(s, Acts(id, luck)), staying)
    ensures Owner(s) in staying ==> Owner(Next(s, Acts(id, luck))) == Owner(s)
  {
    var s' := Next(s, Acts(id, luck));
    NextFresh(s, Acts(id, luck));
    assert OnlyCall(s, s', id);
    match s.calls[id].task {
      case Apply(owner, generated) => ApplyOwns(s, id, owner, generated, luck, staying);
      case Prune(current) => PruneOwns(s, id, current, luck);
      case Retire(current) => RetireOwns(s, id, current, luck);
    }
    forall k | k in s'.calls ensures CallOwned(s'.server, s'.calls[k], staying) {
      if k != id {
        assert CallOwned(s.server, s.calls[k], staying);
      }
    }
  }

  lemma NextOwned(s: State, e: Event, staying: set<string>)
    requires OwnershipKept(s, staying) && (e.Leaves? ==> e.definition !in staying)
    ensures OwnershipKept(Next(s, e), staying)
    ensures Owner(s) in staying ==> Owner(Next(s, e)) == Owner(s)
  {
    if e.Acts? && e.id in s.calls {
      ActsOwned(s, e.id, e.luck, staying);
    } else {
      NextFresh(s, e);
    }
  }

  lemma {:induction false} RunOwned(s: State, events: seq<Event>, staying: set<string>)
    requires OwnershipKept(s, staying) && Spares(events, staying)
    ensures OwnershipKept(Run(s, events), staying)
    ensures Owner(s) in staying ==> Owner(Run(s, events)) == Owner(s)
  {
    if events != [] {
      var init := events[..|events| - 1];
      assert forall i | 0 <= i < |init| :: init[i] == events[i];
      RunOwned(s, init, staying);
      NextOwned(Run(s, init), events[|events| - 1], staying);
    }
  }

  predicate Succeeded(s: State, id: nat, owner: string) {
    id in s.calls && s.calls[id].task.Apply? && s.calls[id].task.owner == owner && s.calls[id].pc == Finished(true)
  }

  /** Where runs begin: no call is under way. The CRD may be absent, unowned or anyone's. */
  predicate Initial(s: State, staying: set<string>) {
    s.calls == map[] && staying <= s.live && forall d | d in staying :: WellFormed(d)
  }

  /**
   One live owner: however the applies of the definitions that stay interleave with each other, with those of
   others, and with prunes, the applies of at most one of them ever succeed, and of none but the owner if the CRD
   belonged to one of them at the start.
   */
  lemma OneOwner(s: State, events: seq<Event>, staying: set<string>, i: nat, k: nat, a: string, b: string)
    requires Initial(s, staying) && Spares(events, staying) && a in staying && b in staying
    requires Succeeded(Run(s, events), i, a) && Succeeded(Run(s, events), k, b)
    ensures a == b && (Owner(s) in staying ==> a == Owner(s))
  {
    InitialOwned(s, staying);
    RunOwned(s, events, staying);
    var final := Run(s, events);
    assert CallOwned(final.server, final.calls[i], staying) && CallOwned(final.server, final.calls[k], staying);
  }

  lemma InitialOwned(s: State, staying: set<string>)
    requires Initial(s, staying)
    ensures OwnershipKept(s, staying)
  {
    assert !WellFormed("");
  }

  /** The owner annotation never moves off a definition that stays. */
  lemma OwnerStays(s: State, before: seq<Event>, after: seq<Event>, staying: set<string>)
    requires Initial(s, staying) && Spares(before + after, staying) && Owner(Run(s, before)) in staying
    ensures Owner(Run(Run(s, before), after)) == Owner(Run(s, before))
  {
    InitialOwned(s, staying);
    var all := before + after;
    assert forall i | 0 <= i < |before| :: before[i] == all[i];
    assert forall i | 0 <= i < |after| :: after[i] == all[|before| + i];
    RunOwned(s, before, staying);
    RunOwned(Run(s, before), after, staying);
  }

  // ---- where the guarantees end -----------------------------------------------------------------------

  function Lucky(): Luck {
    Luck(false, false, false, {})
  }

  lemma RunStep(s: State, events: seq<Event>, e: Event)
    ensures Run(s, events + [e]) == Next(Run(s, events), e)
  {
    assert (events + [e])[..|events|] == events;
  }

  ghost predicate Reachable(s: State, t: State) {
    exists events :: Run(s, events) == t
  }

  lemma ReachNext(s: State, t: State, e: Event, t': State)
    requires Reachable(s, t) && Next(t, e) == t'
    ensures Reachable(s, t')
  {
    var events :| Run(s, events) == t;
    RunStep(s, events, e);
  }

  predicate Applying(s: State, id: nat, owner: string) {
    id in s.calls && s.calls[id].task.Apply? && s.calls[id].task.owner == owner && s.calls[id].task.generated.versions != []
    && s.server.obj.Some?
  }

  /** What an undisturbed apply does next, wherever it stands. */
  function Undisturbed(s: State, id: nat, owner: string): State
    requires Applying(s, id, owner)
  {
    var c := s.calls[id];
    match c.pc
    case Begin => Moved(s, id, Reading)
    case Reading => Moved(s, id, Checking(s.server.obj.value, s.server.rv))
    case Checking(cur, rv) =>
      if OwnerOf(cur) in {"", owner} then Moved(s, id, Writing(cur, rv))
      else if OwnerVerdict(OwnerOf(cur), s.live, false).Gone? then s.(calls := s.calls[id := Call(c.task, Writing(cur, rv), OwnerOf(cur))])
      else s.(calls := s.calls[id := Call(c.task, Finished(false), "")])
    case Writing(cur, rv) =>
      if rv != s.server.rv then Moved(s, id, Reading)
      else Moved(s.(server := Server(Some(Persisted(Merged(cur, c.task.generated, owner), cur.stored)), rv + 1)), id, Finished(true))
    case _ => s
  }

  lemma ActsUndisturbed(s: State, id: nat, owner: string)
    requires Applying(s, id, owner) && !s.calls[id].pc.Creating?
    ensures Next(s, Acts(id, Lucky())) == Undisturbed(s, id, owner)
  {
  }

  lemma ReachUndisturbed(s: State, t: State, id: nat, owner: string) returns (t': State)
    requires Reachable(s, t) && Applying(t, id, owner) && !t.calls[id].pc.Creating?
    ensures t' == Undisturbed(t, id, owner) && Reachable(s, t')
  {
    ActsUndisturbed(t, id, owner);
    t' := Undisturbed(t, id, owner);
    ReachNext(s, t, Acts(id, Lucky()), t');
  }

  lemma LooksUp(s: State, t: State, id: nat, owner: string) returns (t': State)
    requires Reachable(s, t) && Applying(t, id, owner)
    requires t.calls[id].pc == Begin || (t.calls[id].pc.Writing? && t.calls[id].pc.rv != t.server.rv)
    ensures Reachable(s, t') && t' == Moved(t, id, Checking(t.server.obj.value, t.server.rv))
  {
    var reading := ReachUndisturbed(s, t, id, owner);
    t' := ReachUndisturbed(s, reading, id, owner);
  }

  /** A call that just started finds the owner gone. */
  lemma FindsGone(s: State, t: State, id: nat, b: string) returns (t': State)
    requires Reachable(s, t) && Applying(t, id, b) && t.calls[id].pc == Begin
    requires Owner(t) !in {"", b} && Owner(t) !in t.live
    ensures Reachable(s, t')
    ensures t' == t.(calls := t.calls[id := Call(t.calls[id].task, Writing(t.server.obj.value, t.server.rv), Owner(t))])
  {
    var checking := LooksUp(s, t, id, b);
    t' := ReachUndisturbed(s, checking, id, b);
  }

  /**
   Staying matters: an owner that is deleted and created again between another call's look at it and that call's
   write loses the CRD while it exists.
   */
  lemma RecreatedOwnerLoses(s: State, a: string, b: string, generated: Crd) returns (before: State)
    requires Initial(s, {b}) && s.server.obj.Some? && Owner(s) == a && a !in {"", b} && a !in s.live && generated.versions != []
    ensures Reachable(s, before) && a in before.live && Owner(before) == a
    ensures var after := Next(before, Acts(0, Lucky())); a in after.live && Owner(after) == b && Succeeded(after, 0, b)
  {
    assert !WellFormed("");
    var started := BothStarted(s, b, generated);
    var writing := FindsGone(s, started, 0, b);
    before := writing.(live := writing.live + {a});
    ReachNext(s, writing, Comes(a), before);
    WritesOwner(before, 0, b);
  }

  /** A write on the version that was read makes its caller the owner. */
  lemma WritesOwner(s: State, id: nat, owner: string)
    requires Applying(s, id, owner) && owner != "" && s.calls[id].pc.Writing? && s.calls[id].pc.rv == s.server.rv
    ensures var s' := Next(s, Acts(id, Lucky())); Owner(s') == owner && s'.live == s.live && Succeeded(s', id, owner)
  {
    ActsUndisturbed(s, id, owner);
    MergedOwner(s.calls[id].pc.cur, s.calls[id].task.generated, owner);
  }

  /** A call whose write comes too late reads again: its own name this time, and what it noted stays. */
  lemma ReadsOwnName(s: State, t: State, id: nat, b: string) returns (t': State)
    requires Reachable(s, t) && Applying(t, id, b) && t.calls[id].pc.Writing? && t.calls[id].pc.rv != t.server.rv && Owner(t) == b
    ensures Reachable(s, t') && t' == Moved(t, id, Writing(t.server.obj.value, t.server.rv))
  {
    var checking := LooksUp(s, t, id, b);
    t' := ReachUndisturbed(s, checking, id, b);
  }

  lemma BothStarted(s: State, b: string, generated: Crd) returns (t: State)
    requires s.calls == map[]
    ensures var c := Call(Apply(b, generated), Begin, ""); t == s.(calls := map[0 := c, 1 := c]) && Reachable(s, t)
  {
    assert Run(s, []) == s;
    var c := Call(Apply(b, generated), Begin, "");
    var one := s.(calls := map[0 := c]);
    ReachNext(s, s, Starts(0, c.task), one);
    t := s.(calls := map[0 := c, 1 := c]);
    ReachNext(s, one, Starts(1, c.task), t);
  }

  /**
   The report of an adoption can be stale: from a start with the CRD in the hands of a deleted owner, two calls
   of one definition lead to a state in which the definition owns the CRD, and from which the first call
   succeeds and still reports that it took the CRD from the deleted owner.
   */
  lemma StaleAdoption(s: State, a: string, b: string, generated: Crd) returns (before: State)
    requires Initial(s, {b}) && s.server.obj.Some? && Owner(s) == a && a !in {"", b} && a !in s.live && generated.versions != []
    ensures Reachable(s, before) && Owner(before) == b
    ensures var last := Next(before, Acts(0, Lucky())); Succeeded(last, 0, b) && last.calls[0].adoptedFrom == a
  {
    assert !WellFormed("");
    var t := BothStarted(s, b, generated);
    var t1 := FindsGone(s, t, 0, b);
    var t2 := FindsGone(s, t1, 1, b);
    var t3 := ReachUndisturbed(s, t2, 1, b);
    MergedOwner(s.server.obj.value, generated, b);
    before := ReadsOwnName(s, t3, 0, b);
    ActsUndisturbed(before, 0, b);
  }
}
