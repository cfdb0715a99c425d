/**
 Several RestDefinitions apply and prune one shared CRD. The API server keeps the object with a resource
 version; a write succeeds only on the resource version that was read. Calls interleave step by step.
 */
module CrdProtocol {
  import opened Json
  import opened CrdVersions
  import opened CrdTopology

  datatype Server = Server(obj: Option<Crd>, rv: nat)

  datatype Task =
    | Apply(owner: string, generated: Crd)  // create or merge a generated CRD for a RestDefinition
    | Prune(current: string)                // drop the versions that were never stored
    | Retire(current: string)               // trim storedVersions, then drop the versions nothing uses

  /** Where a call stands. What was read is kept with the resource version it was read at. */
  datatype Pc =
    | Begin
    | Creating
    | Reading
    | Checking(cur: Crd, rv: nat)
    | Writing(cur: Crd, rv: nat)
    | Evaluated(names: set<string>)
    | Trimming(cur: Crd, rv: nat, names: set<string>)
    | Removing(cur: Crd, rv: nat, names: set<string>)
    | Finished(ok: bool)

  datatype Call = Call(task: Task, pc: Pc, adoptedFrom: string)

  datatype State = State(server: Server, live: set<string>, calls: map<nat, Call>)

  /**
   What the environment decides about one step: whether the request fails, whether a failing write took effect
   all the same, whether a conflict exhausts the retries, and which versions are still referenced or in use.
   */
  datatype Luck = Luck(fails: bool, applied: bool, lastTry: bool, kept: set<string>)

  datatype Event = Comes(definition: string) | Leaves(definition: string) | Starts(id: nat, task: Task) | Acts(id: nat, luck: Luck)

  // ---- what a call reads and decides ------------------------------------------------------------------

  /** The namespace/name form of an owner: a first "/" with something on either side. */
  predicate WellFormed(owner: string) {
    exists i | 0 < i < |owner| - 1 :: owner[i] == '/' && '/' !in owner[..i]
  }

  datatype Verdict = Alive | Gone | Undetermined

  function OwnerVerdict(owner: string, live: set<string>, fails: bool): Verdict {
    if !WellFormed(owner) then Gone
    else if fails then Undetermined
    else if owner in live then Alive else Gone
  }

  function PrunableSet(c: Crd, current: string): set<string> {
    set name | name in PrunableNames(c, c.versions, current)
  }

  function NamesOf(versions: seq<Version>): set<string> {
    set i | 0 <= i < |versions| :: versions[i].name
  }

  /** The served versions to retire: neither the vacuum, nor current, nor kept by a reference or an instance. */
  function Retired(c: Crd, current: string, kept: set<string>): set<string> {
    NamesOf(c.versions) - kept - {VACUUM, current}
  }

  function Trimmed(stored: seq<string>, names: set<string>): seq<string> {
    if stored == [] then []
    else (if stored[0] in names then [] else [stored[0]]) + Trimmed(stored[1..], names)
  }

  /** The server records every storage version in storedVersions when it persists a spec. */
  function Recorded(stored: seq<string>, versions: seq<Version>): seq<string>
    decreases versions
  {
    if versions == [] then stored
    else Recorded(if versions[0].storage && versions[0].name !in stored then stored + [versions[0].name] else stored, versions[1..])
  }

  function Persisted(c: Crd, stored: seq<string>): Crd {
    c.(stored := Recorded(stored, c.versions))
  }

  // ---- one step ---------------------------------------------------------------------------------------

  /** A step of one call leaves the other calls where they are, and never deletes the object. */
  predicate OnlyCall(s: State, s': State, id: nat)
    requires id in s.calls
  {
    && s'.live == s.live && s'.calls.Keys == s.calls.Keys && s'.calls[id].task == s.calls[id].task
    && (s.server.obj.Some? ==> s'.server.obj.Some?)
    && forall k {:trigger s'.calls[k]} | k in s.calls && k != id :: s'.calls[k] == s.calls[k]
  }

  function Moved(s: State, id: nat, pc: Pc): (s': State)
    requires id in s.calls
    ensures OnlyCall(s, s', id)
  {
    s.(calls := s.calls[id := s.calls[id].(pc := pc)])
  }

  /** A compare-and-swap write of `next`, read at `rv`. */
  function Written(s: State, id: nat, rv: nat, next: Crd, luck: Luck, done: Pc, conflict: Pc): (s': State)
    requires id in s.calls
    ensures OnlyCall(s, s', id)
  {
    if s.server.obj.None? || s.server.rv != rv then Moved(s, id, if luck.fails then Finished(false) else conflict)
    else if luck.fails && !luck.applied then Moved(s, id, Finished(false))
    else Moved(s.(server := Server(Some(next), s.server.rv + 1)), id, if luck.fails then Finished(false) else done)
  }

  function Retry(luck: Luck): Pc {
    if luck.lastTry then Finished(false) else Reading
  }

  /** A create that finds the object there goes on to merge into it. */
  function CreateStep(s: State, id: nat, created: Crd, luck: Luck): (s': State)
    requires id in s.calls
    ensures OnlyCall(s, s', id)
  {
    if s.server.obj.Some? then Moved(s, id, if luck.fails then Finished(false) else Reading)
    else if luck.fails && !luck.applied then Moved(s, id, Finished(false))
    else Moved(s.(server := Server(Some(created), s.server.rv + 1)), id, Finished(!luck.fails))
  }

  /** Another owner's name in the annotation is a question: only one confirmed gone is displaced. */
  function CheckStep(s: State, id: nat, owner: string, cur: Crd, rv: nat, luck: Luck): (s': State)
    requires id in s.calls
    ensures OnlyCall(s, s', id)
  {
    var o := OwnerOf(cur);
    if o == "" || o == owner then Moved(s, id, Writing(cur, rv))
    else if OwnerVerdict(o, s.live, luck.fails).Gone? then
      s.(calls := s.calls[id := Call(s.calls[id].task, Writing(cur, rv), o)])
    else s.(calls := s.calls[id := Call(s.calls[id].task, Finished(false), "")])
  }

  function ApplyStep(s: State, id: nat, owner: string, generated: Crd, luck: Luck): (s': State)
    requires id in s.calls
    ensures OnlyCall(s, s', id)
  {
    var obj := s.server.obj;
    match s.calls[id].pc
    case Begin =>
      if generated.versions == [] || luck.fails then Moved(s, id, Finished(false))
      else Moved(s, id, if obj.None? then Creating else Reading)
    case Creating => CreateStep(s, id, Persisted(Stamped(generated, owner), []), luck)
    case Reading =>
      if luck.fails || obj.None? then Moved(s, id, Finished(false)) else Moved(s, id, Checking(obj.value, s.server.rv))
    case Checking(cur, rv) => CheckStep(s, id, owner, cur, rv, luck)
    case Writing(cur, rv) =>
      if generated.versions == [] then s
      else Written(s, id, rv, Persisted(Merged(cur, generated, owner), cur.stored), luck, Finished(true), Retry(luck))
    case _ => s
  }

  function PruneStep(s: State, id: nat, current: string, luck: Luck): (s': State)
    requires id in s.calls
    ensures OnlyCall(s, s', id)
  {
    var obj := s.server.obj;
    match s.calls[id].pc
    case Begin =>
      if luck.fails then Moved(s, id, Finished(false))
      else if obj.None? || PrunableSet(obj.value, current) == {} then Moved(s, id, Finished(true))
      else Moved(s, id, Reading)
    case Reading =>
      if luck.fails || obj.None? then Moved(s, id, Finished(false))
      else if PrunableSet(obj.value, current) == {} then Moved(s, id, Finished(true))
      else Moved(s, id, Writing(obj.value, s.server.rv))
    case Writing(cur, rv) =>
      Written(s, id, rv, Persisted(Dropped(cur, PrunableSet(cur, current)), cur.stored), luck, Finished(true), Retry(luck))
    case _ => s
  }

  function Dropped(c: Crd, names: set<string>): Crd {
    c.(versions := Removed(c.versions, names))
  }

  function RetireStep(s: State, id: nat, current: string, luck: Luck): (s': State)
    requires id in s.calls
    ensures OnlyCall(s, s', id)
  {
    var obj := s.server.obj;
    match s.calls[id].pc
    case Begin =>
      if luck.fails then Moved(s, id, Finished(false))
      else if obj.None? || Retired(obj.value, current, luck.kept) == {} then Moved(s, id, Finished(true))
      else Moved(s, id, Evaluated(Retired(obj.value, current, luck.kept)))
    case Evaluated(names) =>
      if luck.fails then Moved(s, id, Finished(false))
      else if obj.None? then Moved(s, id, Finished(true))
      else if Trimmed(obj.value.stored, names) != obj.value.stored then Moved(s, id, Trimming(obj.value, s.server.rv, names))
      else Moved(s, id, ToRemove(obj.value, s.server.rv, names))
    case Trimming(cur, rv, names) =>
      var trimmed := cur.(stored := Trimmed(cur.stored, names));
      Written(s, id, rv, trimmed, luck, ToRemove(trimmed, s.server.rv + 1, names), Finished(false))
    case Removing(cur, rv, names) =>
      Written(s, id, rv, Persisted(Dropped(cur, names), cur.stored), luck, Finished(true), Finished(false))
    case _ => s
  }

  /** The second write, unless none of the versions is there any more. */
  function ToRemove(cur: Crd, rv: nat, names: set<string>): Pc {
    if Removed(cur.versions, names) == cur.versions then Finished(true) else Removing(cur, rv, names)
  }

  function Next(s: State, e: Event): State {
    match e
    case Comes(d) => s.(live := s.live + {d})
    case Leaves(d) => s.(live := s.live - {d})
    case Starts(id, task) => if id in s.calls then s else s.(calls := s.calls[id := Call(task, Begin, "")])
    case Acts(id, luck) =>
      if id !in s.calls then s else
        match s.calls[id].task
        case Apply(owner, generated) => ApplyStep(s, id, owner, generated, luck)
        case Prune(current) => PruneStep(s, id, current, luck)
        case Retire(current) => RetireStep(s, id, current, luck)
  }

  function Run(s: State, events: seq<Event>): State {
    if events == [] then s else Next(Run(s, events[..|events| - 1]), events[|events| - 1])
  }

  // ---- what a call has read is the object, as long as the resource version stands ---------------------

  predicate Known(server: Server, cur: Crd, rv: nat) {
    rv <= server.rv && (rv == server.rv ==> server.obj == Some(cur))
  }

  predicate CallFresh(server: Server, c: Call) {
    match c.pc
    case Checking(cur, rv) => Known(server, cur, rv)
    case Writing(cur, rv) => Known(server, cur, rv)
    case Trimming(cur, rv, names) => Known(server, cur, rv) && (c.task.Retire? ==> VACUUM !in names && c.task.current !in names)
    case Removing(cur, rv, names) =>
      Known(server, cur, rv) && (c.task.Retire? ==> VACUUM !in names && c.task.current !in names && forall n | n in cur.stored :: n !in names)
    case Evaluated(names) => c.task.Retire? ==> VACUUM !in names && c.task.current !in names
    case _ => true
  }

  predicate Fresh(s: State) {
    forall id {:trigger s.calls[id]} | id in s.calls :: CallFresh(s.server, s.calls[id])
  }

  lemma {:induction false} TrimmedNames(stored: seq<string>, names: set<string>)
    ensures forall n :: n in Trimmed(stored, names) <==> n in stored && n !in names
  {
    if stored != [] {
      TrimmedNames(stored[1..], names);
    }
  }

  lemma CallSetFresh(s: State, id: nat, c: Call)
    requires Fresh(s) && CallFresh(s.server, c)
    ensures Fresh(s.(calls := s.calls[id := c]))
  {
  }

  lemma MovedFresh(s: State, id: nat, pc: Pc)
    requires Fresh(s) && id in s.calls && CallFresh(s.server, s.calls[id].(pc := pc))
    ensures Fresh(Moved(s, id, pc))
  {
    CallSetFresh(s, id, s.calls[id].(pc := pc));
  }

  /** After a write, what others have read is out of date. */
  lemma WroteFresh(s: State, id: nat, next: Crd, c: Call)
    requires Fresh(s) && CallFresh(Server(Some(next), s.server.rv + 1), c)
    ensures Fresh(s.(server := Server(Some(next), s.server.rv + 1), calls := s.calls[id := c]))
  {
    var s' := s.(server := Server(Some(next), s.server.rv + 1), calls := s.calls[id := c]);
    forall k | k in s'.calls ensures CallFresh(s'.server, s'.calls[k]) {
      if k != id {
        assert CallFresh(s.server, s.calls[k]);
      }
    }
  }

  lemma WrittenFresh(s: State, id: nat, rv: nat, next: Crd, luck: Luck, done: Pc, conflict: Pc)
    requires Fresh(s) && id in s.calls && CallFresh(s.server, s.calls[id].(pc := conflict))
    requires s.server.rv == rv ==> CallFresh(Server(Some(next), s.server.rv + 1), s.calls[id].(pc := done))
    ensures Fresh(Written(s, id, rv, next, luck, done, conflict))
  {
    if s.server.obj.None? || s.server.rv != rv || (luck.fails && !luck.applied) {
      MovedFresh(s, id, if luck.fails then Finished(false) else conflict);
    } else {
      var pc := if luck.fails then Finished(false) else done;
      WroteFresh(s, id, next, s.calls[id].(pc := pc));
    }
  }

  lemma CreateFresh(s: State, id: nat, created: Crd, luck: Luck)
    requires Fresh(s) && id in s.calls
    ensures Fresh(CreateStep(s, id, created, luck))
  {
    if s.server.obj.Some? {
      MovedFresh(s, id, if luck.fails then Finished(false) else Reading);
    } else if luck.fails && !luck.applied {
      MovedFresh(s, id, Finished(false));
    } else {
      WroteFresh(s, id, created, s.calls[id].(pc := Finished(!luck.fails)));
    }
  }

  lemma CheckFresh(s: State, id: nat, owner: string, cur: Crd, rv: nat, luck: Luck)
    requires Fresh(s) && id in s.calls && Known(s.server, cur, rv)
    ensures Fresh(CheckStep(s, id, owner, cur, rv, luck))
  {
    CallSetFresh(s, id, CheckStep(s, id, owner, cur, rv, luck).calls[id]);
  }

  lemma ApplyFresh(s: State, id: nat, owner: string, generated: Crd, luck: Luck)
    requires Fresh(s) && id in s.calls && s.calls[id].task == Apply(owner, generated)
    ensures Fresh(ApplyStep(s, id, owner, generated, luck))
  {
    var pc, s' := s.calls[id].pc, ApplyStep(s, id, owner, generated, luck);
    assert CallFresh(s.server, s.calls[id]);
    if pc.Creating? {
      CreateFresh(s, id, Persisted(Stamped(generated, owner), []), luck);
    } else if pc.Checking? {
      CheckFresh(s, id, owner, pc.cur, pc.rv, luck);
    } else if pc.Writing? && generated.versions != [] {
      WrittenFresh(s, id, pc.rv, Persisted(Merged(pc.cur, generated, owner), pc.cur.stored), luck, Finished(true), Retry(luck));
    } else if s' != s {
      MovedFresh(s, id, s'.calls[id].pc);
    }
  }

  lemma PruneFresh(s: State, id: nat, current: string, luck: Luck)
    requires Fresh(s) && id in s.calls && s.calls[id].task == Prune(current)
    ensures Fresh(PruneStep(s, id, current, luck))
  {
    var pc, s' := s.calls[id].pc, PruneStep(s, id, current, luck);
    assert CallFresh(s.server, s.calls[id]);
    if pc.Writing? {
      WrittenFresh(s, id, pc.rv, Persisted(Dropped(pc.cur, PrunableSet(pc.cur, current)), pc.cur.stored), luck, Finished(true), Retry(luck));
    } else if s' != s {
      MovedFresh(s, id, s'.calls[id].pc);
    }
  }

  lemma RetireFresh(s: State, id: nat, current: string, luck: Luck)
    requires Fresh(s) && id in s.calls && s.calls[id].task == Retire(current)
    ensures Fresh(RetireStep(s, id, current, luck))
  {
    var pc, s' := s.calls[id].pc, RetireStep(s, id, current, luck);
    assert CallFresh(s.server, s.calls[id]);
    if pc.Trimming? {
      var trimmed := pc.cur.(stored := Trimmed(pc.cur.stored, pc.names));
      TrimmedNames(pc.cur.stored, pc.names);
      WrittenFresh(s, id, pc.rv, trimmed, luck, ToRemove(trimmed, s.server.rv + 1, pc.names), Finished(false));
    } else if pc.Removing? {
      WrittenFresh(s, id, pc.rv, Persisted(Dropped(pc.cur, pc.names), pc.cur.stored), luck, Finished(true), Finished(false));
    } else {
      if pc.Evaluated? && s.server.obj.Some? {
        TrimmedNames(s.server.obj.value.stored, pc.names);
      }
      if s' != s {
        MovedFresh(s, id, s'.calls[id].pc);
      }
    }
  }

  lemma NextFresh(s: State, e: Event)
    requires Fresh(s)
    ensures Fresh(Next(s, e))
  {
    if e.Acts? && e.id in s.calls {
      match s.calls[e.id].task
      case Apply(owner, generated) => ApplyFresh(s, e.id, owner, generated, e.luck);
      case Prune(current) => PruneFresh(s, e.id, current, e.luck);
      case Retire(current) => RetireFresh(s, e.id, current, e.luck);
    } else if e.Starts? && e.id !in s.calls {
      CallSetFresh(s, e.id, Call(e.task, Begin, ""));
    }
  }

  lemma {:induction false} RunFresh(s: State, events: seq<Event>)
    requires Fresh(s)
    ensures Fresh(Run(s, events))
  {
    if events != [] {
      RunFresh(s, events[..|events| - 1]);
      NextFresh(Run(s, events[..|events| - 1]), events[|events| - 1]);
    }
  }

  // ---- no lost version --------------------------------------------------------------------------------

  function SchemaAt(s: State, v: string): Option<string> {
    if s.server.obj.None? then None else SchemaOf(s.server.obj.value.versions, v)
  }

  /** At this step an apply of version v writes. */
  predicate Applies(s: State, e: Event, v: string) {
    && e.Acts? && e.id in s.calls && s.calls[e.id].pc.Writing?
    && s.calls[e.id].task.Apply? && s.calls[e.id].task.generated.versions != []
    && s.calls[e.id].task.generated.versions[0].name == v
  }

  /**
   At this step a prune writes whose read, still the object as it is, shows v neither current, nor the vacuum,
   nor stored; when retiring, v was among the versions found unreferenced and unused.
   */
  predicate Drops(s: State, e: Event, v: string) {
    && e.Acts? && e.id in s.calls && s.server.obj.Some? && v != VACUUM && v !in s.server.obj.value.stored
    && var c := s.calls[e.id];
       || (c.task.Prune? && c.pc.Writing? && s.server.obj == Some(c.pc.cur) && v != c.task.current)
       || (c.task.Retire? && c.pc.Removing? && s.server.obj == Some(c.pc.cur) && v != c.task.current && v in c.pc.names)
  }

  lemma ApplyKeepsVersion(s: State, id: nat, owner: string, generated: Crd, luck: Luck, v: string)
    requires Fresh(s) && SchemaAt(s, v).Some? && id in s.calls && s.calls[id].task == Apply(owner, generated)
    ensures var s' := ApplyStep(s, id, owner, generated, luck);
      SchemaAt(s', v).Some? && (SchemaAt(s', v) != SchemaAt(s, v) ==> Applies(s, Acts(id, luck), v))
  {
    var c := s.calls[id];
    assert CallFresh(s.server, c);
    if c.pc.Writing? && generated.versions != [] {
      MergedKeepsVersions(c.pc.cur, generated, owner, v);
    }
  }

  lemma PruneKeepsVersion(s: State, id: nat, current: string, luck: Luck, v: string)
    requires Fresh(s) && SchemaAt(s, v).Some? && id in s.calls && s.calls[id].task == Prune(current)
    ensures var s' := PruneStep(s, id, current, luck);
      SchemaAt(s', v) == SchemaAt(s, v) || (SchemaAt(s', v).None? && Drops(s, Acts(id, luck), v))
  {
    var c := s.calls[id];
    assert CallFresh(s.server, c);
    if c.pc.Writing? {
      RemovedSchemas(c.pc.cur.versions, PrunableSet(c.pc.cur, current), v);
      PrunableExactly(c.pc.cur, c.pc.cur.versions, current, v);
    }
  }

  lemma RetireKeepsVersion(s: State, id: nat, current: string, luck: Luck, v: string)
    requires Fresh(s) && SchemaAt(s, v).Some? && id in s.calls && s.calls[id].task == Retire(current)
    ensures var s' := RetireStep(s, id, current, luck);
      SchemaAt(s', v) == SchemaAt(s, v) || (SchemaAt(s', v).None? && Drops(s, Acts(id, luck), v))
  {
    var c := s.calls[id];
    assert CallFresh(s.server, c);
    if c.pc.Removing? {
      RemovedSchemas(c.pc.cur.versions, c.pc.names, v);
    }
  }

  /** In one step a version's schema changes only by an apply naming it; it goes only by a prune that may drop it. */
  lemma StepKeepsVersion(s: State, e: Event, v: string)
    requires Fresh(s) && SchemaAt(s, v).Some?
    ensures SchemaAt(Next(s, e), v) != SchemaAt(s, v) ==> Applies(s, e, v) || Drops(s, e, v)
    ensures SchemaAt(Next(s, e), v).None? ==> Drops(s, e, v)
  {
    if e.Acts? && e.id in s.calls {
      match s.calls[e.id].task
      case Apply(owner, generated) => ApplyKeepsVersion(s, e.id, owner, generated, e.luck, v);
      case Prune(current) => PruneKeepsVersion(s, e.id, current, e.luck, v);
      case Retire(current) => RetireKeepsVersion(s, e.id, current, e.luck, v);
    }
  }

  ghost predicate DroppedAt(s: State, events: seq<Event>, i: nat, v: string) {
    i < |events| && Drops(Run(s, events[..i]), events[i], v)
  }

  ghost predicate AppliedAt(s: State, events: seq<Event>, i: nat, v: string) {
    i < |events| && Applies(Run(s, events[..i]), events[i], v)
  }

  lemma SameInLonger(s: State, init: seq<Event>, events: seq<Event>, i: nat, v: string)
    requires |init| <= |events| && init == events[..|init|] && i < |init|
    ensures DroppedAt(s, init, i, v) == DroppedAt(s, events, i, v)
    ensures AppliedAt(s, init, i, v) == AppliedAt(s, events, i, v)
  {
    assert init[..i] == events[..i];
  }

  /** Over any run: a version that is gone or changed at the end was dropped, or applied, by a step of the run. */
  lemma {:induction false} NoLostVersion(s: State, events: seq<Event>, v: string)
    requires Fresh(s) && SchemaAt(s, v).Some? && SchemaAt(Run(s, events), v) != SchemaAt(s, v)
    ensures exists i :: AppliedAt(s, events, i, v) || DroppedAt(s, events, i, v)
    ensures SchemaAt(Run(s, events), v).None? ==> exists i :: DroppedAt(s, events, i, v)
  {
    var n := |events| - 1;
    var init := events[..n];
    var before := Run(s, init);
    RunFresh(s, init);
    if SchemaAt(before, v).Some? {
      StepKeepsVersion(before, events[n], v);
      assert Drops(before, events[n], v) ==> DroppedAt(s, events, n, v);
      assert Applies(before, events[n], v) ==> AppliedAt(s, events, n, v);
    }
    if SchemaAt(before, v) != SchemaAt(s, v) {
      NoLostVersion(s, init, v);
      var i :| AppliedAt(s, init, i, v) || DroppedAt(s, init, i, v);
      SameInLonger(s, init, events, i, v);
      if SchemaAt(before, v).None? {
        var k :| DroppedAt(s, init, k, v);
        SameInLonger(s, init, events, k, v);
      }
    }
  }
}
