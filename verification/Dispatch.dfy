/** A fire-and-forget endpoint, correlated by a token that it echoes in a collection. */
module Dispatch {
  import opened Json
  import opened Annotations
  import opened Requests

  const DISPATCHED_TOKEN := "krateo.io/dispatched-token"
  const OBSERVE_MISSES := "krateo.io/dispatch-observe-misses"
  const MAX_OBSERVE_MISSES: nat := 5

  // ---- the collection ---------------------------------------------------------------------------------

  /** What an item echoes at the declared path; None when it is no object or echoes nothing there. */
  type Echo = Option<string>

  datatype Correlation = Missing | Found(index: nat) | Ambiguous(matches: nat)

  function Matches(items: seq<Echo>, token: string): (n: nat)
    ensures n <= |items|
  {
    if items == [] then 0 else Matches(items[..|items| - 1], token) + if items[|items| - 1] == Some(token) then 1 else 0
  }

  /** One match is found, several are an error, none is a miss. */
  method FindCorrelatedItem(items: seq<Echo>, token: string) returns (r: Correlation)
    ensures r == Missing <==> Some(token) !in items
    ensures r.Found? <==> exists i :: OnlyMatch(items, token, i)
    ensures r.Found? ==> OnlyMatch(items, token, r.index)
    ensures r.Ambiguous? ==> r.matches == Matches(items, token) && r.matches > 1
  {
    var first: Option<nat>, matches := None, 0;
    for i := 0 to |items|
      invariant matches == Matches(items[..i], token)
      invariant first.None? <==> matches == 0
      invariant first.None? ==> Some(token) !in items[..i]
      invariant first.Some? ==> first.value < i && items[first.value] == Some(token)
      invariant matches == 1 ==> OnlyMatch(items[..i], token, first.value)
    {
      assert items[..i + 1][..i] == items[..i];
      if items[i] == Some(token) {
        matches := matches + 1;
        if first.None? {
          first := Some(i);
        }
      }
    }
    assert items[..|items|] == items;
    if matches == 0 {
      return Missing;
    }
    if matches > 1 {
      SeveralMatches(items, token);
      return Ambiguous(matches);
    }
    r := Found(first.value);
  }

  predicate OnlyMatch(items: seq<Echo>, token: string, i: nat) {
    i < |items| && items[i] == Some(token) && forall k | 0 <= k < |items| && items[k] == Some(token) :: k == i
  }

  lemma {:induction false} SeveralMatches(items: seq<Echo>, token: string)
    requires Matches(items, token) > 1
    ensures forall i :: !OnlyMatch(items, token, i)
    ensures Some(token) in items
  {
    var init := items[..|items| - 1];
    if Matches(init, token) > 1 {
      SeveralMatches(init, token);
      forall i: nat ensures !OnlyMatch(items, token, i) {
        if i < |init| && items[i] == Some(token) {
          assert !OnlyMatch(init, token, i);
          var k :| 0 <= k < |init| && init[k] == Some(token) && k != i;
          assert items[k] == Some(token);
        } else if i == |init| {
          var k :| 0 <= k < |init| && init[k] == Some(token);
          assert items[k] == Some(token);
        }
      }
    } else {
      SomeMatch(init, token);
      var k :| 0 <= k < |init| && init[k] == Some(token);
      assert items[k] == Some(token) && items[|init|] == Some(token);
    }
  }

  lemma {:induction false} SomeMatch(items: seq<Echo>, token: string)
    ensures Matches(items, token) > 0 <==> Some(token) in items
  {
    if items != [] {
      SomeMatch(items[..|items| - 1], token);
      assert items == items[..|items| - 1] + [items[|items| - 1]];
    }
  }

  // ---- observing and creating -------------------------------------------------------------------------

  function Misses(ann: Annotations): nat {
    Counter(Get(ann, OBSERVE_MISSES))
  }

  predicate AlreadyDispatched(ann: Annotations, token: string) {
    token != "" && Get(ann, DISPATCHED_TOKEN) == token
  }

  function Missed(ann: Annotations): Annotations {
    Patched(ann, map[OBSERVE_MISSES := Some(Itoa(Misses(ann) + 1))])
  }

  function Seen(ann: Annotations): Annotations {
    if Misses(ann) > 0 then Patched(ann, map[OBSERVE_MISSES := None]) else ann
  }

  function Fired(ann: Annotations, token: string): Annotations {
    Patched(ann, map[DISPATCHED_TOKEN := Some(token), OBSERVE_MISSES := None])
  }

  lemma KeysDiffer()
    ensures DISPATCHED_TOKEN != OBSERVE_MISSES
  {
    assert |DISPATCHED_TOKEN| != |OBSERVE_MISSES|;
  }

  /** Observing never touches the record of what was fired; firing sets it. */
  lemma RecordKept(ann: Annotations, token: string)
    ensures Get(Missed(ann), DISPATCHED_TOKEN) == Get(ann, DISPATCHED_TOKEN)
    ensures Get(Seen(ann), DISPATCHED_TOKEN) == Get(ann, DISPATCHED_TOKEN)
    ensures Get(Fired(ann, token), DISPATCHED_TOKEN) == token
    ensures Misses(Missed(ann)) == Misses(ann) + 1 && Misses(Seen(ann)) == 0 && Misses(Fired(ann, token)) == 0
  {
    KeysDiffer();
    var missed: Patch := map[OBSERVE_MISSES := Some(Itoa(Misses(ann) + 1))];
    var seen: Patch := map[OBSERVE_MISSES := None];
    var fired: Patch := map[DISPATCHED_TOKEN := Some(token), OBSERVE_MISSES := None];
    PatchedGet(ann, missed, DISPATCHED_TOKEN);
    PatchedGet(ann, missed, OBSERVE_MISSES);
    PatchedGet(ann, seen, DISPATCHED_TOKEN);
    PatchedGet(ann, seen, OBSERVE_MISSES);
    PatchedGet(ann, fired, DISPATCHED_TOKEN);
    PatchedGet(ann, fired, OBSERVE_MISSES);
    CounterRoundTrip(Misses(ann) + 1);
    assert Counter("") == 0;
  }

  /** What reading the collection brings: items, or an error of any kind, its absence included. */
  datatype Read = Failed | Items(items: seq<Echo>)

  datatype Answer = Error | Held | Absent

  datatype Ready = Unchanged | TokenMissing | Creating | NotObserved | Available

  /** How the annotation patch and the status write of an observe end. */
  datatype Luck = Luck(patch: Request, status: Request)

  function Lucky(): Luck {
    Luck(Request(false, false), Request(false, false))
  }

  datatype Observed = Observed(ann: Annotations, answer: Answer, ready: Ready)

  predicate IsUnique(items: seq<Echo>, token: string) {
    exists i | 0 <= i < |items| :: OnlyMatch(items, token, i)
  }

  function Observe(ann: Annotations, token: Option<string>, read: Read, luck: Luck): Observed {
    if token.None? || token.value == "" then Shown(ann, luck.status, TokenMissing)
    else if read.Failed? then Observed(ann, Error, Unchanged)
    else if Some(token.value) !in read.items then
      if !AlreadyDispatched(ann, token.value) then Observed(ann, Absent, Unchanged)
      else if luck.patch.fails then Observed(if luck.patch.applied then Missed(ann) else ann, Error, Unchanged)
      else Shown(Missed(ann), luck.status, if Misses(ann) + 1 >= MAX_OBSERVE_MISSES then NotObserved else Creating)
    else if !IsUnique(read.items, token.value) then Observed(ann, Error, Unchanged)
    else if luck.patch.fails && Misses(ann) > 0 then Observed(if luck.patch.applied then Seen(ann) else ann, Error, Unchanged)
    else Shown(Seen(ann), luck.status, Available)
  }

  /** The status write that comes before a resource is held. */
  function Shown(ann: Annotations, status: Request, ready: Ready): Observed {
    Observed(ann, if status.fails then Error else Held, if Effective(status) then ready else Unchanged)
  }

  /** Not there is answered only for a token that is set, that no item echoes, and that was never fired for. */
  lemma AbsentExactly(ann: Annotations, token: Option<string>, read: Read, luck: Luck)
    ensures Observe(ann, token, read, luck).answer == Absent <==>
      token.Some? && token.value != "" && read.Items? && Some(token.value) !in read.items && Get(ann, DISPATCHED_TOKEN) != token.value
  {
  }

  lemma {:induction false} MatchCount(items: seq<Echo>, token: string)
    ensures Matches(items, token) == multiset(items)[Some(token)]
  {
    if items != [] {
      MatchCount(items[..|items| - 1], token);
      assert items == items[..|items| - 1] + [items[|items| - 1]];
    }
  }

  lemma UniqueCounted(items: seq<Echo>, token: string)
    ensures IsUnique(items, token) <==> multiset(items)[Some(token)] == 1
  {
    MatchCount(items, token);
    if Matches(items, token) > 1 {
      SeveralMatches(items, token);
    } else if Matches(items, token) == 1 {
      SingleMatch(items, token);
    } else {
      SomeMatch(items, token);
    }
  }

  lemma {:induction false} SingleMatch(items: seq<Echo>, token: string)
    requires Matches(items, token) == 1
    ensures IsUnique(items, token)
  {
    var n := |items| - 1;
    if items[n] == Some(token) {
      SomeMatch(items[..n], token);
      forall k | 0 <= k < n ensures items[k] != Some(token) {
        assert items[..n][k] == items[k];
      }
      assert OnlyMatch(items, token, n);
    } else {
      SingleMatch(items[..n], token);
      var i :| 0 <= i < n && OnlyMatch(items[..n], token, i);
      forall k | 0 <= k < |items| && items[k] == Some(token) ensures k == i {
        assert items[..n][k] == items[k];
      }
      assert OnlyMatch(items, token, i);
    }
  }

  /** The misses are still to be cleared and the patch that does so fails, or one more is to be counted and that fails. */
  predicate PatchStops(ann: Annotations, echoes: nat, luck: Luck) {
    luck.patch.fails && (echoes == 0 || Misses(ann) > 0)
  }

  /**
   What a read collection makes of a set token, by how many items echo it. One: available and held, the misses
   cleared. Several, or a failing patch: an error. None, but fired for: one more miss, and held. Whatever is held
   has its condition written first.
   */
  lemma ObservedExactly(ann: Annotations, token: string, items: seq<Echo>, luck: Luck)
    requires token != ""
    ensures var r := Observe(ann, Some(token), Items(items), luck); var echoes := multiset(items)[Some(token)];
      && (r.answer == Held <==>
            !luck.status.fails && !PatchStops(ann, echoes, luck) && (echoes == 1 || (echoes == 0 && Get(ann, DISPATCHED_TOKEN) == token)))
      && (r.answer == Absent <==> echoes == 0 && Get(ann, DISPATCHED_TOKEN) != token)
      && (r.ready == Available <==> echoes == 1 && !PatchStops(ann, echoes, luck) && Effective(luck.status))
      && (r.ready in {Creating, NotObserved} <==>
            echoes == 0 && Get(ann, DISPATCHED_TOKEN) == token && !luck.patch.fails && Effective(luck.status))
      && (r.ready == NotObserved ==> Misses(ann) >= 4) && (r.ready == Creating ==> Misses(ann) < 4)
      && r.ready != TokenMissing
    ensures var r := Observe(ann, Some(token), Items(items), luck); var echoes := multiset(items)[Some(token)];
      Misses(r.ann) ==
        if !Effective(luck.patch) || echoes > 1 then Misses(ann)
        else if echoes == 1 then 0
        else if Get(ann, DISPATCHED_TOKEN) == token then Misses(ann) + 1 else Misses(ann)
  {
    UniqueCounted(items, token);
    MatchCount(items, token);
    SomeMatch(items, token);
    RecordKept(ann, token);
  }

  /** Without a token that is reported, and without a collection nothing is decided. */
  lemma NothingObserved(ann: Annotations, token: Option<string>, read: Read, luck: Luck)
    requires token.None? || token.value == "" || read.Failed?
    ensures var r := Observe(ann, token, read, luck);
      && r.ann == ann
      && (r.answer == Held <==> (token.None? || token.value == "") && !luck.status.fails) && r.answer != Absent
      && (r.ready == TokenMissing <==> (token.None? || token.value == "") && Effective(luck.status))
      && (r.ready == TokenMissing || r.ready == Unchanged)
  {
  }

  /** The annotations after k observes that read these items and whose writes succeed. */
  function Waited(ann: Annotations, token: string, items: seq<Echo>, k: nat): Annotations {
    if k == 0 then ann else Observe(Waited(ann, token, items, k - 1), Some(token), Items(items), Lucky()).ann
  }

  /** A fired token that never shows up is held, counted, reported from the fifth miss on, and never fired again. */
  lemma {:induction false} WaitsThenReports(ann: Annotations, token: string, items: seq<Echo>, k: nat)
    requires AlreadyDispatched(ann, token) && Misses(ann) == 0 && Some(token) !in items
    ensures var now := Waited(ann, token, items, k); var r := Observe(now, Some(token), Items(items), Lucky());
      && Misses(now) == k && AlreadyDispatched(now, token)
      && r.answer == Held && r.ready == if k + 1 >= MAX_OBSERVE_MISSES then NotObserved else Creating
  {
    if k > 0 {
      WaitsThenReports(ann, token, items, k - 1);
      RecordKept(Waited(ann, token, items, k - 1), token);
    }
  }

  /** The custom resource of a dispatch, and the tokens its dispatch verb was successfully called with. */
  class Resource {
    var annotations: Annotations
    var token: Option<string>
    var ready: Ready
    ghost var fired: seq<string>

    method ObserveDispatch(read: Read, luck: Luck) returns (answer: Answer)
      modifies this`annotations, this`ready
      ensures var r := Observe(old(annotations), token, read, luck);
        annotations == r.ann && answer == r.answer && ready == if r.ready == Unchanged then old(ready) else r.ready
    {
      if token.None? || token.value == "" {
        answer := UpdateStatus(TokenMissing, luck.status);
        return;
      }
      if read.Failed? {
        return Error;
      }
      var item := FindCorrelatedItem(read.items, token.value);
      if item.Ambiguous? {
        assert Some(token.value) in read.items;
        return Error;
      }
      if item.Missing? {
        if IsAlreadyDispatched(token.value) {
          var misses := Misses(annotations) + 1;
          if Effective(luck.patch) {
            annotations := Patched(annotations, map[OBSERVE_MISSES := Some(Itoa(misses))]);
          }
          if luck.patch.fails {
            return Error;
          }
          answer := UpdateStatus(if misses >= MAX_OBSERVE_MISSES then NotObserved else Creating, luck.status);
          return;
        }
        return Absent;
      }
      assert OnlyMatch(read.items, token.value, item.index);
      if Misses(annotations) > 0 {
        if Effective(luck.patch) {
          annotations := Patched(annotations, map[OBSERVE_MISSES := None]);
        }
        if luck.patch.fails {
          return Error;
        }
      }
      answer := UpdateStatus(Available, luck.status);
    }

    /** A resource is held once its condition is persisted. */
    method UpdateStatus(next: Ready, status: Request) returns (answer: Answer)
      modifies this`ready
      ensures answer == if status.fails then Error else Held
      ensures ready == if Effective(status) then next else old(ready)
    {
      if Effective(status) {
        ready := next;
      }
      answer := if status.fails then Error else Held;
    }

    predicate IsAlreadyDispatched(token: string)
      reads this
    {
      AlreadyDispatched(annotations, token)
    }

    /** Fires the dispatch; the token is recorded only after the call succeeded. */
    method CreateDispatch(callFails: bool, patch: Request) returns (ok: bool)
      modifies this`annotations, this`fired
      ensures var fires := token.Some? && token.value != "" && !callFails;
        && ok == (fires && !patch.fails)
        && fired == (if fires then old(fired) + [token.value] else old(fired))
        && annotations == (if fires && Effective(patch) then Fired(old(annotations), token.value) else old(annotations))
    {
      if token.None? || token.value == "" || callFails {
        return false;
      }
      fired := fired + [token.value];
      if Effective(patch) {
        annotations := Patched(annotations, map[DISPATCHED_TOKEN := Some(token.value), OBSERVE_MISSES := None]);
      }
      ok := !patch.fails;
    }
  }

  // ---- whole runs -------------------------------------------------------------------------------------

  /** Where the worker stands: idle, told that a token's invocation is absent, or past a successful call. */
  datatype Pc = Idle | Told(token: string) | Posted(token: string)

  type Count = map<string, nat>

  function At(c: Count, token: string): nat {
    if token in c then c[token] else 0
  }

  function Plus(c: Count, token: string): Count {
    c[token := At(c, token) + 1]
  }

  /**
   The resource and its worker. Counted are, by token: successful calls, record writes after one that failed,
   and records of it overwritten by another token's.
   */
  datatype State = State(ann: Annotations, token: Option<string>, pc: Pc, posts: Count, failed: Count, overwritten: Count)

  /** `Stops` is a crash, or a create that is never run; a failing write may have been applied all the same. */
  datatype Event =
    | Edits(token: Option<string>)
    | Observes(read: Read, luck: Luck)
    | Creates(callFails: bool)
    | Records(fails: bool, applied: bool)
    | Stops

  function WithRecord(s: State, token: string): State {
    var was := Get(s.ann, DISPATCHED_TOKEN);
    s.(ann := Fired(s.ann, token), overwritten := if was != "" && was != token then Plus(s.overwritten, was) else s.overwritten)
  }

  function Next(s: State, e: Event): State {
    match (e, s.pc)
    case (Edits(token), _) => s.(token := token)
    case (Observes(read, luck), Idle) =>
      var r := Observe(s.ann, s.token, read, luck);
      s.(ann := r.ann, pc := if r.answer == Absent then Told(s.token.value) else Idle)
    case (Creates(callFails), Told(token)) =>
      if callFails then s.(pc := Idle) else s.(pc := Posted(token), posts := Plus(s.posts, token))
    case (Records(fails, applied), Posted(token)) =>
      var after := if fails && !applied then s else WithRecord(s, token);
      after.(pc := Idle, failed := if fails then Plus(s.failed, token) else s.failed)
    case (Stops, Posted(token)) => s.(pc := Idle, failed := Plus(s.failed, token))
    case (Stops, Told(_)) => s.(pc := Idle)
    case _ => s
  }

  function Run(s: State, events: seq<Event>): State {
    if events == [] then s else Next(Run(s, events[..|events| - 1]), events[|events| - 1])
  }

  /** How many calls for a token are accounted for: one per failed or overwritten record, and one for the record that stands. */
  function Accounted(s: State, t: string): nat {
    At(s.failed, t) + At(s.overwritten, t)
      + (if Get(s.ann, DISPATCHED_TOKEN) == t then 1 else 0) + (if s.pc == Posted(t) then 1 else 0)
  }

  predicate Safe(s: State, t: string) {
    && At(s.posts, t) <= Accounted(s, t)
    && (s.pc == Told(t) || s.pc == Posted(t) ==> Get(s.ann, DISPATCHED_TOKEN) != t)
  }

  lemma ObserveSafe(s: State, read: Read, luck: Luck, t: string)
    requires t != "" && Safe(s, t)
    ensures Safe(Next(s, Observes(read, luck)), t)
  {
    RecordKept(s.ann, t);
    AbsentExactly(s.ann, s.token, read, luck);
  }

  lemma WithRecordSafe(s: State, t: string)
    requires t != "" && Safe(s, t) && s.pc.Posted?
    ensures Safe(WithRecord(s, s.pc.token).(pc := Idle), t)
  {
    RecordKept(s.ann, s.pc.token);
  }

  lemma FailedSafe(s: State, t: string)
    requires t != "" && Safe(s, t) && s.pc.Posted?
    ensures Safe(s.(pc := Idle, failed := Plus(s.failed, s.pc.token)), t)
  {
  }

  lemma RecordSafe(s: State, fails: bool, applied: bool, t: string)
    requires t != "" && Safe(s, t) && s.pc.Posted?
    ensures Safe(Next(s, Records(fails, applied)), t)
  {
    if fails && !applied {
      FailedSafe(s, t);
    } else {
      WithRecordSafe(s, t);
    }
  }

  lemma StepSafe(s: State, e: Event, t: string)
    requires t != "" && Safe(s, t)
    ensures Safe(Next(s, e), t)
  {
    match e
    case Observes(read, luck) => ObserveSafe(s, read, luck, t);
    case Records(fails, applied) => if s.pc.Posted? { RecordSafe(s, fails, applied, t); }
    case Stops => if s.pc.Posted? { FailedSafe(s, t); }
    case Edits(_) =>
    case Creates(_) =>
  }

  /**
   At most once: whatever is edited, seen late or never, fails or crashes, the successful calls for a token
   number at most one, plus the record writes for it that failed, plus the times its record was overwritten.
   */
  lemma {:induction false} AtMostOnce(s: State, events: seq<Event>, t: string)
    requires t != "" && s.pc == Idle && At(s.posts, t) == 0
    ensures var r := Run(s, events); At(r.posts, t) <= 1 + At(r.failed, t) + At(r.overwritten, t)
  {
    RunSafe(s, events, t);
  }

  lemma {:induction false} RunSafe(s: State, events: seq<Event>, t: string)
    requires t != "" && Safe(s, t)
    ensures Safe(Run(s, events), t)
  {
    if events != [] {
      RunSafe(s, events[..|events| - 1], t);
      StepSafe(Run(s, events[..|events| - 1]), events[|events| - 1], t);
    }
  }

  /** A create that is run again without a new observe fires twice, with every write succeeding. */
  lemma CreateAgain(s: State, t: string)
    requires t != "" && s.pc == Told(t) && Get(s.ann, DISPATCHED_TOKEN) != t && At(s.posts, t) == 0
    ensures var once := Run(s, [Creates(false), Records(false, true)]); var twice := Run(once.(pc := Told(t)), [Creates(false), Records(false, true)]);
      && At(once.posts, t) == 1 && At(twice.posts, t) == 2
      && At(twice.failed, t) == At(s.failed, t) && At(twice.overwritten, t) == At(s.overwritten, t)
  {
    FireOnce(s, t);
    FireOnce(Run(s, [Creates(false), Records(false, true)]).(pc := Told(t)), t);
  }

  lemma FireOnce(s: State, t: string)
    requires t != "" && s.pc == Told(t)
    ensures var r := Run(s, [Creates(false), Records(false, true)]);
      && At(r.posts, t) == At(s.posts, t) + 1
      && At(r.failed, t) == At(s.failed, t) && At(r.overwritten, t) == At(s.overwritten, t)
  {
    RunTwo(s, Creates(false), Records(false, true));
    var posted := Next(s, Creates(false));
    assert posted == s.(pc := Posted(t), posts := Plus(s.posts, t));
    var r := Next(posted, Records(false, true));
    assert r.posts == posted.posts && r.failed == posted.failed && r.overwritten == WithRecord(posted, t).overwritten;
  }

  lemma RunTwo(s: State, e: Event, f: Event)
    ensures Run(s, [e, f]) == Next(Next(s, e), f)
  {
    var events := [e, f];
    assert events[..1] == [e] && events[..1][..0] == [];
    assert Run(s, [e]) == Next(s, e);
  }
}
