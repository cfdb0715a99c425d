/** One apply and one prune as their caller runs them: request by request, retrying on conflict. */
module CrdApply {
  import opened Json
  import opened CrdVersions
  import opened CrdProtocol
  import opened Requests

  /** What surrounds one attempt: failing requests, who is alive, and a write of somebody else after the read. */
  datatype Attempt = Attempt(getFails: bool, live: set<string>, lookupFails: bool, others: Option<Crd>, update: Request)

  datatype Failure = NoVersions | OwnedByOther(owner: string) | OwnerUndetermined(owner: string) | RequestFailed | StillConflicting

  datatype Applied = Applied(adoptedFrom: string) | Refused(why: Failure, adoptedFrom: string)

  datatype Pruned = Pruned(names: seq<string>) | PruneFailed

  /** What a successful apply did to the object it found. */
  predicate AppliedTo(before: Option<Crd>, after: Option<Crd>, generated: Crd, owner: string)
    requires generated.versions != []
  {
    after == match before
             case None => Some(Persisted(Stamped(generated, owner), []))
             case Some(c) => Some(Persisted(Merged(c, generated, owner), c.stored))
  }

  /** The CRD may be taken: it is not there, nobody's, one's own, or its owner was found gone at some attempt. */
  ghost predicate MayTake(before: Option<Crd>, owner: string, attempts: seq<Attempt>) {
    before.None? || OwnerOf(before.value) in {"", owner}
    || exists i :: 0 <= i < |attempts| && OwnerVerdict(OwnerOf(before.value), attempts[i].live, attempts[i].lookupFails) == Gone
  }

  /** The last write is an apply of what it directly follows, which it was allowed to take. */
  ghost predicate AppliedIn(history: seq<Option<Crd>>, generated: Crd, owner: string, attempts: seq<Attempt>)
    requires generated.versions != []
  {
    && |history| >= 2 && AppliedTo(history[|history| - 2], history[|history| - 1], generated, owner)
    && MayTake(history[|history| - 2], owner, attempts)
  }

  /** Whom a write on top of this object displaces: an owner other than the caller. */
  function Displaced(cur: Crd, owner: string): string {
    if OwnerOf(cur) in {"", owner} then "" else OwnerOf(cur)
  }

  /** What is noted over attempts that saw these objects: the last owner displaced, not the last verdict. */
  function Noted(seen: seq<Crd>, owner: string): string {
    if seen == [] then ""
    else
      var last := Displaced(seen[|seen| - 1], owner);
      if last != "" then last else Noted(seen[..|seen| - 1], owner)
  }

  lemma {:induction false} NothingNoted(seen: seq<Crd>, owner: string)
    ensures Noted(seen, owner) == "" <==> forall i | 0 <= i < |seen| :: Displaced(seen[i], owner) == ""
  {
    if seen != [] {
      NothingNoted(seen[..|seen| - 1], owner);
    }
  }

  /** The report of a success is right: it names the owner that the last write displaced, or nobody. */
  predicate ReportRight(r: Applied, seen: seq<Crd>, owner: string) {
    r.adoptedFrom == if seen == [] then "" else Displaced(seen[|seen| - 1], owner)
  }

  /** The last attempt displaced somebody, or no earlier one found an owner gone. */
  predicate NoteFresh(seen: seq<Crd>, owner: string) {
    seen == [] || Displaced(seen[|seen| - 1], owner) != "" || forall i | 0 <= i < |seen| - 1 :: Displaced(seen[i], owner) == ""
  }

  /** Each attempt read the object as somebody had written it, the last one as the write found it. */
  ghost predicate SeenIn(history: seq<Option<Crd>>, seen: seq<Crd>) {
    && (forall c | c in seen :: Some(c) in history)
    && |history| >= 2 && history[|history| - 2] == if seen == [] then None else Some(seen[|seen| - 1])
  }

  lemma NoteExact(r: Applied, seen: seq<Crd>, owner: string)
    requires r.adoptedFrom == Noted(seen, owner)
    ensures ReportRight(r, seen, owner) <==> NoteFresh(seen, owner)
  {
    if seen != [] {
      NothingNoted(seen[..|seen| - 1], owner);
    }
  }

  /** Nothing in one attempt stands against a write on top of this object. */
  predicate Passes(cur: Crd, owner: string, a: Attempt) {
    !a.getFails && !a.update.fails && Takeable(cur, owner, a)
  }

  /** Nobody else owns it: nobody at all, a malformed name, or a definition confirmed gone. */
  predicate Takeable(cur: Crd, owner: string, a: Attempt) {
    OwnerOf(cur) in {"", owner} || !WellFormed(OwnerOf(cur)) || (!a.lookupFails && OwnerOf(cur) !in a.live)
  }

  /** The attempts pass on what each finds, the first that nobody gets in between of being the last. */
  predicate Lands(obj: Option<Crd>, owner: string, attempts: seq<Attempt>)
    decreases attempts
  {
    && attempts != [] && obj.Some? && Passes(obj.value, owner, attempts[0])
    && (attempts[0].others.None? || Lands(attempts[0].others, owner, attempts[1..]))
  }

  /** The create goes through, or the attempts pass on what is there, what another create put there included. */
  predicate Goes(obj: Option<Crd>, owner: string, create: Request, createdFirst: Option<Crd>, attempts: seq<Attempt>) {
    if obj.Some? then Lands(obj, owner, attempts)
    else !create.fails && (createdFirst.None? || Lands(createdFirst, owner, attempts))
  }

  /** The names a prune reports dropped: what is prunable in the first object it reads that nobody changes meanwhile. */
  predicate Prunes(obj: Option<Crd>, current: string, attempts: seq<Attempt>, names: seq<string>)
    decreases attempts
  {
    && attempts != [] && obj.Some? && !attempts[0].getFails
    && var here := PrunableNames(obj.value, obj.value.versions, current);
       if here == [] then names == []
       else !attempts[0].update.fails
            && if attempts[0].others.None? then names == here else Prunes(attempts[0].others, current, attempts[1..], names)
  }

  /** Nothing is there to be pruned. */
  predicate NonePrunable(obj: Option<Crd>, current: string) {
    obj.Some? ==> PrunableNames(obj.value, obj.value.versions, current) == []
  }

  /** How one attempt ends. */
  datatype Tried = Stopped(why: Failure, displaced: string) | Conflicted(displaced: string) | Wrote(displaced: string)

  /** The API server, the call's own writes and everybody else's. */
  class Server {
    var obj: Option<Crd>
    var rv: nat
    ghost var history: seq<Option<Crd>>

    constructor (obj: Option<Crd>)
      ensures Valid() && this.obj == obj && history == [obj]
    {
      this.obj, rv, history := obj, 0, [obj];
    }

    ghost predicate Valid()
      reads this
    {
      history != [] && history[|history| - 1] == obj
    }

    /** What the others wrote since the history was n long is all that was written. */
    ghost predicate OthersOnly(n: nat, attempts: seq<Attempt>)
      reads this
    {
      n <= |history| && forall k | n <= k < |history| :: exists i :: 0 <= i < |attempts| && history[k] == attempts[i].others
    }

    /** The last write dropped, from what it directly follows, all that was prunable there. */
    ghost predicate PrunedLast(names: seq<string>, current: string)
      reads this
    {
      && |history| >= 2 && history[|history| - 2].Some?
      && var before := history[|history| - 2].value;
         && names == PrunableNames(before, before.versions, current)
         && history[|history| - 1] == Some(Persisted(Dropped(before, PrunableSet(before, current)), before.stored))
    }

    method Write(next: Crd)
      requires Valid()
      modifies this
      ensures Valid() && obj == Some(next) && rv == old(rv) + 1 && history == old(history) + [Some(next)]
    {
      obj, rv, history := Some(next), rv + 1, history + [Some(next)];
    }

    /** Compare and swap on the resource version that was read. */
    method Update(next: Crd, read: nat) returns (conflict: bool)
      requires Valid()
      modifies this
      ensures Valid() && conflict == (read != old(rv))
      ensures conflict ==> obj == old(obj) && rv == old(rv) && history == old(history)
      ensures !conflict ==> obj == Some(next) && history == old(history) + [Some(next)]
    {
      conflict := read != rv;
      if !conflict {
        Write(next);
      }
    }

    method OthersWrite(others: Option<Crd>)
      requires Valid()
      modifies this
      ensures Valid()
      ensures others.None? ==> obj == old(obj) && rv == old(rv) && history == old(history)
      ensures others.Some? ==> obj == others && rv > old(rv) && history == old(history) + [others]
    {
      if others.Some? {
        Write(others.value);
      }
    }

    /** The owner check of one attempt: none when the CRD may be taken, with whom it is taken from. */
    method CheckOwner(cur: Crd, owner: string, a: Attempt) returns (refusal: Option<Failure>, displaced: string)
      ensures refusal.None? <==> Takeable(cur, owner, a)
      ensures refusal.None? ==> MayTake(Some(cur), owner, [a])
      ensures refusal.None? ==> displaced == Displaced(cur, owner)
      ensures refusal.Some? ==> OwnerOf(cur) !in {"", owner} && WellFormed(OwnerOf(cur))
      ensures refusal.Some? && a.lookupFails ==> refusal.value == OwnerUndetermined(OwnerOf(cur))
      ensures refusal.Some? && !a.lookupFails ==> refusal.value == OwnedByOther(OwnerOf(cur)) && OwnerOf(cur) in a.live
    {
      var o := OwnerOf(cur);
      if o == "" || o == owner {
        return None, "";
      }
      match OwnerVerdict(o, a.live, a.lookupFails)
      case Undetermined => return Some(OwnerUndetermined(o)), "";
      case Alive => return Some(OwnedByOther(o)), "";
      case Gone =>
        assert [a][0] == a;
        return None, o;
    }

    /**
     Applies a generated CRD. A success directly follows the object it was merged from, so nothing that others
     wrote is clobbered. It reports whom it displaced, exactly if its last attempt displaced somebody or no
     earlier attempt found an owner gone; `seen` is what the attempts read. A refusal has written nothing, unless
     a request took effect and failed.
     */
    method ApplyOrUpdateCRD(generated: Crd, owner: string, getFails: bool, create: Request, createdFirst: Option<Crd>, attempts: seq<Attempt>)
      returns (r: Applied, ghost seen: seq<Crd>)
      requires Valid()
      modifies this
      ensures Valid()
      ensures r.Applied? <==> generated.versions != [] && !getFails && Goes(old(obj), owner, create, createdFirst, attempts)
      ensures r.Applied? ==> generated.versions != [] && AppliedIn(history, generated, owner, attempts)
      ensures r.Refused? ==>
        || (r.why.RequestFailed? && generated.versions != [] && AppliedIn(history, generated, owner, attempts))
        || OthersOnly(|old(history)|, attempts + [Attempt(false, {}, false, createdFirst, Request(false, false))])
      ensures r.Applied? ==> SeenIn(history, seen) && (ReportRight(r, seen, owner) <==> NoteFresh(seen, owner))
      ensures r.Applied? && r.adoptedFrom != "" ==> r.adoptedFrom != owner
      ensures r.Refused? && (r.why.OwnedByOther? || r.why.OwnerUndetermined?) ==> r.adoptedFrom == ""
    {
      seen := [];
      ghost var n := |history|;
      ghost var all := attempts + [Attempt(false, {}, false, createdFirst, Request(false, false))];
      if |generated.versions| == 0 {
        return Refused(NoVersions, ""), seen;
      }
      if getFails {
        return Refused(RequestFailed, ""), seen;
      }
      if obj.None? {
        var done := CreateAbsent(generated, owner, create, createdFirst, attempts);
        assert history == old(history) + [createdFirst] ==> all[|attempts|].others == history[n];
        if done.Some? {
          return done.value, seen;
        }
      }
      assert OthersOnly(n, all);
      r, seen := Retry(generated, owner, attempts, all, n);
    }

    /** Creates the CRD, unless another create comes first: then there is something to merge into. */
    method CreateAbsent(generated: Crd, owner: string, create: Request, createdFirst: Option<Crd>, ghost attempts: seq<Attempt>)
      returns (done: Option<Applied>)
      requires Valid() && obj.None? && generated.versions != []
      modifies this
      ensures Valid()
      ensures done.None? ==> createdFirst.Some? && history == old(history) + [createdFirst] && obj == createdFirst
      ensures done.None? <==> createdFirst.Some? && !create.fails
      ensures done == Some(Applied("")) <==> createdFirst.None? && !create.fails
      ensures done.Some? ==> done.value in {Applied(""), Refused(RequestFailed, "")}
      ensures done == Some(Applied("")) ==> AppliedIn(history, generated, owner, attempts) && SeenIn(history, [])
      ensures done == Some(Refused(RequestFailed, "")) ==>
        || history == old(history) || (createdFirst.Some? && history == old(history) + [createdFirst])
        || AppliedIn(history, generated, owner, attempts)
    {
      OthersWrite(createdFirst);
      if obj.None? && Effective(create) {
        Write(Persisted(Stamped(generated, owner), []));
        return Some(if create.fails then Refused(RequestFailed, "") else Applied(""));
      }
      done := if create.fails then Some(Refused(RequestFailed, "")) else None;
    }

    /** The loop: read, check the owner, merge, write on the version that was read, and again on a conflict. */
    method Retry(generated: Crd, owner: string, attempts: seq<Attempt>, ghost all: seq<Attempt>, ghost n: nat)
      returns (r: Applied, ghost seen: seq<Crd>)
      requires Valid() && generated.versions != [] && attempts <= all && OthersOnly(n, all)
      modifies this
      ensures Valid()
      ensures r.Applied? <==> Lands(old(obj), owner, attempts)
      ensures r.Applied? ==> AppliedIn(history, generated, owner, attempts)
      ensures r.Refused? ==> OthersOnly(n, all) || (r.why.RequestFailed? && AppliedIn(history, generated, owner, attempts))
      ensures r.Applied? ==> SeenIn(history, seen) && (ReportRight(r, seen, owner) <==> NoteFresh(seen, owner))
      ensures r.Applied? && r.adoptedFrom != "" ==> r.adoptedFrom != owner
      ensures r.Refused? && (r.why.OwnedByOther? || r.why.OwnerUndetermined?) ==> r.adoptedFrom == ""
    {
      var adoptedFrom := "";
      seen := [];
      for i := 0 to |attempts|
        invariant Valid() && OthersOnly(n, all)
        invariant Lands(old(obj), owner, attempts) == Lands(obj, owner, attempts[i..])
        invariant adoptedFrom == Noted(seen, owner) && (adoptedFrom != "" ==> adoptedFrom != owner)
        invariant forall c | c in seen :: Some(c) in history
      {
        assert all[i] == attempts[i];
        assert attempts[i..][0] == attempts[i] && attempts[i..][1..] == attempts[i + 1..];
        var tried, noted;
        tried, noted, seen := NotingTurn(generated, owner, attempts[i], adoptedFrom, seen);
        match tried
        case Stopped(why, displaced) =>
          if why.RequestFailed? && AppliedIn(history, generated, owner, [attempts[i]]) {
            LastTaken(history, generated, owner, attempts, i);
          }
          return Refused(why, if why.RequestFailed? then noted else ""), seen;
        case Conflicted(displaced) =>
          adoptedFrom := noted;
        case Wrote(displaced) =>
          LastTaken(history, generated, owner, attempts, i);
          r := Applied(noted);
          NoteExact(r, seen, owner);
          return;
      }
      r := Refused(StillConflicting, adoptedFrom);
    }

    /** What one attempt wrote: its apply; or nothing, what others did aside; or an apply whose reply was lost. */
    ghost predicate Turned(was: seq<Option<Crd>>, tried: Tried, generated: Crd, owner: string, a: Attempt)
      reads this
      requires generated.versions != []
    {
      && (tried.Wrote? ==> AppliedIn(history, generated, owner, [a]) && history == was + [obj])
      && (tried.Conflicted? ==> obj == a.others)
      && (!tried.Wrote? ==> || history == was || (a.others.Some? && history == was + [a.others])
                            || (tried == Stopped(RequestFailed, tried.displaced) && AppliedIn(history, generated, owner, [a])
                                && history == was + [obj]))
    }

    /** One turn, and what is noted by then. */
    method NotingTurn(generated: Crd, owner: string, a: Attempt, adoptedFrom: string, ghost seen: seq<Crd>)
      returns (tried: Tried, noted: string, ghost seen': seq<Crd>)
      requires Valid() && generated.versions != [] && (forall c | c in seen :: Some(c) in history)
      requires adoptedFrom == Noted(seen, owner) && (adoptedFrom != "" ==> adoptedFrom != owner)
      modifies this
      ensures Valid()
      ensures Turned(old(history), tried, generated, owner, a) && (tried.Wrote? ==> SeenIn(history, seen'))
      ensures forall c | c in seen' :: Some(c) in history
      ensures !tried.Stopped? ==> noted == Noted(seen', owner) && (noted != "" ==> noted != owner)
      ensures !tried.Stopped? <==> old(obj).Some? && Passes(old(obj).value, owner, a)
      ensures !tried.Stopped? ==> (tried.Wrote? <==> a.others.None?)
    {
      ghost var cur := obj;
      tried := TryOnce(generated, owner, a);
      noted := if tried.displaced != "" then tried.displaced else adoptedFrom;
      seen' := if cur.Some? then seen + [cur.value] else seen;
      SeenMore(old(history), history, seen, seen');
      if cur.Some? {
        NotedNext(seen, cur.value, owner);
        if tried.Wrote? {
          SeenAtWrite(old(history), history, seen, cur.value);
        }
      }
    }

    /** One turn of the loop. */
    method TryOnce(generated: Crd, owner: string, a: Attempt) returns (tried: Tried)
      requires Valid() && generated.versions != []
      modifies this
      ensures Valid()
      ensures Turned(old(history), tried, generated, owner, a)
      ensures !tried.Stopped? ==> old(obj).Some? && tried.displaced == Displaced(old(obj).value, owner)
      ensures !tried.Stopped? <==> old(obj).Some? && Passes(old(obj).value, owner, a)
      ensures !tried.Stopped? ==> (tried.Wrote? <==> a.others.None?)
    {
      if a.getFails || obj.None? {
        return Stopped(RequestFailed, "");
      }
      var cur, read := obj.value, rv;
      OthersWrite(a.others);
      var refusal, displaced := CheckOwner(cur, owner, a);
      if refusal.Some? {
        return Stopped(refusal.value, "");
      }
      if !Effective(a.update) {
        return Stopped(RequestFailed, displaced);
      }
      var next := Persisted(Merged(cur, generated, owner), cur.stored);
      tried := Swap(cur, next, read, displaced, a.others.Some?);
      if tried.Wrote? {
        JustApplied(history, cur, generated, owner, a);
      }
      if a.update.fails {
        tried := Stopped(RequestFailed, displaced);
      }
    }

    method Swap(cur: Crd, next: Crd, read: nat, displaced: string, ghost disturbed: bool) returns (tried: Tried)
      requires Valid() && (if disturbed then read != rv else read == rv && obj == Some(cur))
      modifies this
      ensures Valid() && !tried.Stopped? && tried.displaced == displaced
      ensures tried.Conflicted? <==> disturbed
      ensures tried.Conflicted? ==> history == old(history) && obj == old(obj)
      ensures tried.Wrote? ==> !disturbed && history == old(history) + [Some(next)] && old(history)[|old(history)| - 1] == Some(cur)
    {
      var conflict := Update(next, read);
      tried := if conflict then Conflicted(displaced) else Wrote(displaced);
    }

    /** Drops the versions that were never stored, deciding anew on every read. */
    method PruneServedVersions(current: string, getFails: bool, attempts: seq<Attempt>) returns (r: Pruned)
      requires Valid()
      modifies this
      ensures Valid()
      ensures r.Pruned? ==> !getFails && if NonePrunable(old(obj), current) then r.names == [] else Prunes(old(obj), current, attempts, r.names)
      ensures r.PruneFailed? ==> getFails || (!NonePrunable(old(obj), current) && forall names :: !Prunes(old(obj), current, attempts, names))
      ensures r.Pruned? && r.names != [] ==> PrunedLast(r.names, current)
      ensures r.PruneFailed? || r.names == [] ==> OthersOnly(|old(history)|, attempts) || (r.PruneFailed? && exists names :: PrunedLast(names, current))
    {
      ghost var n := |history|;
      if getFails {
        return PruneFailed;
      }
      if obj.None? {
        return Pruned([]);
      }
      var names, next := DropPrunable(obj.value, current);
      if |names| == 0 {
        return Pruned([]);
      }
      for i := 0 to |attempts|
        invariant Valid() && OthersOnly(n, attempts)
        invariant forall names :: Prunes(old(obj), current, attempts, names) <==> Prunes(obj, current, attempts[i..], names)
      {
        assert attempts[i..][0] == attempts[i] && attempts[i..][1..] == attempts[i + 1..];
        var done := PruneOnce(current, attempts[i]);
        if done.Some? {
          return done.value;
        }
      }
      r := PruneFailed;
    }

    /** One turn of the prune: None when somebody else got in between. */
    method PruneOnce(current: string, a: Attempt) returns (done: Option<Pruned>)
      requires Valid()
      modifies this
      ensures Valid()
      ensures done.None? ==> a.others.Some? && obj == a.others
      ensures done.None? || done == Some(Pruned([])) || (done == Some(PruneFailed) && !exists names :: PrunedLast(names, current)) ==>
        history == old(history) || (a.others.Some? && history == old(history) + [a.others])
      ensures done.Some? && done.value.Pruned? && done.value.names != [] ==> PrunedLast(done.value.names, current)
      ensures done == Some(PruneFailed) <==> a.getFails || old(obj).None? || (!NonePrunable(old(obj), current) && a.update.fails)
      ensures done == Some(Pruned([])) <==> !a.getFails && old(obj).Some? && NonePrunable(old(obj), current)
      ensures done.None? ==> !NonePrunable(old(obj), current)
      ensures done.Some? && done.value.Pruned? && done.value.names != [] ==>
        a.others.None? && done.value.names == PrunableNames(old(obj).value, old(obj).value.versions, current)
    {
      if a.getFails || obj.None? {
        return Some(PruneFailed);
      }
      var cur, read := obj.value, rv;
      OthersWrite(a.others);
      var names, next := DropPrunable(cur, current);
      if |names| == 0 {
        return Some(Pruned([]));
      }
      if !Effective(a.update) {
        return Some(PruneFailed);
      }
      var conflict := Update(Persisted(next, cur.stored), read);
      assert !conflict ==> PrunedLast(names, current);
      if a.update.fails {
        return Some(PruneFailed);
      }
      done := if conflict then None else Some(Pruned(names));
    }
  }

  /** The closure of a prune: the names that are prunable in what was read, and the CRD without them. */
  method DropPrunable(cur: Crd, current: string) returns (names: seq<string>, next: Crd)
    ensures names == PrunableNames(cur, cur.versions, current) && next == Dropped(cur, PrunableSet(cur, current))
  {
    var live := new CustomResourceDefinition(cur);
    names := live.PrunableVersions(current);
    var prune := NameSet(names);
    assert prune == PrunableSet(cur, current);
    var removed := live.RemoveStaleVersions(prune);
    next := live.View();
  }

  lemma SeenMore(was: seq<Option<Crd>>, history: seq<Option<Crd>>, seen: seq<Crd>, seen': seq<Crd>)
    requires was != [] && was <= history && (forall c | c in seen :: Some(c) in was)
    requires seen' == seen || (was[|was| - 1].Some? && seen' == seen + [was[|was| - 1].value])
    ensures forall c | c in seen' :: Some(c) in history
  {
    assert history[|was| - 1] == was[|was| - 1];
    forall c | c in seen ensures Some(c) in history {
      var k :| 0 <= k < |was| && was[k] == Some(c);
      assert history[k] == was[k];
    }
  }

  lemma NotedNext(seen: seq<Crd>, cur: Crd, owner: string)
    ensures Noted(seen + [cur], owner) == if Displaced(cur, owner) != "" then Displaced(cur, owner) else Noted(seen, owner)
  {
    assert (seen + [cur])[..|seen|] == seen;
  }

  lemma SeenAtWrite(was: seq<Option<Crd>>, history: seq<Option<Crd>>, seen: seq<Crd>, cur: Crd)
    requires was != [] && was[|was| - 1] == Some(cur) && |history| == |was| + 1 && was <= history
    requires forall c | c in seen + [cur] :: Some(c) in history
    ensures SeenIn(history, seen + [cur])
  {
    assert history[|history| - 2] == was[|was| - 1];
  }

  lemma JustApplied(history: seq<Option<Crd>>, cur: Crd, generated: Crd, owner: string, a: Attempt)
    requires generated.versions != [] && |history| >= 2 && history[|history| - 2] == Some(cur)
    requires history[|history| - 1] == Some(Persisted(Merged(cur, generated, owner), cur.stored)) && MayTake(Some(cur), owner, [a])
    ensures AppliedIn(history, generated, owner, [a])
  {
  }

  lemma LastTaken(history: seq<Option<Crd>>, generated: Crd, owner: string, attempts: seq<Attempt>, i: nat)
    requires generated.versions != [] && i < |attempts| && AppliedIn(history, generated, owner, [attempts[i]])
    ensures AppliedIn(history, generated, owner, attempts)
  {
    MayTakeAt(history[|history| - 2], owner, attempts, i);
  }

  lemma MayTakeAt(before: Option<Crd>, owner: string, attempts: seq<Attempt>, i: nat)
    requires i < |attempts| && MayTake(before, owner, [attempts[i]])
    ensures MayTake(before, owner, attempts)
  {
    if before.Some? && OwnerOf(before.value) !in {"", owner} {
      assert OwnerVerdict(OwnerOf(before.value), attempts[i].live, attempts[i].lookupFails) == Gone;
    }
  }

  method NameSet(names: seq<string>) returns (s: set<string>)
    ensures s == set name | name in names
  {
    s := {};
    for i := 0 to |names|
      invariant forall name :: name in s <==> name in names[..i]
    {
      s := s + {names[i]};
    }
    assert names[..|names|] == names;
  }
}
