/** What a call has done when it reports success, and what it does when nothing stands in its way. */
module CrdSuccess {
  import opened Json
  import opened Lists
  import opened CrdVersions
  import opened CrdTopology
  import opened CrdProtocol

  /** This step brings the call to its success. */
  predicate Succeeds(s: State, id: nat, luck: Luck) {
    id in s.calls && s.calls[id].pc != Finished(true) && Next(s, Acts(id, luck)).calls[id].pc == Finished(true)
  }

  // ---- what success means -----------------------------------------------------------------------------

  /** An apply succeeds with the write of the generated CRD, into what was there or where nothing was. */
  lemma ApplySucceeds(s: State, id: nat, owner: string, generated: Crd, luck: Luck)
    requires Fresh(s) && Succeeds(s, id, luck) && s.calls[id].task == Apply(owner, generated) && generated.versions != []
    ensures Next(s, Acts(id, luck)).server.obj == match s.server.obj
      case None => Some(Persisted(Stamped(generated, owner), []))
      case Some(c) => Some(Persisted(Merged(c, generated, owner), c.stored))
  {
    assert CallFresh(s.server, s.calls[id]);
  }

  lemma {:induction false} RecordedGrows(stored: seq<string>, versions: seq<Version>)
    ensures stored <= Recorded(stored, versions)
    decreases versions
  {
    if versions != [] {
      RecordedGrows(if versions[0].storage && versions[0].name !in stored then stored + [versions[0].name] else stored, versions[1..]);
    }
  }

  /** A prune succeeds when nothing is left to be pruned. */
  lemma PruneSucceeds(s: State, id: nat, current: string, luck: Luck)
    requires Fresh(s) && Succeeds(s, id, luck) && s.calls[id].task == Prune(current)
    ensures var obj := Next(s, Acts(id, luck)).server.obj; obj.Some? ==> PrunableSet(obj.value, current) == {}
  {
    assert CallFresh(s.server, s.calls[id]);
    if s.calls[id].pc.Writing? {
      NothingPrunable(s.calls[id].pc.cur, current);
    }
  }

  lemma NothingPrunable(c: Crd, current: string)
    ensures PrunableSet(Persisted(Dropped(c, PrunableSet(c, current)), c.stored), current) == {}
  {
    var names := PrunableSet(c, current);
    var after := Persisted(Dropped(c, names), c.stored);
    RecordedGrows(c.stored, Dropped(c, names).versions);
    forall n ensures n !in PrunableSet(after, current) {
      PrunableExactly(after, after.versions, current, n);
      PrunableExactly(c, c.versions, current, n);
      RemovedSchemas(c.versions, names, n);
      SchemaOfPresent(after.versions, n);
      SchemaOfPresent(c.versions, n);
      assert n in c.stored ==> n in after.stored;
    }
  }

  /** A retirement succeeds when the versions it evaluated are gone, or when it found none. */
  lemma RetireSucceeds(s: State, id: nat, current: string, luck: Luck)
    requires Fresh(s) && Succeeds(s, id, luck) && s.calls[id].task == Retire(current)
    ensures var pc, obj := s.calls[id].pc, Next(s, Acts(id, luck)).server.obj;
      obj.Some? ==>
        && (pc == Begin ==> forall n :: HasVersion(obj.value.versions, n) ==> n in {VACUUM, current} || n in luck.kept)
        && (pc != Begin ==> !pc.Creating? && !pc.Reading? && !pc.Checking? && !pc.Writing?
                            && forall n | n in pc.names :: !HasVersion(obj.value.versions, n))
  {
    assert CallFresh(s.server, s.calls[id]);
    var pc, obj := s.calls[id].pc, s.server.obj;
    if pc == Begin && obj.Some? {
      assert Retired(obj.value, current, luck.kept) == {};
      forall n | HasVersion(obj.value.versions, n) ensures n in {VACUUM, current} || n in luck.kept {
        assert n in NamesOf(obj.value.versions) && n !in Retired(obj.value, current, luck.kept);
      }
    } else if pc.Evaluated? && obj.Some? {
      AllGone(obj.value.versions, pc.names);
    } else if pc.Trimming? || pc.Removing? {
      AllGone(pc.cur.versions, pc.names);
    }
  }

  lemma AllGone(versions: seq<Version>, names: set<string>)
    ensures forall n | n in names && n != VACUUM :: !HasVersion(Removed(versions, names), n)
  {
    forall n | n in names && n != VACUUM ensures !HasVersion(Removed(versions, names), n) {
      RemovedSchemas(versions, names, n);
      SchemaOfPresent(Removed(versions, names), n);
    }
  }

  /** Trimming keeps the other recorded names in their order. */
  lemma {:induction false} TrimmedSelects(stored: seq<string>, names: set<string>)
    ensures Trimmed(stored, names) == Select(stored, set i: nat | i < |stored| && stored[i] !in names)
  {
    if stored != [] {
      TrimmedSelects(stored[1..], names);
      SelectBefore(stored[0], stored[1..], set i: nat | i < |stored| - 1 && stored[1..][i] !in names,
        set i: nat | i < |stored| && stored[i] !in names);
      assert [stored[0]] + stored[1..] == stored;
    }
  }

  // ---- a call on its own ------------------------------------------------------------------------------

  /** Every request goes through; the evaluation of a retirement keeps these versions. */
  function Lucky(kept: set<string>): Luck {
    Luck(false, true, false, kept)
  }

  /** One call and nothing else under way. */
  function Only(server: Server, live: set<string>, id: nat, call: Call): State {
    State(server, live, map[id := call])
  }

  /** So many steps of one call, with nothing of anybody else's in between. */
  function Alone(s: State, id: nat, kept: set<string>, n: nat): (r: State)
    requires id in s.calls
    ensures id in r.calls
  {
    if n == 0 then s else Next(Alone(s, id, kept, n - 1), Acts(id, Lucky(kept)))
  }

  lemma AloneThree(s: State, id: nat, kept: set<string>)
    requires id in s.calls
    ensures Alone(s, id, kept, 2) == Next(Next(s, Acts(id, Lucky(kept))), Acts(id, Lucky(kept)))
    ensures Alone(s, id, kept, 3) == Next(Next(Next(s, Acts(id, Lucky(kept))), Acts(id, Lucky(kept))), Acts(id, Lucky(kept)))
  {
    assert Alone(s, id, kept, 1) == Next(s, Acts(id, Lucky(kept)));
    assert Alone(s, id, kept, 2) == Next(Next(s, Acts(id, Lucky(kept))), Acts(id, Lucky(kept)));
  }

  /** One step of a call on its own. */
  lemma ApplyActs(server: Server, live: set<string>, id: nat, owner: string, generated: Crd)
    requires generated.versions != []
    ensures var task, cur, e := Apply(owner, generated), server.obj, Acts(id, Lucky({}));
      && Next(Only(server, live, id, Call(task, Begin, "")), e) == Only(server, live, id, Call(task, if cur.None? then Creating else Reading, ""))
      && (cur.None? ==>
            Next(Only(server, live, id, Call(task, Creating, "")), e) ==
            Only(Server(Some(Persisted(Stamped(generated, owner), [])), server.rv + 1), live, id, Call(task, Finished(true), "")))
      && (cur.Some? ==>
            Next(Only(server, live, id, Call(task, Reading, "")), e) == Only(server, live, id, Call(task, Checking(cur.value, server.rv), "")))
  {
  }

  /** On its own an apply creates what is not there. */
  lemma CreatesAlone(server: Server, live: set<string>, id: nat, owner: string, generated: Crd)
    requires generated.versions != [] && server.obj.None?
    ensures var end := Alone(Only(server, live, id, Call(Apply(owner, generated), Begin, "")), id, {}, 2);
      end.calls[id].pc == Finished(true) && end.server.obj == Some(Persisted(Stamped(generated, owner), []))
  {
    ApplyActs(server, live, id, owner, generated);
    AloneThree(Only(server, live, id, Call(Apply(owner, generated), Begin, "")), id, {});
  }

  /** The owner of a CRD is another definition that is there. */
  predicate OthersOwn(c: Crd, owner: string, live: set<string>) {
    OwnerOf(c) !in {"", owner} && WellFormed(OwnerOf(c)) && OwnerOf(c) in live
  }

  /** Whom an apply displaces: an owner other than itself. */
  function Displaced(c: Crd, owner: string): string {
    if OwnerOf(c) == owner then "" else OwnerOf(c)
  }

  lemma ApplyChecks(server: Server, live: set<string>, id: nat, owner: string, generated: Crd)
    requires server.obj.Some?
    ensures var task, cur := Apply(owner, generated), server.obj.value;
      Next(Only(server, live, id, Call(task, Checking(cur, server.rv), "")), Acts(id, Lucky({}))) ==
      Only(server, live, id, if OthersOwn(cur, owner, live) then Call(task, Finished(false), "")
                             else Call(task, Writing(cur, server.rv), Displaced(cur, owner)))
  {
  }

  lemma ApplyWrites(server: Server, live: set<string>, id: nat, owner: string, generated: Crd, displaced: string)
    requires generated.versions != [] && server.obj.Some?
    ensures var task, cur := Apply(owner, generated), server.obj.value;
      Next(Only(server, live, id, Call(task, Writing(cur, server.rv), displaced)), Acts(id, Lucky({}))) ==
      Only(Server(Some(Persisted(Merged(cur, generated, owner), cur.stored)), server.rv + 1), live, id,
           Call(task, Finished(true), displaced))
  {
    var task, cur := Apply(owner, generated), server.obj.value;
    var s := Only(server, live, id, Call(task, Writing(cur, server.rv), displaced));
    var next := Persisted(Merged(cur, generated, owner), cur.stored);
    WriteLands(server, live, id, Call(task, Writing(cur, server.rv), displaced), next);
    assert ApplyStep(s, id, owner, generated, Lucky({})) == Written(s, id, server.rv, next, Lucky({}), Finished(true), Retry(Lucky({})));
  }

  /** A write onto what was read, with nothing in between. */
  lemma WriteLands(server: Server, live: set<string>, id: nat, call: Call, next: Crd)
    requires server.obj.Some?
    ensures Written(Only(server, live, id, call), id, server.rv, next, Lucky({}), Finished(true), Retry(Lucky({}))) ==
      Only(Server(Some(next), server.rv + 1), live, id, call.(pc := Finished(true)))
  {
    var s := Only(server, live, id, call);
    assert s.calls[id := call.(pc := Finished(true))] == map[id := call.(pc := Finished(true))];
  }

  lemma ApplyEnds(server: Server, live: set<string>, id: nat, task: Task)
    ensures var end := Only(server, live, id, Call(task, Finished(false), "")); task.Apply? ==> Next(end, Acts(id, Lucky({}))) == end
  {
  }

  /**
   On its own an apply merges into what is there, and reports whom it displaced; it refuses, and writes nothing,
   exactly where the owner is another definition that is there.
   */
  lemma AppliesAlone(server: Server, live: set<string>, id: nat, owner: string, generated: Crd)
    requires generated.versions != [] && server.obj.Some?
    ensures var start, was := Only(server, live, id, Call(Apply(owner, generated), Begin, "")), server.obj.value;
      Alone(start, id, {}, 4) ==
      if OthersOwn(was, owner, live) then Only(server, live, id, Call(Apply(owner, generated), Finished(false), ""))
      else Only(Server(Some(Persisted(Merged(was, generated, owner), was.stored)), server.rv + 1), live, id,
                Call(Apply(owner, generated), Finished(true), Displaced(was, owner)))
  {
    var task, was, e := Apply(owner, generated), server.obj.value, Acts(id, Lucky({}));
    var start := Only(server, live, id, Call(task, Begin, ""));
    AloneThree(start, id, {});
    assert Alone(start, id, {}, 4) == Next(Alone(start, id, {}, 3), e);
    ApplyActs(server, live, id, owner, generated);
    ApplyChecks(server, live, id, owner, generated);
    if OthersOwn(was, owner, live) {
      ApplyEnds(server, live, id, task);
    } else {
      ApplyWrites(server, live, id, owner, generated, Displaced(was, owner));
    }
  }

  /** On its own a prune drops what is prunable and nothing else. */
  lemma PrunesAlone(server: Server, live: set<string>, id: nat, current: string)
    requires server.obj.Some? && PrunableSet(server.obj.value, current) != {}
    ensures var start, was := Only(server, live, id, Call(Prune(current), Begin, "")), server.obj.value;
      var end := Alone(start, id, {}, 3);
      && end.calls[id].pc == Finished(true)
      && end.server.obj == Some(Persisted(Dropped(was, PrunableSet(was, current)), was.stored))
  {
    PruneActs(server, live, id, current);
    PruneWrites(server, live, id, current);
    AloneThree(Only(server, live, id, Call(Prune(current), Begin, "")), id, {});
  }

  lemma PruneActs(server: Server, live: set<string>, id: nat, current: string)
    requires server.obj.Some? && PrunableSet(server.obj.value, current) != {}
    ensures var task, was, e := Prune(current), server.obj.value, Acts(id, Lucky({}));
      && Next(Only(server, live, id, Call(task, Begin, "")), e) == Only(server, live, id, Call(task, Reading, ""))
      && Next(Only(server, live, id, Call(task, Reading, "")), e) == Only(server, live, id, Call(task, Writing(was, server.rv), ""))
  {
  }

  lemma PruneWrites(server: Server, live: set<string>, id: nat, current: string)
    requires server.obj.Some?
    ensures var task, was := Prune(current), server.obj.value;
      Next(Only(server, live, id, Call(task, Writing(was, server.rv), "")), Acts(id, Lucky({}))) ==
      Only(Server(Some(Persisted(Dropped(was, PrunableSet(was, current)), was.stored)), server.rv + 1), live, id,
           Call(task, Finished(true), ""))
  {
  }

  /** The two writes of a retirement, the first one only where a recorded version goes. */
  lemma RetireActs(server: Server, live: set<string>, id: nat, current: string, kept: set<string>, names: set<string>)
    requires server.obj.Some? && Removed(server.obj.value.versions, names) != server.obj.value.versions
    ensures var task, was, e := Retire(current), server.obj.value, Acts(id, Lucky(kept));
      var trimmed := was.(stored := Trimmed(was.stored, names));
      Next(Only(server, live, id, Call(task, Evaluated(names), "")), e) ==
      Only(server, live, id, Call(task, if trimmed.stored == was.stored then Removing(was, server.rv, names) else Trimming(was, server.rv, names), ""))
  {
  }

  lemma TrimActs(server: Server, live: set<string>, id: nat, current: string, kept: set<string>, names: set<string>)
    requires server.obj.Some? && Removed(server.obj.value.versions, names) != server.obj.value.versions
    ensures var task, was := Retire(current), server.obj.value;
      var trimmed := was.(stored := Trimmed(was.stored, names));
      Next(Only(server, live, id, Call(task, Trimming(was, server.rv, names), "")), Acts(id, Lucky(kept))) ==
      Only(Server(Some(trimmed), server.rv + 1), live, id, Call(task, Removing(trimmed, server.rv + 1, names), ""))
  {
  }

  lemma RemoveActs(server: Server, live: set<string>, id: nat, current: string, kept: set<string>, names: set<string>)
    requires server.obj.Some?
    ensures var task, was, e := Retire(current), server.obj.value, Acts(id, Lucky(kept));
      var end := Next(Only(server, live, id, Call(task, Removing(was, server.rv, names), "")), e);
      && end == Only(Server(Some(Persisted(Dropped(was, names), was.stored)), server.rv + 1), live, id, Call(task, Finished(true), ""))
      && Next(end, e) == end
  {
  }

  /** On its own a retirement trims and drops all that is neither current nor the vacuum nor kept. */
  lemma RetiresAlone(server: Server, live: set<string>, id: nat, current: string, kept: set<string>)
    requires server.obj.Some? && Retired(server.obj.value, current, kept) != {}
    ensures var start, was := Only(server, live, id, Call(Retire(current), Begin, "")), server.obj.value;
      var end, names := Alone(start, id, kept, 4), Retired(was, current, kept);
      && end.calls[id].pc == Finished(true)
      && end.server.obj == Some(Persisted(Dropped(was, names).(stored := Trimmed(was.stored, names)), Trimmed(was.stored, names)))
  {
    var was, e := server.obj.value, Acts(id, Lucky(kept));
    var names := Retired(was, current, kept);
    var start := Only(server, live, id, Call(Retire(current), Begin, ""));
    assert Next(start, e) == Only(server, live, id, Call(Retire(current), Evaluated(names), ""));
    SomeRemoved(was, current, kept);
    AloneThree(start, id, kept);
    RetireActs(server, live, id, current, kept, names);
    TrimActs(server, live, id, current, kept, names);
    assert Alone(start, id, kept, 4) == Next(Alone(start, id, kept, 3), e);
    if Trimmed(was.stored, names) != was.stored {
      RemoveActs(Server(Some(was.(stored := Trimmed(was.stored, names))), server.rv + 1), live, id, current, kept, names);
    } else {
      RemoveActs(server, live, id, current, kept, names);
    }
  }

  lemma SomeRemoved(c: Crd, current: string, kept: set<string>)
    requires Retired(c, current, kept) != {}
    ensures Removed(c.versions, Retired(c, current, kept)) != c.versions
  {
    var names := Retired(c, current, kept);
    var n :| n in names;
    var i :| 0 <= i < |c.versions| && c.versions[i].name == n;
    RemovedMembers(c.versions, names, c.versions[i]);
    assert c.versions[i] in c.versions;
  }
}
