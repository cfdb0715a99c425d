/** The storage of the shared CRD over any run: one version stores, and storedVersions names only versions that are there. */
module CrdStorage {
  import opened Json
  import opened CrdVersions
  import opened CrdTopology
  import opened CrdProtocol

  predicate Contained(c: Crd) {
    forall n | n in c.stored :: HasVersion(c.versions, n)
  }

  predicate StorageStored(c: Crd) {
    forall i | 0 <= i < |c.versions| :: c.versions[i].storage ==> c.versions[i].name in c.stored
  }

  /** What the object keeps at all times. */
  predicate Stands(c: Crd, group: string, kind: string) {
    Sound(c.versions) && Contained(c) && StorageStored(c) && c.group == group && c.kind == kind
  }

  /** A generated CRD: one version, which is not the vacuum and stores. */
  predicate Fits(generated: Crd, group: string, kind: string) {
    && |generated.versions| == 1 && generated.versions[0].name != VACUUM && generated.versions[0].storage
    && generated.group == group && generated.kind == kind
  }

  /** There is something else to serve and store from when the other versions go. */
  predicate Covers(obj: Option<Crd>, current: string) {
    obj.Some? && (HasVersion(obj.value.versions, VACUUM) || HasVersion(obj.value.versions, current))
  }

  predicate TaskFits(obj: Option<Crd>, task: Task, group: string, kind: string) {
    match task
    case Apply(_, generated) => Fits(generated, group, kind)
    case Prune(_) => true
    case Retire(current) => Covers(obj, current)
  }

  predicate AllFit(s: State, group: string, kind: string) {
    forall id {:trigger s.calls[id]} | id in s.calls :: TaskFits(s.server.obj, s.calls[id].task, group, kind)
  }

  predicate StorageKept(s: State, group: string, kind: string) {
    Fresh(s) && AllFit(s, group, kind) && (s.server.obj.Some? ==> Stands(s.server.obj.value, group, kind))
  }

  // ---- recording --------------------------------------------------------------------------------------

  lemma {:induction false} RecordedNames(stored: seq<string>, versions: seq<Version>)
    ensures forall n | n in stored :: n in Recorded(stored, versions)
    ensures forall n | n in Recorded(stored, versions) :: n in stored || HasVersion(versions, n)
    ensures forall i | 0 <= i < |versions| && versions[i].storage :: versions[i].name in Recorded(stored, versions)
    decreases versions
  {
    if versions != [] {
      var more := if versions[0].storage && versions[0].name !in stored then stored + [versions[0].name] else stored;
      RecordedNames(more, versions[1..]);
      forall n | n in Recorded(stored, versions) ensures n in stored || HasVersion(versions, n) {
        if n !in stored && n != versions[0].name {
          assert n !in more && HasVersion(versions[1..], n);
          var i :| 0 <= i < |versions| - 1 && versions[1..][i].name == n;
          assert versions[i + 1].name == n;
        }
        if n == versions[0].name { assert versions[0].name == n; }
      }
      forall i | 0 <= i < |versions| && versions[i].storage ensures versions[i].name in Recorded(stored, versions) {
        if i > 0 { assert versions[1..][i - 1] == versions[i]; }
      }
    }
  }

  lemma PersistedStands(c: Crd, group: string, kind: string)
    requires Sound(c.versions) && Contained(c) && c.group == group && c.kind == kind
    ensures Stands(Persisted(c, c.stored), group, kind)
  {
    RecordedNames(c.stored, c.versions);
  }

  // ---- the writes -------------------------------------------------------------------------------------

  /** The vacuum stays, and without a vacuum every version stays. */
  ghost predicate KeepsCover(a: seq<Version>, b: seq<Version>) {
    if HasVersion(a, VACUUM) then HasVersion(b, VACUUM) else forall n | HasVersion(a, n) :: HasVersion(b, n)
  }

  lemma MergedStands(cur: Crd, generated: Crd, owner: string, group: string, kind: string)
    requires Stands(cur, group, kind) && Fits(generated, group, kind)
    ensures var next := Persisted(Merged(cur, generated, owner), cur.stored);
      Stands(next, group, kind) && KeepsCover(cur.versions, next.versions)
  {
    var merged := Merged(cur, generated, owner);
    MergedSound(cur, generated, owner);
    forall n | HasVersion(cur.versions, n) ensures HasVersion(merged.versions, n) {
      MergedKeepsVersions(cur, generated, owner, n);
      SchemaOfPresent(cur.versions, n);
      SchemaOfPresent(merged.versions, n);
    }
    PersistedStands(merged, group, kind);
  }

  lemma CreatedStands(generated: Crd, owner: string, group: string, kind: string)
    requires Fits(generated, group, kind)
    ensures Stands(Persisted(Stamped(generated, owner), []), group, kind)
  {
    var c := Stamped(generated, owner).(stored := []);
    PersistedStands(c, group, kind);
  }

  lemma DroppedStands(cur: Crd, names: set<string>, group: string, kind: string)
    requires Stands(cur, group, kind) && forall n | n in cur.stored :: n !in names
    requires HasVersion(cur.versions, VACUUM) || cur.versions[0].name !in names
    ensures var next := Persisted(Dropped(cur, names), cur.stored);
      Stands(next, group, kind) && KeepsCover(cur.versions, next.versions)
  {
    var after := Removed(cur.versions, names);
    RemovedSound(cur.versions, names);
    forall n | HasVersion(cur.versions, n) && (n == VACUUM || n !in names) ensures HasVersion(after, n) {
      RemovedSchemas(cur.versions, names, n);
      SchemaOfPresent(cur.versions, n);
      SchemaOfPresent(after, n);
    }
    if !HasVersion(cur.versions, VACUUM) {
      assert forall n | HasVersion(cur.versions, n) :: n == cur.versions[0].name;
    }
    PersistedStands(Dropped(cur, names), group, kind);
  }

  lemma TrimmedStands(cur: Crd, names: set<string>, current: string, group: string, kind: string)
    requires Stands(cur, group, kind) && Covers(Some(cur), current) && VACUUM !in names && current !in names
    ensures Stands(cur.(stored := Trimmed(cur.stored, names)), group, kind)
  {
    TrimmedNames(cur.stored, names);
    forall i | 0 <= i < |cur.versions| && cur.versions[i].storage ensures cur.versions[i].name !in names {
      if !HasVersion(cur.versions, VACUUM) {
        assert i == 0;
      }
    }
  }

  // ---- one step ---------------------------------------------------------------------------------------

  ghost predicate ObjectStands(s: State, s': State, group: string, kind: string) {
    && (s'.server.obj.Some? ==> Stands(s'.server.obj.value, group, kind))
    && (s.server.obj.Some? ==> s'.server.obj.Some? && KeepsCover(s.server.obj.value.versions, s'.server.obj.value.versions))
  }

  /** A write lands on what was read, or changes nothing. */
  lemma WrittenStands(s: State, id: nat, rv: nat, next: Crd, luck: Luck, done: Pc, conflict: Pc, group: string, kind: string)
    requires id in s.calls && (s.server.obj.Some? ==> Stands(s.server.obj.value, group, kind))
    requires s.server.obj.Some? && s.server.rv == rv ==>
      Stands(next, group, kind) && KeepsCover(s.server.obj.value.versions, next.versions)
    ensures ObjectStands(s, Written(s, id, rv, next, luck, done, conflict), group, kind)
  {
    var server := Written(s, id, rv, next, luck, done, conflict).server;
    assert server == s.server || server.obj == Some(next);
  }

  lemma ApplyStands(s: State, id: nat, owner: string, generated: Crd, luck: Luck, group: string, kind: string)
    requires StorageKept(s, group, kind) && id in s.calls && s.calls[id].task == Apply(owner, generated)
    ensures ObjectStands(s, ApplyStep(s, id, owner, generated, luck), group, kind)
  {
    var pc := s.calls[id].pc;
    assert CallFresh(s.server, s.calls[id]) && TaskFits(s.server.obj, s.calls[id].task, group, kind);
    if pc.Writing? && generated.versions != [] {
      if s.server.obj == Some(pc.cur) {
        MergedStands(pc.cur, generated, owner, group, kind);
      }
      WrittenStands(s, id, pc.rv, Persisted(Merged(pc.cur, generated, owner), pc.cur.stored), luck, Finished(true), Retry(luck), group, kind);
    } else if pc.Creating? {
      CreatedStands(generated, owner, group, kind);
    } else {
      assert ApplyStep(s, id, owner, generated, luck).server == s.server;
    }
  }

  lemma PruneStands(s: State, id: nat, current: string, luck: Luck, group: string, kind: string)
    requires StorageKept(s, group, kind) && id in s.calls && s.calls[id].task == Prune(current)
    ensures ObjectStands(s, PruneStep(s, id, current, luck), group, kind)
  {
    var pc := s.calls[id].pc;
    assert CallFresh(s.server, s.calls[id]);
    if pc.Writing? {
      var names := PrunableSet(pc.cur, current);
      forall n ensures n in names ==> n !in pc.cur.stored {
        PrunableExactly(pc.cur, pc.cur.versions, current, n);
      }
      if s.server.obj == Some(pc.cur) {
        DroppedStands(pc.cur, names, group, kind);
      }
      WrittenStands(s, id, pc.rv, Persisted(Dropped(pc.cur, names), pc.cur.stored), luck, Finished(true), Retry(luck), group, kind);
    } else {
      assert PruneStep(s, id, current, luck).server == s.server;
    }
  }

  lemma RetireStands(s: State, id: nat, current: string, luck: Luck, group: string, kind: string)
    requires StorageKept(s, group, kind) && id in s.calls && s.calls[id].task == Retire(current)
    ensures ObjectStands(s, RetireStep(s, id, current, luck), group, kind)
  {
    var pc := s.calls[id].pc;
    assert CallFresh(s.server, s.calls[id]) && TaskFits(s.server.obj, s.calls[id].task, group, kind);
    if pc.Trimming? {
      var trimmed := pc.cur.(stored := Trimmed(pc.cur.stored, pc.names));
      if s.server.obj == Some(pc.cur) {
        TrimmedStands(pc.cur, pc.names, current, group, kind);
      }
      WrittenStands(s, id, pc.rv, trimmed, luck, ToRemove(trimmed, s.server.rv + 1, pc.names), Finished(false), group, kind);
    } else if pc.Removing? {
      if s.server.obj == Some(pc.cur) {
        DroppedStands(pc.cur, pc.names, group, kind);
      }
      WrittenStands(s, id, pc.rv, Persisted(Dropped(pc.cur, pc.names), pc.cur.stored), luck, Finished(true), Finished(false), group, kind);
    } else {
      assert RetireStep(s, id, current, luck).server == s.server;
    }
  }

  predicate StartFits(s: State, e: Event, group: string, kind: string) {
    e.Starts? ==> TaskFits(s.server.obj, e.task, group, kind)
  }

  lemma NextStands(s: State, e: Event, group: string, kind: string)
    requires StorageKept(s, group, kind) && StartFits(s, e, group, kind)
    ensures StorageKept(Next(s, e), group, kind)
  {
    NextFresh(s, e);
    if e.Acts? && e.id in s.calls {
      ActsStands(s, e.id, e.luck, group, kind);
    }
  }

  lemma ActsStands(s: State, id: nat, luck: Luck, group: string, kind: string)
    requires StorageKept(s, group, kind) && id in s.calls
    ensures StorageKept(Next(s, Acts(id, luck)), group, kind)
  {
    var s' := Next(s, Acts(id, luck));
    NextFresh(s, Acts(id, luck));
    assert OnlyCall(s, s', id);
    match s.calls[id].task {
      case Apply(owner, generated) => ApplyStands(s, id, owner, generated, luck, group, kind);
      case Prune(current) => PruneStands(s, id, current, luck, group, kind);
      case Retire(current) => RetireStands(s, id, current, luck, group, kind);
    }
    forall k | k in s'.calls ensures TaskFits(s'.server.obj, s'.calls[k].task, group, kind) {
      assert TaskFits(s.server.obj, s.calls[k].task, group, kind);
      assert s'.calls[k].task == s.calls[k].task;
    }
  }

  ghost predicate WellStarted(s: State, events: seq<Event>, group: string, kind: string) {
    forall i {:trigger events[i]} | 0 <= i < |events| :: StartFits(Run(s, events[..i]), events[i], group, kind)
  }

  /**
   Over any run of applies of one kind and of prunes whose current version, or the vacuum, was there when they
   started: exactly one version stores, it is recorded as stored, and storedVersions stays within the versions,
   between the two writes of a prune as well.
   */
  lemma StorageOverRuns(s: State, events: seq<Event>, group: string, kind: string)
    requires s.calls == map[] && (s.server.obj.Some? ==> Stands(s.server.obj.value, group, kind))
    requires WellStarted(s, events, group, kind)
    ensures StorageKept(Run(s, events), group, kind)
    ensures var obj := Run(s, events).server.obj;
      obj.Some? ==> OneStores(obj.value.versions) && StorageStored(obj.value) && Contained(obj.value)
  {
    StandsOverRuns(s, events, group, kind);
    var obj := Run(s, events).server.obj;
    if obj.Some? {
      SoundStores(obj.value.versions);
    }
  }

  lemma {:induction false} StandsOverRuns(s: State, events: seq<Event>, group: string, kind: string)
    requires s.calls == map[] && (s.server.obj.Some? ==> Stands(s.server.obj.value, group, kind))
    requires WellStarted(s, events, group, kind)
    ensures StorageKept(Run(s, events), group, kind)
  {
    if events != [] {
      var n := |events| - 1;
      var init := events[..n];
      forall i | 0 <= i < n ensures StartFits(Run(s, init[..i]), init[i], group, kind) {
        assert init[..i] == events[..i] && init[i] == events[i];
      }
      StandsOverRuns(s, init, group, kind);
      assert StartFits(Run(s, events[..n]), events[n], group, kind);
      NextStands(Run(s, init), events[n], group, kind);
    }
  }
}
