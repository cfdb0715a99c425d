/** Retiring served versions in two writes: first storedVersions is trimmed, then the versions go. */
module ServedVersionPrune {
  import opened Json
  import opened CrdVersions
  import opened CrdTopology
  import opened CrdProtocol
  import opened CrdStorage
  import opened Requests

  /** What the cluster answers about one version: still referenced by another definition, or a count of instances. */
  datatype Answer = Failed | Used(referenced: bool, instances: nat)

  type Answers = map<string, Answer>

  /** Kept alive by a reference or by an instance; a version nobody answers about counts as unused. */
  predicate InUse(answers: Answers, name: string) {
    name in answers && answers[name].Used? && (answers[name].referenced || answers[name].instances > 0)
  }

  predicate Unanswered(answers: Answers, name: string) {
    name in answers && answers[name].Failed?
  }

  function KeptNames(c: Crd, answers: Answers): set<string> {
    set n | n in NamesOf(c.versions) && InUse(answers, n)
  }

  /** A version the evaluation asks about. */
  predicate Asked(name: string, current: string) {
    name != VACUUM && name != current
  }

  /** The served versions that nothing uses, or nothing when an answer is missing that was needed. */
  method PrunableServedVersions(versions: seq<Version>, current: string, answers: Answers) returns (r: Option<seq<string>>)
    ensures r.None? <==> exists i | 0 <= i < |versions| :: Asked(versions[i].name, current) && Unanswered(answers, versions[i].name)
    ensures r.Some? ==> forall n :: n in r.value <==> HasVersion(versions, n) && Asked(n, current) && !InUse(answers, n)
  {
    var prunable: seq<string> := [];
    for i := 0 to |versions|
      invariant forall k | 0 <= k < i :: !(Asked(versions[k].name, current) && Unanswered(answers, versions[k].name))
      invariant forall n :: n in prunable <==> HasVersion(versions[..i], n) && Asked(n, current) && !InUse(answers, n)
    {
      var name := versions[i].name;
      NamedUpTo(versions, i);
      if name == VACUUM || name == current {
        continue;
      }
      if name in answers && answers[name].Failed? {
        return None;
      }
      if name in answers && (answers[name].referenced || answers[name].instances > 0) {
        continue;
      }
      prunable := prunable + [name];
    }
    assert versions[..|versions|] == versions;
    r := Some(prunable);
  }

  lemma NamedUpTo(versions: seq<Version>, i: nat)
    requires i < |versions|
    ensures forall n :: HasVersion(versions[..i + 1], n) <==> HasVersion(versions[..i], n) || n == versions[i].name
  {
    var more, init := versions[..i + 1], versions[..i];
    forall n ensures HasVersion(more, n) <==> HasVersion(init, n) || n == versions[i].name {
      if k :| 0 <= k < |init| && init[k].name == n {
        assert more[k].name == n;
      }
      if k :| 0 <= k < |more| && more[k].name == n {
        assert k < i ==> init[k].name == n;
      }
      assert more[i] == versions[i];
    }
  }

  // ---- the two writes ---------------------------------------------------------------------------------

  function AfterTrim(c: Crd, names: set<string>): Crd {
    c.(stored := Trimmed(c.stored, names))
  }

  function AfterRemoval(c: Crd, names: set<string>): Crd {
    Persisted(Dropped(AfterTrim(c, names), names), AfterTrim(c, names).stored)
  }

  /** Every state from before the first write to after the second. */
  predicate Stage(was: Crd, names: set<string>, c: Crd) {
    c == was || c == AfterTrim(was, names) || c == AfterRemoval(was, names)
  }

  /**
   If storedVersions is contained in the versions at the start, it is in every state between and after the two
   writes, whatever else holds of the object, and neither write takes the current version or the vacuum.
   */
  lemma StagesContained(was: Crd, current: string, kept: set<string>, c: Crd)
    requires Contained(was) && Stage(was, Retired(was, current, kept), c)
    ensures Contained(c)
    ensures HasVersion(was.versions, current) ==> HasVersion(c.versions, current)
    ensures HasVersion(was.versions, VACUUM) ==> HasVersion(c.versions, VACUUM)
  {
    var names := Retired(was, current, kept);
    var after := Removed(was.versions, names);
    TrimmedNames(was.stored, names);
    RecordedNames(Trimmed(was.stored, names), after);
    forall n | n == VACUUM || n !in names ensures HasVersion(was.versions, n) ==> HasVersion(after, n) {
      RemovedSchemas(was.versions, names, n);
      SchemaOfPresent(was.versions, n);
      SchemaOfPresent(after, n);
    }
  }

  /** On a sound object, whatever state the two writes leave behind stands: one version stores, and it is recorded as stored. */
  lemma StagesStand(was: Crd, current: string, kept: set<string>, c: Crd, group: string, kind: string)
    requires Stands(was, group, kind) && Covers(Some(was), current) && Stage(was, Retired(was, current, kept), c)
    ensures Stands(c, group, kind)
  {
    var names := Retired(was, current, kept);
    var trimmed := AfterTrim(was, names);
    TrimmedStands(was, names, current, group, kind);
    TrimmedNames(was.stored, names);
    if !HasVersion(was.versions, VACUUM) {
      var i :| 0 <= i < |was.versions| && was.versions[i].name == current;
      assert was.versions[0].name == current;
    }
    DroppedStands(trimmed, names, group, kind);
  }

  /** Once done, evaluating again on an otherwise unchanged cluster finds nothing to retire. */
  lemma NothingLeft(was: Crd, current: string, kept: set<string>)
    ensures Retired(AfterRemoval(was, Retired(was, current, kept)), current, kept) == {}
  {
    var names := Retired(was, current, kept);
    forall v | v in Removed(was.versions, names) ensures v.name !in Retired(AfterRemoval(was, names), current, kept) {
      RemovedMembers(was.versions, names, v);
      var i :| 0 <= i < |was.versions| && was.versions[i] == v;
      assert v.name in NamesOf(was.versions);
    }
  }

  /** The order matters: removing first breaks the containment exactly when a retired version is stored. */
  lemma RemovingFirst(was: Crd, current: string, kept: set<string>)
    requires Contained(was)
    ensures var names := Retired(was, current, kept);
      Contained(Dropped(was, names)) <==> forall n | n in was.stored :: n !in names
  {
    var names := Retired(was, current, kept);
    forall n | n in was.stored ensures HasVersion(Removed(was.versions, names), n) <==> n !in names {
      RemovedSchemas(was.versions, names, n);
      SchemaOfPresent(was.versions, n);
      SchemaOfPresent(Removed(was.versions, names), n);
    }
  }

  // ---- the same, in place -----------------------------------------------------------------------------

  /** What the evaluation finds to retire; on an absent CRD, nothing. */
  function RetiredNow(obj: Option<Crd>, current: string, answers: Answers): set<string> {
    if obj.None? then {} else Retired(obj.value, current, KeptNames(obj.value, answers))
  }

  /** Every version that is asked about is answered. */
  predicate AllAnswered(obj: Option<Crd>, current: string, answers: Answers) {
    obj.Some? ==> forall i | 0 <= i < |obj.value.versions| ::
      !(Asked(obj.value.versions[i].name, current) && Unanswered(answers, obj.value.versions[i].name))
  }

  /** The writes that are needed go through; the first one only when a recorded version goes. */
  predicate WritesPass(stored: seq<string>, names: set<string>, trim: Request, remove: Request) {
    ((exists n :: n in stored && n in names) ==> !trim.fails) && !remove.fails
  }

  predicate StageOf(was: Option<Crd>, names: set<string>, c: Option<Crd>) {
    if was.None? then c.None? else c.Some? && Stage(was.value, names, c.value)
  }

  /** The API server seen from a reconcile that nobody interferes with: the object, and the states it went through. */
  class Cluster {
    var obj: Option<Crd>
    ghost var history: seq<Option<Crd>>

    constructor (obj: Option<Crd>)
      ensures this.obj == obj && history == [obj]
    {
      this.obj, history := obj, [obj];
    }

    method Put(next: Crd, write: Request) returns (ok: bool)
      modifies this
      ensures ok == !write.fails && obj == (if Effective(write) then Some(next) else old(obj))
      ensures history == old(history) + [obj]
    {
      ok := !write.fails;
      if Effective(write) {
        obj := Some(next);
      }
      history := history + [obj];
    }

    /** Since the history was n long the object went through stages of these two writes only. */
    ghost predicate Staged(n: nat, was: Option<Crd>, names: set<string>)
      reads this
    {
      n <= |history| && StageOf(was, names, obj) && forall i | n <= i < |history| :: StageOf(was, names, history[i])
    }

    /** Retires the served versions nothing uses. Either write may fail, which ends the reconcile where it stands. */
    method PruneStaleServedVersions(current: string, answers: Answers, trim: Request, remove: Request) returns (ok: bool)
      modifies this
      ensures var names := RetiredNow(old(obj), current, answers);
        && Staged(|old(history)|, old(obj), names) && history[..|old(history)|] == old(history)
        && (ok ==> obj == if names == {} then old(obj) else Some(AfterRemoval(old(obj).value, names)))
        && (ok <==> AllAnswered(old(obj), current, answers) && (names == {} || WritesPass(old(obj).value.stored, names, trim, remove)))
      ensures !AllAnswered(old(obj), current, answers) ==> obj == old(obj)
    {
      if obj.None? {
        return true;
      }
      var prunable := PrunableServedVersions(obj.value.versions, current, answers);
      if prunable.None? {
        return false;
      }
      var pruneSet := SetOf(prunable.value);
      PrunableNow(obj.value, current, answers, prunable.value);
      assert pruneSet == RetiredNow(obj, current, answers);
      if |prunable.value| == 0 {
        return true;
      }
      assert prunable.value[0] in prunable.value;
      ok := TrimThenRemove(obj.value, pruneSet, trim, remove);
    }

    /** storedVersions first, when it names a version that goes; then the versions. */
    method TrimThenRemove(was: Crd, names: set<string>, trim: Request, remove: Request) returns (ok: bool)
      requires obj == Some(was) && exists n :: n in names && n != VACUUM && HasVersion(was.versions, n)
      modifies this
      ensures Staged(|old(history)|, Some(was), names) && history[..|old(history)|] == old(history)
      ensures ok ==> obj == Some(AfterRemoval(was, names))
      ensures ok <==> WritesPass(was.stored, names, trim, remove)
    {
      var keptStored := KeepStored(was.stored, names);
      TrimmedShorter(was.stored, names);
      if |keptStored| != |was.stored| {
        ok := Put(was.(stored := keptStored), trim);
        if !ok {
          return;
        }
      }
      assert obj == Some(AfterTrim(was, names));
      var live := new CustomResourceDefinition(obj.value);
      var removed := live.RemoveStaleVersions(names);
      assert removed;
      ok := Put(Persisted(live.View(), obj.value.stored), remove);
    }
  }

  lemma PrunableNow(c: Crd, current: string, answers: Answers, prunable: seq<string>)
    requires forall n :: n in prunable <==> HasVersion(c.versions, n) && Asked(n, current) && !InUse(answers, n)
    ensures forall n :: n in prunable <==> n in Retired(c, current, KeptNames(c, answers))
  {
    forall n ensures HasVersion(c.versions, n) <==> n in NamesOf(c.versions) {}
  }

  method SetOf(list: seq<string>) returns (s: set<string>)
    ensures forall n :: n in s <==> n in list
  {
    s := {};
    for i := 0 to |list|
      invariant forall n :: n in s <==> n in list[..i]
    {
      s := s + {list[i]};
    }
    assert list[..|list|] == list;
  }

  method KeepStored(stored: seq<string>, prune: set<string>) returns (kept: seq<string>)
    ensures kept == Trimmed(stored, prune)
  {
    kept := [];
    for i := 0 to |stored|
      invariant Trimmed(stored, prune) == kept + Trimmed(stored[i..], prune)
    {
      assert stored[i..][0] == stored[i] && stored[i..][1..] == stored[i + 1..];
      if stored[i] !in prune {
        kept := kept + [stored[i]];
      }
    }
  }

  lemma {:induction false} TrimmedShorter(stored: seq<string>, names: set<string>)
    ensures |Trimmed(stored, names)| <= |stored|
    ensures |Trimmed(stored, names)| == |stored| ==> Trimmed(stored, names) == stored
    ensures |Trimmed(stored, names)| == |stored| <==> forall n | n in stored :: n !in names
  {
    if stored != [] {
      TrimmedShorter(stored[1..], names);
    }
  }
}
