/** What merging and pruning do to the versions of a CRD: none is lost, and one version always stores. */
module CrdTopology {
  import opened Json
  import opened CrdVersions

  // ---- schemas ----------------------------------------------------------------------------------------

  lemma {:induction false} SchemaOfSame(a: seq<Version>, b: seq<Version>, name: string)
    requires |a| == |b| && forall i | 0 <= i < |a| :: b[i].name == a[i].name && b[i].schema == a[i].schema
    ensures SchemaOf(b, name) == SchemaOf(a, name)
  {
    if a != [] {
      SchemaOfSame(a[1..], b[1..], name);
    }
  }

  lemma {:induction false} SchemaOfSplit(a: seq<Version>, b: seq<Version>, name: string)
    ensures SchemaOf(a + b, name) == if SchemaOf(a, name).Some? then SchemaOf(a, name) else SchemaOf(b, name)
  {
    if a == [] {
      assert a + b == b;
    } else {
      assert (a + b)[1..] == a[1..] + b;
      SchemaOfSplit(a[1..], b, name);
    }
  }

  lemma {:induction false} SchemaOfPresent(versions: seq<Version>, name: string)
    ensures SchemaOf(versions, name).Some? <==> HasVersion(versions, name)
  {
    if versions != [] {
      SchemaOfPresent(versions[1..], name);
      assert HasVersion(versions[1..], name) ==> exists i | 0 <= i < |versions| - 1 :: versions[1..][i].name == name && versions[i + 1].name == name;
    }
  }

  lemma {:induction false} WithSchemaOf(versions: seq<Version>, name: string, schema: string, other: string)
    ensures SchemaOf(WithSchema(versions, name, schema), other) ==
      if other == name && HasVersion(versions, name) then Some(schema) else SchemaOf(versions, other)
  {
    SchemaOfPresent(versions, name);
    if versions != [] && versions[0].name != name {
      WithSchemaOf(versions[1..], name, schema, other);
      SchemaOfPresent(versions[1..], name);
    }
  }

  lemma AppendedSchemas(versions: seq<Version>, v: Version, name: string)
    ensures SchemaOf(versions, name).Some? ==> SchemaOf(Appended(versions, v), name) == SchemaOf(versions, name)
    ensures SchemaOf(versions, v.name).None? ==> SchemaOf(Appended(versions, v), v.name) == Some(v.schema)
  {
    SchemaOfPresent(versions, v.name);
    var more := [v] + if HasVersion(versions, VACUUM) then [] else [VacuumVersion()];
    SchemaOfSplit(versions, more, name);
    SchemaOfSplit(versions, more, v.name);
    assert versions + [v] + (if HasVersion(versions, VACUUM) then [] else [VacuumVersion()]) == versions + more;
    SchemaOfSame(versions + more, Serving(versions + more), name);
    SchemaOfSame(versions + more, Serving(versions + more), v.name);
  }

  lemma {:induction false} AllAppendedSchemas(versions: seq<Version>, more: seq<Version>, name: string)
    ensures SchemaOf(versions, name).Some? ==> SchemaOf(AllAppended(versions, more), name) == SchemaOf(versions, name)
    ensures more != [] && SchemaOf(versions, more[0].name).None? ==>
      SchemaOf(AllAppended(versions, more), more[0].name) == Some(more[0].schema)
    decreases more
  {
    if more != [] {
      AppendedSchemas(versions, more[0], name);
      AppendedSchemas(versions, more[0], more[0].name);
      AllAppendedSchemas(Appended(versions, more[0]), more[1..], name);
      AllAppendedSchemas(Appended(versions, more[0]), more[1..], more[0].name);
    }
  }

  /**
   Merging loses no version: each version of the live CRD keeps its schema, except the one the generated CRD is
   for, which takes the generated schema when the live CRD serves that kind at that version.
   */
  lemma MergedKeepsVersions(live: Crd, generated: Crd, owner: string, name: string)
    requires generated.versions != []
    ensures var v := generated.versions[0]; var before, after := SchemaOf(live.versions, name), SchemaOf(Merged(live, generated, owner).versions, name);
      && (name != v.name && before.Some? ==> after == before)
      && (name == v.name ==> after == if before.Some? && !(live.group == generated.group && live.kind == generated.kind) then before else Some(v.schema))
  {
    var v := generated.versions[0];
    SchemaOfPresent(live.versions, v.name);
    if GvkExists(live, generated.group, generated.kind, v.name) {
      var replaced := WithSchema(live.versions, v.name, v.schema);
      WithSchemaOf(live.versions, v.name, v.schema, name);
      SchemaOfSame(replaced, Columned(replaced), name);
    } else {
      var all := AllAppended(live.versions, generated.versions);
      AllAppendedSchemas(live.versions, generated.versions, name);
      SchemaOfSame(all, Flagged(all, v.name, true, false), name);
      SchemaOfSame(Flagged(all, v.name, true, false), Columned(Flagged(all, v.name, true, false)), name);
    }
  }

  lemma {:induction false} RemovedSchemas(versions: seq<Version>, names: set<string>, name: string)
    ensures SchemaOf(Removed(versions, names), name) ==
      if name != VACUUM && name in names then None else SchemaOf(versions, name)
  {
    if versions != [] {
      RemovedSchemas(versions[1..], names, name);
      var rest := Removed(versions[1..], names);
      assert [] + rest == rest && ([versions[0]] + rest)[1..] == rest;
    }
  }

  lemma {:induction false} PrunableExactly(c: Crd, versions: seq<Version>, current: string, name: string)
    ensures name in PrunableNames(c, versions, current) <==> HasVersion(versions, name) && IsPrunable(c, current, name)
  {
    if versions != [] {
      PrunableExactly(c, versions[1..], current, name);
      assert HasVersion(versions, name) <==> versions[0].name == name || HasVersion(versions[1..], name) by {
        if HasVersion(versions[1..], name) {
          var i :| 0 <= i < |versions| - 1 && versions[1..][i].name == name;
          assert versions[i + 1].name == name;
        }
      }
    }
  }

  // ---- which version stores ---------------------------------------------------------------------------

  predicate Distinct(versions: seq<Version>) {
    forall i, k | 0 <= i < k < |versions| :: versions[i].name != versions[k].name
  }

  /** Names are distinct; the vacuum, once there, is unserved and the only storage version; until then there is one version, and it stores. */
  predicate Sound(versions: seq<Version>) {
    && Distinct(versions)
    && if HasVersion(versions, VACUUM)
       then forall i | 0 <= i < |versions| :: versions[i].storage == (versions[i].name == VACUUM) && (versions[i].storage ==> !versions[i].served)
       else |versions| == 1 && versions[0].storage
  }

  /** Exactly one version stores. */
  ghost predicate OneStores(versions: seq<Version>) {
    exists i | 0 <= i < |versions| :: versions[i].storage && forall k | 0 <= k < |versions| && versions[k].storage :: k == i
  }

  lemma SoundStores(versions: seq<Version>)
    requires Sound(versions)
    ensures OneStores(versions)
  {
    if HasVersion(versions, VACUUM) {
      var i :| 0 <= i < |versions| && versions[i].name == VACUUM;
      assert versions[i].storage;
    } else {
      assert versions[0].storage;
    }
  }

  lemma {:induction false} WithSchemaElsewhere(versions: seq<Version>, name: string, schema: string)
    ensures var r := WithSchema(versions, name, schema);
      |r| == |versions| && forall i | 0 <= i < |r| :: r[i] == versions[i].(schema := r[i].schema)
  {
    if versions != [] && versions[0].name != name {
      WithSchemaElsewhere(versions[1..], name, schema);
    }
  }

  lemma SameTopology(a: seq<Version>, b: seq<Version>)
    requires |a| == |b| && forall i | 0 <= i < |a| :: b[i].name == a[i].name && b[i].served == a[i].served && b[i].storage == a[i].storage
    ensures Sound(a) <==> Sound(b)
  {
    assert HasVersion(a, VACUUM) <==> HasVersion(b, VACUUM) by {
      if i :| 0 <= i < |a| && a[i].name == VACUUM { assert b[i].name == VACUUM; }
      if i :| 0 <= i < |b| && b[i].name == VACUUM { assert a[i].name == VACUUM; }
    }
  }

  /** A version named like no other and unlike the vacuum is appended: the vacuum stores from now on. */
  lemma AppendedSound(versions: seq<Version>, v: Version)
    requires Sound(versions) && !HasVersion(versions, v.name) && v.name != VACUUM
    ensures Sound(Appended(versions, v)) && HasVersion(Appended(versions, v), VACUUM)
  {
    var r := Appended(versions, v);
    var n := |versions|;
    assert forall i | 0 <= i < n :: r[i].name == versions[i].name;
    assert r[n].name == v.name;
    if HasVersion(versions, VACUUM) {
      var i :| 0 <= i < n && versions[i].name == VACUUM;
      assert r[i].name == VACUUM;
    } else {
      assert r[n + 1].name == VACUUM;
    }
  }

  /**
   Merging a generated one-version CRD keeps one storage version, exactly unless the version is already there
   under another group or kind, and no vacuum stores yet.
   */
  lemma MergedSound(live: Crd, generated: Crd, owner: string)
    requires Sound(live.versions) && |generated.versions| == 1 && generated.versions[0].name != VACUUM
    ensures Sound(Merged(live, generated, owner).versions) <==>
      (HasVersion(live.versions, VACUUM) || !HasVersion(live.versions, generated.versions[0].name)
       || (live.group == generated.group && live.kind == generated.kind))
  {
    var v := generated.versions[0];
    if GvkExists(live, generated.group, generated.kind, v.name) {
      InPlaceSound(live.versions, v);
    } else {
      OneAppended(live.versions, generated.versions);
      ColumnedSound(Flagged(Appended(live.versions, v), v.name, true, false));
      FlaggedAfterAppend(live.versions, v);
    }
  }

  lemma ColumnedSound(versions: seq<Version>)
    ensures Sound(Columned(versions)) <==> Sound(versions)
  {
    SameTopology(versions, Columned(versions));
  }

  lemma InPlaceSound(versions: seq<Version>, v: Version)
    requires Sound(versions)
    ensures Sound(Columned(WithSchema(versions, v.name, v.schema)))
  {
    WithSchemaElsewhere(versions, v.name, v.schema);
    SameTopology(versions, WithSchema(versions, v.name, v.schema));
    ColumnedSound(WithSchema(versions, v.name, v.schema));
  }

  lemma FlaggedAfterAppend(versions: seq<Version>, v: Version)
    requires Sound(versions) && v.name != VACUUM
    ensures Sound(Flagged(Appended(versions, v), v.name, true, false)) <==>
      HasVersion(versions, VACUUM) || !HasVersion(versions, v.name)
  {
    var all := Appended(versions, v);
    if !HasVersion(versions, v.name) {
      AppendedSound(versions, v);
      FlaggedSound(all, v.name);
    } else if HasVersion(versions, VACUUM) {
      FlaggedSound(versions, v.name);
    } else {
      var flagged := Flagged(all, v.name, true, false);
      assert flagged[0].name == v.name && !flagged[0].storage;
    }
  }

  lemma OneAppended(versions: seq<Version>, more: seq<Version>)
    requires |more| == 1
    ensures AllAppended(versions, more) == Appended(versions, more[0])
  {
    assert more[1..] == [];
    assert AllAppended(Appended(versions, more[0]), []) == Appended(versions, more[0]);
  }

  lemma FlaggedSound(versions: seq<Version>, name: string)
    requires Sound(versions) && HasVersion(versions, VACUUM) && name != VACUUM
    ensures Sound(Flagged(versions, name, true, false))
  {
    var i :| 0 <= i < |versions| && versions[i].name == VACUUM;
    assert Flagged(versions, name, true, false)[i].name == VACUUM;
  }

  lemma {:induction false} RemovedMembers(versions: seq<Version>, names: set<string>, v: Version)
    ensures v in Removed(versions, names) <==> v in versions && !(v.name != VACUUM && v.name in names)
  {
    if versions != [] {
      RemovedMembers(versions[1..], names, v);
    }
  }

  lemma {:induction false} RemovedDistinct(versions: seq<Version>, names: set<string>)
    requires Distinct(versions)
    ensures Distinct(Removed(versions, names))
  {
    if versions != [] {
      var rest := Removed(versions[1..], names);
      RemovedDistinct(versions[1..], names);
      forall i | 0 <= i < |rest| ensures rest[i].name != versions[0].name {
        RemovedMembers(versions[1..], names, rest[i]);
        var k :| 0 <= k < |versions| - 1 && versions[1..][k] == rest[i];
        assert versions[k + 1].name != versions[0].name;
      }
    }
  }

  /** Removing versions keeps one storage version, exactly unless it removes the only version. */
  lemma RemovedSound(versions: seq<Version>, names: set<string>)
    requires Sound(versions)
    ensures Sound(Removed(versions, names)) <==> HasVersion(versions, VACUUM) || versions[0].name !in names
  {
    var r := Removed(versions, names);
    RemovedDistinct(versions, names);
    if HasVersion(versions, VACUUM) {
      var i :| 0 <= i < |versions| && versions[i].name == VACUUM;
      RemovedMembers(versions, names, versions[i]);
      assert HasVersion(r, VACUUM);
      forall k | 0 <= k < |r| ensures r[k] in versions {
        RemovedMembers(versions, names, r[k]);
      }
    } else {
      assert versions[0].name != VACUUM && versions[1..] == [] && Removed(versions[1..], names) == [];
      if versions[0].name !in names {
        assert r == versions;
      }
    }
  }
}
