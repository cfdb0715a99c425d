/** What an apply leaves of each version: its name, its place, its flags, its schema and its columns. */
module CrdMerge {
  import opened Json
  import opened Lists
  import opened CrdVersions
  import CrdTopology

  /** The version at i is the first of that name. */
  predicate FirstNamed(versions: seq<Version>, i: nat, name: string) {
    i < |versions| && versions[i].name == name && forall k | 0 <= k < i :: versions[k].name != name
  }

  /** How often a version shows its name. */
  ghost function Shown(v: Version): nat {
    multiset(v.columns)[VERSION_COLUMN]
  }

  /** Every version but the vacuum shows its name in one more column, unless it does so already. */
  ghost predicate ShowsVersion(before: Version, after: Version) {
    && (after.columns == before.columns || after.columns == before.columns + [VERSION_COLUMN])
    && (before.name == VACUUM ==> after.columns == before.columns)
    && (before.name != VACUUM ==> Shown(after) == if Shown(before) == 0 then 1 else Shown(before))
  }

  /** The annotations of a CRD that an owner applies; an apply on behalf of nobody leaves them alone. */
  ghost predicate OwnedBy(before: Crd, after: Crd, owner: string) {
    if owner == "" then after.annotations == before.annotations
    else
      && after.annotations.Keys == before.annotations.Keys + {OWNER_ANNOTATION}
      && after.annotations[OWNER_ANNOTATION] == owner
      && forall key | key in before.annotations && key != OWNER_ANNOTATION :: after.annotations[key] == before.annotations[key]
  }

  lemma ColumnedShows(versions: seq<Version>, i: nat)
    requires i < |versions|
    ensures var r := Columned(versions)[i];
      r == versions[i].(columns := r.columns) && ShowsVersion(versions[i], r)
  {
    var columns := versions[i].columns;
    assert multiset(columns + [VERSION_COLUMN]) == multiset(columns) + multiset{VERSION_COLUMN};
    assert VERSION_COLUMN in columns <==> VERSION_COLUMN in multiset(columns);
  }

  lemma AllColumned(versions: seq<Version>)
    ensures forall i | 0 <= i < |versions| :: ColumnsOnly(versions[i], Columned(versions)[i])
  {
    forall i | 0 <= i < |versions| ensures ColumnsOnly(versions[i], Columned(versions)[i]) {
      ColumnedShows(versions, i);
    }
  }

  /** Nothing but the columns changes, and they as they should. */
  ghost predicate ColumnsOnly(before: Version, after: Version) {
    after == before.(columns := after.columns) && ShowsVersion(before, after)
  }

  /** What every merge does: the kind, the group and the recorded versions stay, and there is no conversion. */
  lemma MergedAround(live: Crd, generated: Crd, owner: string)
    requires generated.versions != []
    ensures var m := Merged(live, generated, owner);
      m.group == live.group && m.kind == live.kind && m.stored == live.stored && m.noneConversion && OwnedBy(live, m, owner)
  {
  }

  /** A merge in place changes the schema of the first version of that name, and no name, place or flag. */
  lemma MergedInPlace(live: Crd, generated: Crd, owner: string)
    requires generated.versions != []
    requires GvkExists(live, generated.group, generated.kind, generated.versions[0].name)
    ensures var v, m := generated.versions[0], Merged(live, generated, owner).versions;
      && |m| == |live.versions|
      && forall i | 0 <= i < |m| ::
        && m[i].name == live.versions[i].name && m[i].served == live.versions[i].served && m[i].storage == live.versions[i].storage
        && m[i].schema == (if FirstNamed(live.versions, i, v.name) then v.schema else live.versions[i].schema)
        && ShowsVersion(live.versions[i], m[i])
  {
    var v := generated.versions[0];
    var i := FirstOf(live.versions, v.name);
    WithSchemaAt(live.versions, v.name, v.schema, i);
    var replaced := WithSchema(live.versions, v.name, v.schema);
    AllColumned(replaced);
  }

  lemma {:induction false} FirstOf(versions: seq<Version>, name: string) returns (i: nat)
    requires HasVersion(versions, name)
    ensures FirstNamed(versions, i, name)
  {
    if versions[0].name == name {
      i := 0;
    } else {
      assert HasVersion(versions[1..], name) by {
        var k :| 0 <= k < |versions| && versions[k].name == name;
        assert versions[1..][k - 1].name == name;
      }
      var k := FirstOf(versions[1..], name);
      i := k + 1;
      forall j | 0 <= j < i ensures versions[j].name != name {
        assert j > 0 ==> versions[j] == versions[1..][j - 1];
      }
    }
  }

  /**
   A version is appended: the live ones stay in place, it follows and, when it is missing, the vacuum. From then on
   every version but the vacuum serves and none of them stores; a vacuum that was there keeps its flags, and a new one
   stores without serving.
   */
  ghost predicate Appends(live: seq<Version>, v: Version, m: seq<Version>) {
    && |m| == |live| + (if HasVersion(live, VACUUM) then 1 else 2)
    && (forall i | 0 <= i < |live| :: m[i].name == live[i].name && m[i].schema == live[i].schema && ShowsVersion(live[i], m[i]))
    && m[|live|].name == v.name && m[|live|].schema == v.schema && ShowsVersion(v, m[|live|])
    && (|m| == |live| + 2 ==>
          var last := m[|live| + 1]; last == VacuumVersion() && last.name == VACUUM && !last.served && last.storage)
    && (forall i | 0 <= i < |m| && m[i].name != VACUUM :: m[i].served && !m[i].storage)
    && (forall i | 0 <= i < |live| && m[i].name == VACUUM :: m[i].served == live[i].served && m[i].storage == live[i].storage)
  }

  lemma MergedAppends(live: Crd, generated: Crd, owner: string)
    requires |generated.versions| == 1 && !HasVersion(live.versions, generated.versions[0].name)
    requires generated.versions[0].name != VACUUM
    ensures Appends(live.versions, generated.versions[0], Merged(live, generated, owner).versions)
  {
    var v := generated.versions[0];
    CrdTopology.OneAppended(live.versions, generated.versions);
    AppendedFlags(live.versions, v);
    var flagged := Flagged(Appended(live.versions, v), v.name, true, false);
    AllColumned(flagged);
    ThenColumned(live.versions, v, flagged, Columned(flagged));
  }

  /** The same before the columns are added. */
  ghost predicate AppendsFlagged(live: seq<Version>, v: Version, m: seq<Version>) {
    && |m| == |live| + (if HasVersion(live, VACUUM) then 1 else 2)
    && (forall i | 0 <= i < |live| :: m[i] == live[i].(served := m[i].served, storage := m[i].storage))
    && m[|live|] == v.(served := true, storage := false)
    && (|m| == |live| + 2 ==> m[|live| + 1] == VacuumVersion())
    && (forall i | 0 <= i < |live| :: if m[i].name == VACUUM then m[i] == live[i] else m[i].served && !m[i].storage)
  }

  lemma ThenColumned(live: seq<Version>, v: Version, flagged: seq<Version>, m: seq<Version>)
    requires AppendsFlagged(live, v, flagged) && v.name != VACUUM
    requires |m| == |flagged| && forall i | 0 <= i < |m| :: ColumnsOnly(flagged[i], m[i])
    ensures Appends(live, v, m)
  {
    var n := |live|;
    assert ColumnsOnly(flagged[n], m[n]);
    forall i | 0 <= i < n
      ensures m[i].name == live[i].name && m[i].schema == live[i].schema && ShowsVersion(live[i], m[i])
      ensures m[i].served == flagged[i].served && m[i].storage == flagged[i].storage
    {
      assert ColumnsOnly(flagged[i], m[i]);
    }
    if |m| == n + 2 {
      assert ColumnsOnly(flagged[n + 1], m[n + 1]);
    }
  }

  lemma AppendedFlags(versions: seq<Version>, v: Version)
    requires !HasVersion(versions, v.name) && v.name != VACUUM
    ensures AppendsFlagged(versions, v, Flagged(Appended(versions, v), v.name, true, false))
  {
    var n := |versions|;
    var more := [v] + if HasVersion(versions, VACUUM) then [] else [VacuumVersion()];
    assert versions + [v] + (if HasVersion(versions, VACUUM) then [] else [VacuumVersion()]) == versions + more;
    var all := versions + more;
    assert Appended(versions, v) == Serving(all);
    assert forall i | 0 <= i < n :: all[i] == versions[i] && all[i].name != v.name;
  }

  /** A merge onto a CRD of another group or kind that has the version: those of that name serve, the rest stays. */
  lemma MergedElsewhere(live: Crd, generated: Crd, owner: string)
    requires |generated.versions| == 1 && HasVersion(live.versions, generated.versions[0].name)
    requires !(live.group == generated.group && live.kind == generated.kind)
    ensures var v, m := generated.versions[0], Merged(live, generated, owner).versions;
      && |m| == |live.versions|
      && forall i | 0 <= i < |m| ::
        && m[i].name == live.versions[i].name && m[i].schema == live.versions[i].schema && ShowsVersion(live.versions[i], m[i])
        && (if m[i].name == v.name then m[i].served && !m[i].storage
            else m[i].served == live.versions[i].served && m[i].storage == live.versions[i].storage)
  {
    var v := generated.versions[0];
    CrdTopology.OneAppended(live.versions, generated.versions);
    var flagged := Flagged(live.versions, v.name, true, false);
    AllColumned(flagged);
  }

  /** A CRD that is created is the generated one, with its owner and the column. */
  lemma StampedKeeps(generated: Crd, owner: string)
    ensures var s := Stamped(generated, owner);
      && s == generated.(annotations := s.annotations, versions := s.versions) && OwnedBy(generated, s, owner)
      && |s.versions| == |generated.versions|
      && forall i | 0 <= i < |s.versions| ::
        s.versions[i] == generated.versions[i].(columns := s.versions[i].columns) && ShowsVersion(generated.versions[i], s.versions[i])
  {
    AllColumned(generated.versions);
  }

  // ---- pruning ------------------------------------------------------------------------------------------

  /** The places of the versions that a removal leaves. */
  ghost function Left(versions: seq<Version>, names: set<string>): set<nat> {
    set i: nat | i < |versions| && (versions[i].name == VACUUM || versions[i].name !in names)
  }

  /** Removal keeps the versions it leaves whole and in their order. */
  lemma {:induction false} RemovedSelects(versions: seq<Version>, names: set<string>)
    ensures Removed(versions, names) == Select(versions, Left(versions, names))
  {
    if versions != [] {
      RemovedSelects(versions[1..], names);
      SelectBefore(versions[0], versions[1..], Left(versions[1..], names), Left(versions, names));
      assert [versions[0]] + versions[1..] == versions;
    }
  }

  function Names(versions: seq<Version>): (r: seq<string>)
    ensures |r| == |versions|
  {
    seq(|versions|, i requires 0 <= i < |versions| => versions[i].name)
  }

  /** The prunable names are those of the versions that are neither current nor the vacuum nor stored, in their order. */
  lemma {:induction false} PrunableSelects(c: Crd, versions: seq<Version>, current: string)
    ensures PrunableNames(c, versions, current) ==
      Select(Names(versions), set i: nat | i < |versions| && versions[i].name !in {current, VACUUM} && versions[i].name !in c.stored)
  {
    if versions != [] {
      PrunableSelects(c, versions[1..], current);
      SelectBefore(versions[0].name, Names(versions[1..]),
        set i: nat | i < |versions| - 1 && versions[1..][i].name !in {current, VACUUM} && versions[1..][i].name !in c.stored,
        set i: nat | i < |versions| && versions[i].name !in {current, VACUUM} && versions[i].name !in c.stored);
      assert [versions[0].name] + Names(versions[1..]) == Names(versions);
    }
  }
}
