/** A generated CRD with its versions, and the operations that compose and prune them. */
module CrdVersions {
  import opened Json

  const VACUUM := "vacuum"
  const OWNER_ANNOTATION := "krateo.io/owned-by-restdefinition"
  const VERSION_COLUMN := "VERSION"

  datatype Version = Version(name: string, served: bool, storage: bool, schema: string, columns: seq<string>)

  /** What one CRD object says; `stored` is status.storedVersions. */
  datatype Crd = Crd(
    annotations: map<string, string>,
    group: string,
    kind: string,
    versions: seq<Version>,
    stored: seq<string>,
    noneConversion: bool)

  // ---- reading ----------------------------------------------------------------------------------------

  function OwnerOf(c: Crd): string {
    if OWNER_ANNOTATION in c.annotations then c.annotations[OWNER_ANNOTATION] else ""
  }

  predicate HasVersion(versions: seq<Version>, name: string) {
    exists i | 0 <= i < |versions| :: versions[i].name == name
  }

  /** The schema of the first version of a name. */
  function SchemaOf(versions: seq<Version>, name: string): Option<string> {
    if versions == [] then None
    else if versions[0].name == name then Some(versions[0].schema)
    else SchemaOf(versions[1..], name)
  }

  predicate GvkExists(c: Crd, group: string, kind: string, version: string) {
    c.group == group && c.kind == kind && HasVersion(c.versions, version)
  }

  /** Droppable without migrating anything: neither current, nor the vacuum, nor ever stored. */
  predicate IsPrunable(c: Crd, current: string, name: string) {
    name != current && name != VACUUM && name !in c.stored
  }

  function PrunableNames(c: Crd, versions: seq<Version>, current: string): seq<string> {
    if versions == [] then []
    else (if IsPrunable(c, current, versions[0].name) then [versions[0].name] else []) + PrunableNames(c, versions[1..], current)
  }

  // ---- changing ---------------------------------------------------------------------------------------

  function Owned(c: Crd, owner: string): Crd {
    if owner == "" then c else c.(annotations := c.annotations[OWNER_ANNOTATION := owner])
  }

  function WithSchema(versions: seq<Version>, name: string, schema: string): seq<Version> {
    if versions == [] then []
    else if versions[0].name == name then [versions[0].(schema := schema)] + versions[1..]
    else [versions[0]] + WithSchema(versions[1..], name, schema)
  }

  lemma {:induction false} WithSchemaAt(versions: seq<Version>, name: string, schema: string, i: nat)
    requires i < |versions| && versions[i].name == name && forall k | 0 <= k < i :: versions[k].name != name
    ensures WithSchema(versions, name, schema) == versions[i := versions[i].(schema := schema)]
  {
    if i > 0 {
      WithSchemaAt(versions[1..], name, schema, i - 1);
    }
  }

  lemma {:induction false} WithoutSchema(versions: seq<Version>, name: string, schema: string)
    requires forall k | 0 <= k < |versions| :: versions[k].name != name
    ensures WithSchema(versions, name, schema) == versions
  {
    if versions != [] {
      WithoutSchema(versions[1..], name, schema);
    }
  }

  function Flagged(versions: seq<Version>, name: string, served: bool, storage: bool): (r: seq<Version>)
    ensures |r| == |versions|
  {
    seq(|versions|, i requires 0 <= i < |versions| =>
      if versions[i].name == name then versions[i].(served := served, storage := storage) else versions[i])
  }

  function VacuumVersion(): Version {
    Version(VACUUM, false, true, "This is a vacuum version to storage different versions", [])
  }

  /** Every version but the vacuum serves, and none but the vacuum stores. */
  function Serving(versions: seq<Version>): (r: seq<Version>)
    ensures |r| == |versions|
  {
    seq(|versions|, i requires 0 <= i < |versions| =>
      if versions[i].name != VACUUM then versions[i].(served := true, storage := false) else versions[i])
  }

  function Appended(versions: seq<Version>, v: Version): seq<Version> {
    if HasVersion(versions, v.name) then versions
    else Serving(versions + [v] + if HasVersion(versions, VACUUM) then [] else [VacuumVersion()])
  }

  function AllAppended(versions: seq<Version>, more: seq<Version>): seq<Version>
    decreases more
  {
    if more == [] then versions else AllAppended(Appended(versions, more[0]), more[1..])
  }

  function Columned(versions: seq<Version>): (r: seq<Version>)
    ensures |r| == |versions|
  {
    seq(|versions|, i requires 0 <= i < |versions| =>
      if versions[i].name == VACUUM || VERSION_COLUMN in versions[i].columns then versions[i]
      else versions[i].(columns := versions[i].columns + [VERSION_COLUMN]))
  }

  function Removed(versions: seq<Version>, names: set<string>): seq<Version> {
    if versions == [] then []
    else (if versions[0].name != VACUUM && versions[0].name in names then [] else [versions[0]]) + Removed(versions[1..], names)
  }

  /** What is created when there is no CRD yet. */
  function Stamped(generated: Crd, owner: string): Crd {
    Owned(generated.(versions := Columned(generated.versions)), owner)
  }

  /** The generated CRD merged into the live one: its version replaced in place, or appended. */
  function Merged(live: Crd, generated: Crd, owner: string): Crd
    requires generated.versions != []
  {
    var v := generated.versions[0];
    var versions :=
      if GvkExists(live, generated.group, generated.kind, v.name) then WithSchema(live.versions, v.name, v.schema)
      else Flagged(AllAppended(live.versions, generated.versions), v.name, true, false);
    Owned(live, owner).(versions := Columned(versions), noneConversion := true)
  }

  // ---- the same, in place -----------------------------------------------------------------------------

  class CustomResourceDefinition {
    var annotations: map<string, string>
    var group: string
    var kind: string
    var versions: seq<Version>
    var stored: seq<string>
    var noneConversion: bool

    constructor (c: Crd)
      ensures View() == c
    {
      annotations, group, kind := c.annotations, c.group, c.kind;
      versions, stored, noneConversion := c.versions, c.stored, c.noneConversion;
    }

    function View(): Crd
      reads this
    {
      Crd(annotations, group, kind, versions, stored, noneConversion)
    }

    method SetOwner(owner: string)
      modifies this
      ensures View() == Owned(old(View()), owner)
    {
      if owner == "" {
        return;
      }
      annotations := annotations[OWNER_ANNOTATION := owner];
    }

    method ReplaceVersionSchema(version: string, schema: string)
      modifies this
      ensures View() == old(View()).(versions := WithSchema(old(versions), version, schema))
    {
      for i := 0 to |versions|
        invariant View() == old(View())
        invariant forall k | 0 <= k < i :: versions[k].name != version
      {
        if versions[i].name == version {
          WithSchemaAt(versions, version, schema, i);
          versions := versions[i := versions[i].(schema := schema)];
          return;
        }
      }
      WithoutSchema(versions, version, schema);
    }

    method SetServedStorage(version: string, served: bool, storage: bool)
      modifies this
      ensures View() == old(View()).(versions := Flagged(old(versions), version, served, storage))
    {
      for i := 0 to |versions|
        invariant View() == old(View()).(versions := versions) && |versions| == |old(versions)|
        invariant forall k | 0 <= k < |versions| ::
          versions[k] == if k < i then Flagged(old(versions), version, served, storage)[k] else old(versions[k])
      {
        if versions[i].name == version {
          versions := versions[i := versions[i].(served := served, storage := storage)];
        }
      }
      assert versions == Flagged(old(versions), version, served, storage);
    }

    method AppendVersion(v: Version)
      modifies this
      ensures View() == old(View()).(versions := Appended(old(versions), v))
    {
      var exist := Exists(v.name);
      var vacuum := Exists(VACUUM);
      if !exist {
        versions := versions + [v];
        if !vacuum {
          versions := versions + [VacuumVersion()];
        }
        Serve();
        assert old(versions) + [v] + [] == old(versions) + [v];
      }
    }

    method Exists(name: string) returns (found: bool)
      ensures found == HasVersion(versions, name)
    {
      found := false;
      for i := 0 to |versions|
        invariant !HasVersion(versions[..i], name)
      {
        if versions[i].name == name {
          return true;
        }
        assert versions[..i + 1] == versions[..i] + [versions[i]];
      }
      assert versions[..|versions|] == versions;
    }

    method Serve()
      modifies this
      ensures View() == old(View()).(versions := Serving(old(versions)))
    {
      for i := 0 to |versions|
        invariant View() == old(View()).(versions := versions) && |versions| == |old(versions)|
        invariant forall k | 0 <= k < |versions| :: versions[k] == if k < i then Serving(old(versions))[k] else old(versions[k])
      {
        if versions[i].name != VACUUM {
          versions := versions[i := versions[i].(served := true, storage := false)];
        }
      }
      assert versions == Serving(old(versions));
    }

    method AddVersionColumn()
      modifies this
      ensures View() == old(View()).(versions := Columned(old(versions)))
    {
      for i := 0 to |versions|
        invariant View() == old(View()).(versions := versions) && |versions| == |old(versions)|
        invariant forall k | 0 <= k < |versions| :: versions[k] == if k < i then Columned(old(versions))[k] else old(versions[k])
      {
        if versions[i].name != VACUUM && VERSION_COLUMN !in versions[i].columns {
          versions := versions[i := versions[i].(columns := versions[i].columns + [VERSION_COLUMN])];
        }
      }
      assert versions == Columned(old(versions));
    }

    method RemoveStaleVersions(prune: set<string>) returns (removed: bool)
      modifies this
      ensures View() == old(View()).(versions := Removed(old(versions), prune))
      ensures !removed ==> View() == old(View())
      ensures removed <==> exists i | 0 <= i < |old(versions)| :: old(versions[i]).name != VACUUM && old(versions[i]).name in prune
    {
      var kept := [];
      removed := false;
      for i := 0 to |versions|
        invariant Removed(versions, prune) == kept + Removed(versions[i..], prune)
        invariant removed <==> exists k | 0 <= k < i :: versions[k].name != VACUUM && versions[k].name in prune
        invariant !removed ==> kept == versions[..i]
      {
        assert versions[i..][0] == versions[i] && versions[i..][1..] == versions[i + 1..];
        if versions[i].name != VACUUM && versions[i].name in prune {
          removed := true;
        } else {
          kept := kept + [versions[i]];
        }
      }
      assert versions[..|versions|] == versions;
      versions := kept;
    }

    method PrunableVersions(current: string) returns (names: seq<string>)
      ensures names == PrunableNames(View(), versions, current)
    {
      var storedSet: set<string> := {};
      for i := 0 to |stored|
        invariant forall name :: name in storedSet <==> name in stored[..i]
      {
        storedSet := storedSet + {stored[i]};
      }
      assert stored[..|stored|] == stored;
      names := [];
      for i := 0 to |versions|
        invariant PrunableNames(View(), versions, current) == names + PrunableNames(View(), versions[i..], current)
      {
        assert versions[i..][0] == versions[i] && versions[i..][1..] == versions[i + 1..];
        if versions[i].name == current || versions[i].name == VACUUM || versions[i].name in storedSet {
          continue;
        }
        names := names + [versions[i].name];
      }
    }

    /** The merge that an apply makes on what it has just read. */
    method Merge(generated: Crd, owner: string)
      requires generated.versions != []
      modifies this
      ensures View() == Merged(old(View()), generated, owner)
    {
      var v := generated.versions[0];
      SetOwner(owner);
      var present := Exists(v.name);
      if group == generated.group && kind == generated.kind && present {
        ReplaceVersionSchema(v.name, v.schema);
      } else {
        for i := 0 to |generated.versions|
          invariant View() == Owned(old(View()), owner).(versions := versions)
          invariant AllAppended(old(versions), generated.versions) == AllAppended(versions, generated.versions[i..])
        {
          assert generated.versions[i..][0] == generated.versions[i] && generated.versions[i..][1..] == generated.versions[i + 1..];
          AppendVersion(generated.versions[i]);
        }
        SetServedStorage(v.name, true, false);
      }
      noneConversion := true;
      AddVersionColumn();
    }
  }
}
