/** One successful update leaves the next observe of a RestDefinition nothing to report as drift. */
module FixedPoint {
  import opened Json
  import opened CrdVersions
  import opened CrdTopology
  import opened CrdProtocol
  import opened CrdStorage
  import Prune = ServedVersionPrune
  import Rbac = AuthSecretRbac
  import opened GeneratorBuild
  import opened Requests

  const DEFAULT_VERSION := "v1alpha1"

  // ---- the recorded version ---------------------------------------------------------------------------

  function ApiVersion(group: string, version: string): string {
    if group == "" then version else group + "/" + version
  }

  /** The part after the one slash, the whole when there is none; with two slashes there is no version. */
  function VersionOf(apiVersion: string): Option<string> {
    if '/' !in apiVersion then Some(apiVersion)
    else
      var i := FirstSlash(apiVersion);
      if '/' in apiVersion[i + 1..] then None else Some(apiVersion[i + 1..])
  }

  function FirstSlash(s: string): (i: nat)
    requires '/' in s
    ensures i < |s| && s[i] == '/' && '/' !in s[..i]
  {
    if s[0] == '/' then 0 else
      var i := FirstSlash(s[1..]);
      assert s[..i + 1] == [s[0]] + s[1..][..i];
      i + 1
  }

  /** The version on the cluster, as the status records it, or the default before anything is recorded. */
  function ObservedVersion(apiVersion: string): string {
    if apiVersion == "" then DEFAULT_VERSION
    else
      match VersionOf(apiVersion)
      case Some(v) => if v == "" then DEFAULT_VERSION else v
      case None => DEFAULT_VERSION
  }

  lemma {:induction false} FirstSlashAt(s: string, k: nat)
    requires k < |s| && s[k] == '/' && '/' !in s[..k]
    ensures FirstSlash(s) == k
  {
    if k > 0 {
      assert s[..k] == [s[0]] + s[1..][..k - 1];
      FirstSlashAt(s[1..], k - 1);
    }
  }

  lemma ObservedVersionReadsBack(group: string, version: string)
    requires '/' !in group && '/' !in version && version != ""
    ensures ObservedVersion(ApiVersion(group, version)) == version
  {
    if group != "" {
      var s := ApiVersion(group, version);
      assert s[..|group|] == group && s[|group|] == '/' && s[|group| + 1..] == version;
      FirstSlashAt(s, |group|);
    }
  }

  lemma ObservedDefault(a: string, b: string, rest: string)
    requires '/' !in a
    ensures ObservedVersion("") == ObservedVersion(a + "/") == ObservedVersion(a + "/" + b + "/" + rest) == DEFAULT_VERSION
  {
    var one, two := a + "/", a + "/" + b + "/" + rest;
    assert one[|a|] == '/' && one[..|a|] == a && one[|a| + 1..] == "";
    FirstSlashAt(one, |a|);
    assert two[|a|] == '/' && two[..|a|] == a && two[|a| + 1..] == b + "/" + rest;
    FirstSlashAt(two, |a|);
    assert (b + "/" + rest)[|b|] == '/';
  }

  // ---- inputs, status and cluster ---------------------------------------------------------------------

  /** A digest identifies what was hashed. */
  datatype Digest = NoDigest | OfDocuments(documents: map<string, string>) | OfResource(text: string) | OfRefs(refs: Rbac.Refs)

  /** What a reconcile reads: documents, spec.resource, references and uses, none of which it writes. */
  datatype Inputs = Inputs(
    group: string,
    kind: string,
    target: string,                    // the version the documents call for
    documents: map<string, string>,
    resource: string,
    generated: Crd,                    // what the generator makes of them
    owner: string,
    account: string,
    configured: bool,                  // configuration fields are declared
    schemes: bool,                     // security schemes are declared
    refs: Rbac.Refs,
    inUse: set<string>)                // versions that another definition or an instance uses

  datatype Status = Status(
    apiVersion: string,
    oasHash: Digest,
    resourceHash: Digest,
    generatorBuild: string,
    authDigest: Digest,
    namespaces: seq<string>,
    schemes: Option<bool>)

  predicate InputsFit(i: Inputs) {
    && '/' !in i.group && '/' !in i.target && i.target != ""
    && |i.generated.versions| == 1 && i.generated.versions[0].name == i.target
  }

  // ---- observing --------------------------------------------------------------------------------------

  /** What an observe reports: the CRD or its version absent, drift of one kind, or neither. */
  datatype Report = NoDrift | Absent | DocumentsChanged | ResourceChanged | GeneratorUpgraded | ReferencesChanged | RbacMissing | VersionsPrunable

  /**
   Which evaluations fail: `model` is reading the documents for what the status does not say yet, `fallback` looking
   the CRD up a second time. A failed evaluation is not drift.
   */
  datatype Failing = Failing(model: bool, fallback: bool, documents: bool, references: bool, rbac: bool, prune: bool)

  /** Whether there is a Configuration: by the status, else by the documents, else there may be one. */
  predicate Configured(i: Inputs, s: Status, f: Failing) {
    i.configured || (if s.schemes.Some? then s.schemes.value else f.model || i.schemes)
  }

  /**
   The version at which an observe finds the CRD: the recorded one; or, with no version and no security schemes
   recorded and the documents read, the one they call for.
   */
  function Found(i: Inputs, s: Status, crd: Option<Crd>, f: Failing): Option<string> {
    if crd.None? then None
    else if HasVersion(crd.value.versions, ObservedVersion(s.apiVersion)) then Some(ObservedVersion(s.apiVersion))
    else if s.apiVersion == "" && s.schemes.None? && !f.model && !f.fallback && HasVersion(crd.value.versions, i.target) then Some(i.target)
    else None
  }

  /** The drift checks of an observe, in their order; a CRD without the version is answered before them, as absent. */
  function Observe(i: Inputs, s: Status, crd: Option<Crd>, rbac: Rbac.Rbac, c: GeneratorConfig, parse: Parser, f: Failing): Report {
    var found := Found(i, s, crd, f);
    if found.None? then Absent
    else if !f.documents && s.oasHash != OfDocuments(i.documents) then DocumentsChanged
    else if s.resourceHash != OfResource(i.resource) then ResourceChanged
    else if GeneratorChanged(c, s.generatorBuild, parse) then GeneratorUpgraded
    else if Configured(i, s, f) && !f.references && s.authDigest != OfRefs(i.refs) then ReferencesChanged
    else if Configured(i, s, f) && !f.rbac && !(forall ns | ns in s.namespaces :: Rbac.Provisioned(rbac, ns)) then RbacMissing
    else if !f.prune && Retired(crd.value, found.value, i.inUse) != {} then VersionsPrunable
    else NoDrift
  }

  // ---- when there is no drift ---------------------------------------------------------------------------

  /** The CRD is there at v: the recorded version, or the one the documents call for when none is recorded. */
  ghost predicate FoundAt(i: Inputs, s: Status, crd: Option<Crd>, f: Failing, v: string) {
    && crd.Some? && HasVersion(crd.value.versions, v)
    && (v == ObservedVersion(s.apiVersion)
        || (s.apiVersion == "" && s.schemes.None? && !f.model && !f.fallback
            && !HasVersion(crd.value.versions, DEFAULT_VERSION) && v == i.target))
  }

  lemma FoundExactly(i: Inputs, s: Status, crd: Option<Crd>, f: Failing)
    ensures forall v :: Found(i, s, crd, f) == Some(v) <==> FoundAt(i, s, crd, f, v)
  {
  }

  /** There is a Configuration: fields are declared, or the schemes are there, recorded or read, or cannot be read. */
  ghost predicate HasConfiguration(i: Inputs, s: Status, f: Failing) {
    i.configured || s.schemes == Some(true) || (s.schemes.None? && (i.schemes || f.model))
  }

  /** The generator is of a later release than the one recorded, or none is, and it is to regenerate. */
  ghost predicate MustRegenerate(c: GeneratorConfig, stored: string, parse: Parser) {
    && c.regenerateOnUpgrade && c.build != ""
    && (stored == "" || (parse(c.build).Some? && parse(stored).Some? && Later(parse(c.build).value, parse(stored).value)))
  }

  /**
   An observe reports no drift if and only if the CRD is found, and what is recorded of the documents, the resource,
   the generator, the references, the roles and the versions in use, as far as it can be read, is what is there.
   */
  lemma NoDriftExactly(i: Inputs, s: Status, crd: Option<Crd>, rbac: Rbac.Rbac, c: GeneratorConfig, parse: Parser, f: Failing)
    ensures Observe(i, s, crd, rbac, c, parse, f) == NoDrift <==>
      && (exists v :: FoundAt(i, s, crd, f, v)
            && (f.prune || forall k | 0 <= k < |crd.value.versions| :: crd.value.versions[k].name in {v, VACUUM} + i.inUse))
      && (f.documents || s.oasHash == OfDocuments(i.documents))
      && s.resourceHash == OfResource(i.resource)
      && !MustRegenerate(c, s.generatorBuild, parse)
      && (HasConfiguration(i, s, f) ==>
            && (f.references || s.authDigest == OfRefs(i.refs))
            && (f.rbac || forall ns | ns in s.namespaces :: ns in rbac.roles && ns in rbac.bindings))
    ensures Observe(i, s, crd, rbac, c, parse, f) == Absent <==> !exists v :: FoundAt(i, s, crd, f, v)
  {
    FoundExactly(i, s, crd, f);
    FiresExactly(c, s.generatorBuild, parse);
    var found := Found(i, s, crd, f);
    if found.Some? {
      assert FoundAt(i, s, crd, f, found.value);
      RetiredExactly(crd.value, found.value, i.inUse);
    }
  }

  lemma RetiredExactly(c: Crd, current: string, kept: set<string>)
    ensures Retired(c, current, kept) == {} <==> forall k | 0 <= k < |c.versions| :: c.versions[k].name in {current, VACUUM} + kept
  {
    if Retired(c, current, kept) == {} {
      forall k | 0 <= k < |c.versions| ensures c.versions[k].name in {current, VACUUM} + kept {
        assert c.versions[k].name in NamesOf(c.versions) && c.versions[k].name !in Retired(c, current, kept);
      }
    }
  }

  /** A settled state is not regenerated; each change to what a CRD is generated from is reported, and regenerates it. */
  lemma InputChangesReported(i: Inputs, s: Status, crd: Option<Crd>, rbac: Rbac.Rbac, c: GeneratorConfig, parse: Parser, f: Failing,
                             documents: map<string, string>, text: string, c': GeneratorConfig)
    requires !f.documents && Observe(i, s, crd, rbac, c, parse, f) == NoDrift
    ensures !Regenerates(i, s, c, parse)
    ensures documents != i.documents ==>
      var i' := i.(documents := documents); Observe(i', s, crd, rbac, c, parse, f) == DocumentsChanged && Regenerates(i', s, c, parse)
    ensures text != i.resource ==>
      var i' := i.(resource := text); Observe(i', s, crd, rbac, c, parse, f) == ResourceChanged && Regenerates(i', s, c, parse)
    ensures MustRegenerate(c', s.generatorBuild, parse) ==>
      Observe(i, s, crd, rbac, c', parse, f) == GeneratorUpgraded && Regenerates(i, s, c', parse)
  {
    FiresExactly(c', s.generatorBuild, parse);
  }

  /** So is each change to the references, the roles and the versions in use. */
  lemma UseChangesReported(i: Inputs, s: Status, crd: Option<Crd>, rbac: Rbac.Rbac, c: GeneratorConfig, parse: Parser, f: Failing,
                           refs: Rbac.Refs, rbac': Rbac.Rbac, inUse: set<string>)
    requires !f.references && !f.rbac && !f.prune && Observe(i, s, crd, rbac, c, parse, f) == NoDrift
    ensures HasConfiguration(i, s, f) && refs != i.refs ==>
      Observe(i.(refs := refs), s, crd, rbac, c, parse, f) == ReferencesChanged
    ensures HasConfiguration(i, s, f) && (exists ns :: ns in s.namespaces && !(ns in rbac'.roles && ns in rbac'.bindings)) ==>
      Observe(i, s, crd, rbac', c, parse, f) == RbacMissing
    ensures (forall v | FoundAt(i, s, crd, f, v) ::
               exists k :: 0 <= k < |crd.value.versions| && crd.value.versions[k].name !in {v, VACUUM} + inUse) ==>
      Observe(i.(inUse := inUse), s, crd, rbac, c, parse, f) == VersionsPrunable
  {
    FoundExactly(i, s, crd, f);
    var found := Found(i, s, crd, f).value;
    assert FoundAt(i, s, crd, f, found);
    RetiredExactly(crd.value, found, inUse);
  }

  // ---- updating ---------------------------------------------------------------------------------------

  predicate Regenerates(i: Inputs, s: Status, c: GeneratorConfig, parse: Parser) {
    s.oasHash != OfDocuments(i.documents) || s.resourceHash != OfResource(i.resource) || GeneratorChanged(c, s.generatorBuild, parse)
  }

  /** The CRD after a successful update: generated when called for, created if absent, then pruned twice. */
  function UpdatedCrd(i: Inputs, s: Status, crd: Option<Crd>, c: GeneratorConfig, parse: Parser): Option<Crd>
    requires InputsFit(i)
  {
    PrunedServed(RefreshedCrd(i, crd, Regenerates(i, s, c, parse)), i.target)
  }

  function Generated(i: Inputs, crd: Option<Crd>): Crd
    requires InputsFit(i)
  {
    match crd
    case None => Persisted(CrdVersions.Stamped(i.generated, i.owner), [])
    case Some(live) => Persisted(Merged(live, i.generated, i.owner), live.stored)
  }

  function RefreshedCrd(i: Inputs, crd: Option<Crd>, regenerates: bool): Option<Crd>
    requires InputsFit(i)
  {
    var applied := if regenerates then Some(Generated(i, crd)) else crd;
    if applied.None? || Retired(applied.value, i.target, i.inUse) == {} then applied
    else Some(Prune.AfterRemoval(applied.value, Retired(applied.value, i.target, i.inUse)))
  }

  function PrunedServed(crd: Option<Crd>, current: string): Option<Crd> {
    if crd.None? || PrunableSet(crd.value, current) == {} then crd
    else Some(Persisted(Dropped(crd.value, PrunableSet(crd.value, current)), crd.value.stored))
  }

  function Rendered(i: Inputs, s: Status, c: GeneratorConfig, parse: Parser): Status {
    if Regenerates(i, s, c, parse) then s.(resourceHash := OfResource(i.resource), generatorBuild := c.build) else s
  }

  function Provisioned(i: Inputs, s: Status, namespaces: seq<string>): Status {
    s.(authDigest := OfRefs(i.refs), namespaces := namespaces)
  }

  function Concluded(i: Inputs, s: Status): Status {
    s.(apiVersion := ApiVersion(i.group, i.target), oasHash := OfDocuments(i.documents), schemes := Some(i.schemes))
  }

  function UpdatedStatus(i: Inputs, s: Status, namespaces: seq<string>, c: GeneratorConfig, parse: Parser): Status {
    Concluded(i, Provisioned(i, Rendered(i, s, c, parse), namespaces))
  }

  /** What an update that ends early has set on the object in memory: nothing, or what the steps it got through set. */
  predicate SetInMemory(i: Inputs, s: Status, c: GeneratorConfig, parse: Parser, cr: Status) {
    var rendered := Rendered(i, s, c, parse);
    cr == s || cr == rendered || cr == Provisioned(i, rendered, cr.namespaces) || cr == UpdatedStatus(i, s, cr.namespaces, c, parse)
  }

  /** Synced, but for what was swept under the earlier name. */
  ghost predicate RolesSynced(i: Inputs, previous: seq<string>, rbac: Rbac.Rbac, rbac': Rbac.Rbac) {
    Rbac.Synced(rbac, rbac'.(legacy := rbac.legacy), i.refs, previous, i.account)
  }

  /** A fully successful update took the first status and cluster to the second. */
  ghost predicate Updates(i: Inputs, s: Status, crd: Option<Crd>, rbac: Rbac.Rbac, c: GeneratorConfig, parse: Parser,
                          s': Status, crd': Option<Crd>, rbac': Rbac.Rbac)
    requires InputsFit(i)
  {
    && crd' == UpdatedCrd(i, s, crd, c, parse)
    && RolesSynced(i, s.namespaces, rbac, rbac')
    && (forall ns :: ns in s'.namespaces <==> ns in i.refs)
    && s' == UpdatedStatus(i, s, s'.namespaces, c, parse)
  }

  lemma RetiredAfterDrop(crd: Crd, names: set<string>, stored: seq<string>, current: string, kept: set<string>)
    requires Retired(crd, current, kept) == {}
    ensures Retired(Persisted(Dropped(crd, names), stored), current, kept) == {}
  {
    var after := Removed(crd.versions, names);
    forall n | n in NamesOf(after) ensures n in NamesOf(crd.versions) {
      var k :| 0 <= k < |after| && after[k].name == n;
      RemovedMembers(crd.versions, names, after[k]);
      var j :| 0 <= j < |crd.versions| && crd.versions[j] == after[k];
    }
  }

  /** Both prunes leave nothing for the evaluation to find. */
  lemma NothingToRetire(i: Inputs, s: Status, crd: Option<Crd>, c: GeneratorConfig, parse: Parser)
    requires InputsFit(i)
    ensures var crd' := UpdatedCrd(i, s, crd, c, parse); crd'.Some? ==> Retired(crd'.value, i.target, i.inUse) == {}
  {
    var regenerates := Regenerates(i, s, c, parse);
    var applied := if regenerates then Some(Generated(i, crd)) else crd;
    if applied.Some? {
      Prune.NothingLeft(applied.value, i.target, i.inUse);
      var retired := RefreshedCrd(i, crd, regenerates).value;
      RetiredAfterDrop(retired, PrunableSet(retired, i.target), retired.stored, i.target, i.inUse);
    }
  }

  /**
   What an update leaves of the versions: besides the target and the vacuum only versions that are in use and
   stored, and of those all that were in use and stored before.
   */
  lemma VersionsAfterUpdate(i: Inputs, s: Status, crd: Option<Crd>, c: GeneratorConfig, parse: Parser, name: string)
    requires InputsFit(i) && name != i.target && name != VACUUM
    ensures var crd' := UpdatedCrd(i, s, crd, c, parse);
      && (crd'.Some? && HasVersion(crd'.value.versions, name) ==> name in i.inUse && name in crd'.value.stored)
      && (crd.Some? && HasVersion(crd.value.versions, name) && name in i.inUse && name in crd.value.stored ==>
            crd'.Some? && HasVersion(crd'.value.versions, name))
  {
    var applied := if Regenerates(i, s, c, parse) then Some(Generated(i, crd)) else crd;
    if applied.Some? {
      if crd.Some? && HasVersion(crd.value.versions, name) && name in crd.value.stored {
        GeneratedKeeps(i, crd.value, name);
      }
      NothingToRetire(i, s, crd, c, parse);
      PrunesKeepOnly(i, applied.value, name);
    }
  }

  lemma GeneratedKeeps(i: Inputs, live: Crd, name: string)
    requires InputsFit(i) && HasVersion(live.versions, name) && name in live.stored
    ensures var g := Generated(i, Some(live)); HasVersion(g.versions, name) && name in g.stored
  {
    var merged := Merged(live, i.generated, i.owner);
    MergedKeepsVersions(live, i.generated, i.owner, name);
    SchemaOfPresent(live.versions, name);
    SchemaOfPresent(merged.versions, name);
    RecordedNames(live.stored, merged.versions);
  }

  lemma PrunesKeepOnly(i: Inputs, applied: Crd, name: string)
    requires InputsFit(i) && name != i.target && name != VACUUM
    ensures var crd' := PrunedServed(RefreshedCrd(i, Some(applied), false), i.target);
      && crd'.Some?
      && (HasVersion(crd'.value.versions, name) ==> name in i.inUse && name in crd'.value.stored)
      && (HasVersion(applied.versions, name) && name in i.inUse && name in applied.stored ==> HasVersion(crd'.value.versions, name))
  {
    var names := Retired(applied, i.target, i.inUse);
    var retired := RefreshedCrd(i, Some(applied), false).value;
    RetiredHas(i, applied, name);
    var gone := PrunableSet(retired, i.target);
    PrunableExactly(retired, retired.versions, i.target, name);
    RemovedSchemas(retired.versions, gone, name);
    SchemaOfPresent(retired.versions, name);
    SchemaOfPresent(Removed(retired.versions, gone), name);
    RecordedNames(retired.stored, Removed(retired.versions, gone));
  }

  lemma RetiredHas(i: Inputs, applied: Crd, name: string)
    requires InputsFit(i) && name != i.target && name != VACUUM
    ensures var retired := RefreshedCrd(i, Some(applied), false).value;
      && (HasVersion(retired.versions, name) <==> HasVersion(applied.versions, name) && name in i.inUse)
      && (name in applied.stored && name in i.inUse ==> name in retired.stored)
  {
    var names := Retired(applied, i.target, i.inUse);
    RetiredExactly(applied, i.target, i.inUse);
    assert name in NamesOf(applied.versions) <==> HasVersion(applied.versions, name);
    RemovedSchemas(applied.versions, names, name);
    SchemaOfPresent(applied.versions, name);
    SchemaOfPresent(Removed(applied.versions, names), name);
    TrimmedNames(applied.stored, names);
    RecordedNames(Trimmed(applied.stored, names), Removed(applied.versions, names));
  }

  lemma RemovedHas(versions: seq<Version>, names: set<string>, name: string)
    requires name !in names
    ensures HasVersion(Removed(versions, names), name) <==> HasVersion(versions, name)
  {
    RemovedSchemas(versions, names, name);
    SchemaOfPresent(versions, name);
    SchemaOfPresent(Removed(versions, names), name);
  }

  /** Generating puts the target version there. */
  lemma GeneratedHas(i: Inputs, crd: Option<Crd>)
    requires InputsFit(i)
    ensures HasVersion(Generated(i, crd).versions, i.target)
  {
    match crd
    case None => assert Generated(i, crd).versions[0].name == i.target;
    case Some(live) =>
      MergedKeepsVersions(live, i.generated, i.owner, i.target);
      SchemaOfPresent(Generated(i, crd).versions, i.target);
  }

  /** After an update the target version is there exactly if it was generated or was there before: neither prune takes it. */
  lemma TargetThere(i: Inputs, s: Status, crd: Option<Crd>, c: GeneratorConfig, parse: Parser)
    requires InputsFit(i)
    ensures var crd' := UpdatedCrd(i, s, crd, c, parse);
      crd'.Some? && HasVersion(crd'.value.versions, i.target) <==>
        Regenerates(i, s, c, parse) || (crd.Some? && HasVersion(crd.value.versions, i.target))
  {
    var applied := if Regenerates(i, s, c, parse) then Some(Generated(i, crd)) else crd;
    if applied.Some? {
      GeneratedHas(i, crd);
      PrunesKeepTarget(i, applied.value);
    }
  }

  lemma PrunesKeepTarget(i: Inputs, applied: Crd)
    requires InputsFit(i)
    ensures var crd' := PrunedServed(RefreshedCrd(i, Some(applied), false), i.target);
      crd'.Some? && (HasVersion(crd'.value.versions, i.target) <==> HasVersion(applied.versions, i.target))
  {
    RemovedHas(applied.versions, Retired(applied, i.target, i.inUse), i.target);
    var retired := RefreshedCrd(i, Some(applied), false).value;
    PrunableExactly(retired, retired.versions, i.target, i.target);
    RemovedHas(retired.versions, PrunableSet(retired, i.target), i.target);
  }

  /**
   The fixed point: from any status and cluster, the CRD there or not, after one fully successful update with
   unchanged inputs the next observe takes none of its drift branches, whichever of its evaluations fail. It
   reports the CRD absent exactly if the update did not generate it and the target version was not there.
   */
  lemma ObserveAfterUpdate(i: Inputs, s: Status, crd: Option<Crd>, rbac: Rbac.Rbac, c: GeneratorConfig, parse: Parser,
                           s': Status, crd': Option<Crd>, rbac': Rbac.Rbac, f: Failing)
    requires InputsFit(i) && Updates(i, s, crd, rbac, c, parse, s', crd', rbac')
    ensures Observe(i, s', crd', rbac', c, parse, f) ==
      if Regenerates(i, s, c, parse) || (crd.Some? && HasVersion(crd.value.versions, i.target)) then NoDrift else Absent
  {
    ObservedVersionReadsBack(i.group, i.target);
    NothingToRetire(i, s, crd, c, parse);
    TargetThere(i, s, crd, c, parse);
    if s'.generatorBuild != "" {
      NeverOnRollback(c, s'.generatorBuild, parse);
    }
    forall ns | ns in s'.namespaces ensures Rbac.Provisioned(rbac', ns) {
      assert ns in i.refs && Rbac.Grants(rbac'.(legacy := rbac.legacy), ns, i.refs[ns], i.account);
    }
  }

  /** A target version removed by hand, with everything recorded current: the update does not bring it back. */
  lemma RemovedByHand(i: Inputs, s: Status, crd: Crd, rbac: Rbac.Rbac, c: GeneratorConfig, parse: Parser,
                      s': Status, crd': Option<Crd>, rbac': Rbac.Rbac, f: Failing)
    requires InputsFit(i) && Updates(i, s, Some(crd), rbac, c, parse, s', crd', rbac')
    requires s.oasHash == OfDocuments(i.documents) && s.resourceHash == OfResource(i.resource) && s.generatorBuild == c.build
    requires crd.versions == [VacuumVersion()] && i.target != VACUUM
    ensures crd'.Some? && Observe(i, s', crd', rbac', c, parse, f) == Absent
  {
    if s.generatorBuild != "" {
      NeverOnRollback(c, s.generatorBuild, parse);
    }
    ObserveAfterUpdate(i, s, Some(crd), rbac, c, parse, s', crd', rbac', f);
  }

  /** A status that keeps an older version, still there, makes the observe count the target version itself as prunable. */
  lemma StaleVersionDrifts(i: Inputs, s: Status, crd: Crd, rbac: Rbac.Rbac, c: GeneratorConfig, parse: Parser, f: Failing)
    requires !f.prune && HasVersion(crd.versions, i.target) && i.target !in i.inUse && i.target != VACUUM
    requires HasVersion(crd.versions, ObservedVersion(s.apiVersion)) && ObservedVersion(s.apiVersion) != i.target
    ensures Observe(i, s, Some(crd), rbac, c, parse, f) !in {NoDrift, Absent}
  {
    assert i.target in Retired(crd, ObservedVersion(s.apiVersion), i.inUse);
  }

  /** With nothing recorded yet, the documents name the version that is looked up when the default one is not there. */
  lemma FoundBeforeRecorded(i: Inputs, s: Status, crd: Crd, f: Failing)
    requires s.apiVersion == "" && s.schemes.None? && HasVersion(crd.versions, i.target)
    ensures Found(i, s, Some(crd), f).Some? <==> HasVersion(crd.versions, DEFAULT_VERSION) || !(f.model || f.fallback)
  {
  }

  // ---- the same, in place -----------------------------------------------------------------------------

  /** How the steps of an update end; the prunes and the sweep do not end it. */
  datatype Luck = Luck(
    documents: bool, generation: Request, roles: Rbac.Trouble, deploy: bool, persist: Request,
    trim: Request, remove: Request, pruneServed: Request, legacyBroken: set<string>)

  /** The requests that can fail an update go through. */
  ghost predicate StepsPass(i: Inputs, s: Status, c: GeneratorConfig, parse: Parser, luck: Luck) {
    && !(Regenerates(i, s, c, parse) && luck.generation.fails)
    && (forall ns | ns in i.refs || ns in s.namespaces :: !Rbac.Fails(luck.roles, ns))
    && !luck.deploy && !luck.persist.fails
  }

  /** Neither prune fails: every version's use is answered, and the writes go through. */
  predicate PrunesPass(answers: Prune.Answers, luck: Luck) {
    (forall n | n in answers :: !answers[n].Failed?) && !luck.trim.fails && !luck.remove.fails && !luck.pruneServed.fails
  }

  lemma SameRetired(c: Crd, current: string, answers: Prune.Answers, inUse: set<string>)
    requires forall n :: n in inUse <==> Prune.InUse(answers, n)
    ensures Retired(c, current, Prune.KeptNames(c, answers)) == Retired(c, current, inUse)
  {
  }

  class Reconciler {
    var status: Status   // as persisted
    var cr: Status       // on the object in memory
    const crds: Prune.Cluster
    const roles: Rbac.Cluster

    constructor (status: Status, crds: Prune.Cluster, roles: Rbac.Cluster)
      ensures this.status == cr == status && this.crds == crds && this.roles == roles
    {
      this.status, this.cr, this.crds, this.roles := status, status, crds, roles;
    }

    /**
     An update. `complete` says that nothing failed on the way, the steps that may fail included. One that ends
     early has set on the object in memory what the steps before set, and has persisted no status, unless the
     status write itself took effect and failed. Where updating is not allowed it does nothing, successfully.
     */
    method Update(i: Inputs, c: GeneratorConfig, parse: Parser, answers: Prune.Answers, allowed: bool, luck: Luck)
      returns (ok: bool, complete: bool)
      requires InputsFit(i) && (forall n :: n in i.inUse <==> Prune.InUse(answers, n)) && cr == status
      modifies this, crds, roles
      ensures !ok ==> SetInMemory(i, old(status), c, parse, cr)
      ensures !ok ==> status == old(status) || (luck.persist.applied && status == cr == UpdatedStatus(i, old(status), cr.namespaces, c, parse))
      ensures ok ==> status == cr
      ensures !allowed || luck.documents ==>
        && ok == !luck.documents && !complete
        && status == cr == old(status) && crds.obj == old(crds.obj) && roles.rbac == old(roles.rbac)
      ensures ok <==> !luck.documents && (!allowed || StepsPass(i, old(status), c, parse, luck))
      ensures ok && allowed && PrunesPass(answers, luck) ==> complete
      ensures complete ==> ok
      ensures ok && complete ==>
        Updates(i, old(status), old(crds.obj), old(roles.rbac), c, parse, status, crds.obj, roles.rbac)
    {
      if luck.documents || !allowed {
        return !luck.documents, false;
      }
      var regenerated := Regenerates(i, cr, c, parse);
      var generated, retired := RefreshCrd(i, regenerated, answers, luck);
      if !generated {
        return false, false;
      }
      if regenerated {
        cr := cr.(resourceHash := OfResource(i.resource), generatorBuild := c.build);
      }
      var provisioned := SyncRoles(i, luck.roles, luck.legacyBroken);
      if provisioned.None? {
        return false, false;
      }
      cr := cr.(namespaces := provisioned.value, authDigest := OfRefs(i.refs));
      if luck.deploy {
        return false, false;
      }
      var served := PruneServedVersions(i.target, luck.pruneServed);
      ok := Conclude(i, luck.persist);
      complete := ok && retired && served;
    }

    /** Records what the update was for, in memory and then in the status. */
    method Conclude(i: Inputs, persist: Request) returns (ok: bool)
      modifies this
      ensures cr == Concluded(i, old(cr)) && status == (if Effective(persist) then cr else old(status)) && ok == !persist.fails
    {
      cr := cr.(apiVersion := ApiVersion(i.group, i.target), oasHash := OfDocuments(i.documents), schemes := Some(i.schemes));
      if Effective(persist) {
        status := cr;
      }
      ok := !persist.fails;
    }

    /** Regenerates the CRD when called for, and retires what nothing uses; only the first can fail the update. */
    method RefreshCrd(i: Inputs, regenerates: bool, answers: Prune.Answers, luck: Luck) returns (ok: bool, retired: bool)
      requires InputsFit(i) && forall n :: n in i.inUse <==> Prune.InUse(answers, n)
      modifies crds
      ensures ok <==> !(regenerates && luck.generation.fails)
      ensures ok && PrunesPass(answers, luck) ==> retired
      ensures ok && retired ==> crds.obj == RefreshedCrd(i, old(crds.obj), regenerates)
    {
      if regenerates {
        if Effective(luck.generation) {
          GenerateAndApply(i);
        }
        if luck.generation.fails {
          return false, false;
        }
      }
      if crds.obj.Some? {
        SameRetired(crds.obj.value, i.target, answers, i.inUse);
      }
      retired := crds.PruneStaleServedVersions(i.target, answers, luck.trim, luck.remove);
      ok := true;
    }

    /** Brings the roles in line with the references, then sweeps the earlier name; only the first can fail the update. */
    method SyncRoles(i: Inputs, trouble: Rbac.Trouble, legacyBroken: set<string>) returns (provisioned: Option<seq<string>>)
      modifies roles
      ensures provisioned.Some? <==> forall ns | ns in i.refs || ns in cr.namespaces :: !Rbac.Fails(trouble, ns)
      ensures provisioned.Some? ==>
        RolesSynced(i, cr.namespaces, old(roles.rbac), roles.rbac) && forall ns :: ns in provisioned.value <==> ns in i.refs
    {
      provisioned := roles.SyncAuthSecretRBAC(i.refs, cr.namespaces, i.account, trouble);
      if provisioned.Some? {
        ghost var synced := roles.rbac;
        var namespaces := Rbac.UnionNamespaces(cr.namespaces, provisioned.value);
        var swept := roles.DeleteLegacyAuthSecretRBAC(namespaces, legacyBroken);
        assert roles.rbac.(legacy := old(roles.rbac).legacy) == synced;
      }
    }

    /** Creates the CRD or merges the generated version into it. */
    method GenerateAndApply(i: Inputs)
      requires InputsFit(i)
      modifies crds
      ensures crds.obj == Some(Generated(i, old(crds.obj)))
    {
      if crds.obj.None? {
        crds.obj := Some(Persisted(CrdVersions.Stamped(i.generated, i.owner), []));
      } else {
        var live := new CustomResourceDefinition(crds.obj.value);
        live.Merge(i.generated, i.owner);
        crds.obj := Some(Persisted(live.View(), crds.obj.value.stored));
      }
    }

    /** Drops the versions that were never stored. */
    method PruneServedVersions(current: string, write: Request) returns (ok: bool)
      modifies crds
      ensures crds.obj == if Effective(write) then PrunedServed(old(crds.obj), current) else old(crds.obj)
      ensures ok <==> !(write.fails && PrunedServed(old(crds.obj), current) != old(crds.obj))
    {
      if crds.obj.None? {
        return true;
      }
      var live := new CustomResourceDefinition(crds.obj.value);
      var names := live.PrunableVersions(current);
      if |names| == 0 {
        return true;
      }
      var prune := Prune.SetOf(names);
      assert names[0] in names && prune == PrunableSet(crds.obj.value, current);
      var removed := live.RemoveStaleVersions(prune);
      RemovedSome(crds.obj.value, current, names[0]);
      if Effective(write) {
        crds.obj := Some(Persisted(live.View(), crds.obj.value.stored));
      }
      ok := !write.fails;
    }
  }

  /** A prune that finds something to drop changes the CRD. */
  lemma RemovedSome(crd: Crd, current: string, name: string)
    requires name in PrunableSet(crd, current)
    ensures PrunedServed(Some(crd), current) != Some(crd)
  {
    var names := PrunableSet(crd, current);
    PrunableExactly(crd, crd.versions, current, name);
    RemovedSchemas(crd.versions, names, name);
    SchemaOfPresent(crd.versions, name);
  }
}
