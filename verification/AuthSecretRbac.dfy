/** The per-namespace Role and RoleBinding that let a generated controller read its credentials. */
module AuthSecretRbac {
  import opened Json
  import opened SchemaGraph
  import opened Requests

  /** Secret names by namespace, as the Configuration instances reference them. */
  type Refs = map<string, set<string>>

  /** What the cluster holds under one role name, and what is left under the name used before. */
  datatype Rbac = Rbac(roles: map<string, set<string>>, bindings: map<string, string>, legacy: set<string>)

  /** The pair grants the account exactly these secrets in the namespace. */
  predicate Grants(c: Rbac, namespace: string, secrets: set<string>, account: string) {
    && namespace in c.roles && c.roles[namespace] == secrets
    && namespace in c.bindings && c.bindings[namespace] == account
  }

  predicate Provisioned(c: Rbac, namespace: string) {
    namespace in c.roles && namespace in c.bindings
  }

  predicate Untouched(c: Rbac, c': Rbac, namespace: string) {
    && (namespace in c.roles <==> namespace in c'.roles) && (namespace in c.roles ==> c.roles[namespace] == c'.roles[namespace])
    && (namespace in c.bindings <==> namespace in c'.bindings)
    && (namespace in c.bindings ==> c.bindings[namespace] == c'.bindings[namespace])
  }

  function WithRole(c: Rbac, ns: string, secrets: set<string>): Rbac {
    c.(roles := c.roles[ns := secrets])
  }

  function WithPair(c: Rbac, ns: string, secrets: set<string>, account: string): Rbac {
    c.(roles := c.roles[ns := secrets], bindings := c.bindings[ns := account])
  }

  function WithoutRole(c: Rbac, ns: string): Rbac {
    c.(roles := c.roles - {ns})
  }

  function WithoutPair(c: Rbac, ns: string): Rbac {
    c.(roles := c.roles - {ns}, bindings := c.bindings - {ns})
  }

  /** How the requests for the two halves of a pair end, by namespace; those not listed succeed. */
  datatype Trouble = Trouble(roles: map<string, Request>, bindings: map<string, Request>)

  function At(requests: map<string, Request>, ns: string): Request {
    if ns in requests then requests[ns] else Request(false, false)
  }

  predicate Fails(t: Trouble, ns: string) {
    At(t.roles, ns).fails || At(t.bindings, ns).fails
  }

  /** After a sync: granted where referenced, gone where it was provisioned and is referenced no more, untouched elsewhere. */
  ghost predicate Synced(c: Rbac, c': Rbac, refs: Refs, previous: seq<string>, account: string) {
    && (forall ns | ns in refs :: Grants(c', ns, refs[ns], account))
    && (forall ns | ns in previous && ns !in refs :: ns !in c'.roles && ns !in c'.bindings)
    && (forall ns | ns !in refs && ns !in previous :: Untouched(c, c', ns))
    && c'.legacy == c.legacy
  }

  class Cluster {
    var rbac: Rbac

    constructor (rbac: Rbac)
      ensures this.rbac == rbac
    {
      this.rbac := rbac;
    }

    /** Applies the pair in one namespace; a failure may leave the Role without its binding. */
    method ApplyPair(ns: string, secrets: set<string>, account: string, role: Request, binding: Request) returns (ok: bool)
      modifies this
      ensures ok == !(role.fails || binding.fails)
      ensures rbac ==
        if !role.fails && Effective(binding) then WithPair(old(rbac), ns, secrets, account)
        else if Effective(role) then WithRole(old(rbac), ns, secrets) else old(rbac)
    {
      if Effective(role) {
        rbac := rbac.(roles := rbac.roles[ns := secrets]);
      }
      if role.fails {
        return false;
      }
      if Effective(binding) {
        rbac := rbac.(bindings := rbac.bindings[ns := account]);
      }
      ok := !binding.fails;
    }

    method DeletePair(ns: string, role: Request, binding: Request) returns (ok: bool)
      modifies this
      ensures ok == !(role.fails || binding.fails)
      ensures rbac ==
        if !role.fails && Effective(binding) then WithoutPair(old(rbac), ns)
        else if Effective(role) then WithoutRole(old(rbac), ns) else old(rbac)
    {
      if Effective(role) {
        rbac := rbac.(roles := rbac.roles - {ns});
      }
      if role.fails {
        return false;
      }
      if Effective(binding) {
        rbac := rbac.(bindings := rbac.bindings - {ns});
      }
      ok := !binding.fails;
    }

    /** Applies the pair in every referenced namespace, up to the first failure. */
    method Provision(refs: Refs, account: string, trouble: Trouble) returns (r: Option<seq<string>>)
      modifies this
      ensures r.Some? <==> forall ns | ns in refs :: !Fails(trouble, ns)
      ensures r.Some? ==> forall ns | ns in refs :: Grants(rbac, ns, refs[ns], account)
      ensures forall ns | ns !in refs :: Untouched(old(rbac), rbac, ns)
      ensures rbac.legacy == old(rbac.legacy)
      ensures r.Some? ==> NoDuplicates(r.value) && forall ns :: ns in r.value <==> ns in refs
    {
      var provisioned, left := [], refs.Keys;
      while left != {}
        invariant left <= refs.Keys && NoDuplicates(provisioned)
        invariant forall ns :: ns in provisioned <==> ns in refs && ns !in left
        invariant forall ns | ns in refs && ns !in left :: !Fails(trouble, ns) && Grants(rbac, ns, refs[ns], account)
        invariant forall ns | ns !in refs :: Untouched(old(rbac), rbac, ns)
        invariant rbac.legacy == old(rbac.legacy)
        decreases |left|
      {
        var ns :| ns in left;
        var ok := ApplyPair(ns, refs[ns], account, At(trouble.roles, ns), At(trouble.bindings, ns));
        if !ok {
          return None;
        }
        left := left - {ns};
        provisioned := provisioned + [ns];
      }
      r := Some(provisioned);
    }

    /** Removes the pair where it was provisioned and is not wanted any more, up to the first failure. */
    method RemoveStale(previous: seq<string>, wanted: set<string>, trouble: Trouble) returns (ok: bool)
      modifies this
      ensures ok <==> forall ns | ns in previous && ns !in wanted :: !Fails(trouble, ns)
      ensures ok ==> forall ns | ns in previous && ns !in wanted :: ns !in rbac.roles && ns !in rbac.bindings
      ensures forall ns | ns in wanted || ns !in previous :: Untouched(old(rbac), rbac, ns)
      ensures rbac.legacy == old(rbac.legacy)
    {
      for i := 0 to |previous|
        invariant forall ns | ns in previous[..i] && ns !in wanted :: !Fails(trouble, ns) && ns !in rbac.roles && ns !in rbac.bindings
        invariant forall ns | ns in wanted || ns !in previous :: Untouched(old(rbac), rbac, ns)
        invariant rbac.legacy == old(rbac.legacy)
      {
        assert previous[..i + 1] == previous[..i] + [previous[i]];
        if previous[i] in wanted {
          continue;
        }
        ok := DeletePair(previous[i], At(trouble.roles, previous[i]), At(trouble.bindings, previous[i]));
        if !ok {
          return;
        }
      }
      assert previous[..|previous|] == previous;
      ok := true;
    }

    /**
     Provisions every referenced namespace, then removes what earlier syncs provisioned elsewhere, both up to the
     first request that fails. Returns the namespaces provisioned now, each once.
     */
    method SyncAuthSecretRBAC(refs: Refs, previous: seq<string>, account: string, trouble: Trouble) returns (r: Option<seq<string>>)
      modifies this
      ensures r.Some? <==> forall ns | ns in refs || ns in previous :: !Fails(trouble, ns)
      ensures r.Some? ==> Synced(old(rbac), rbac, refs, previous, account)
      ensures r.Some? ==> NoDuplicates(r.value) && forall ns :: ns in r.value <==> ns in refs
    {
      r := Provision(refs, account, trouble);
      if r.Some? {
        ghost var applied := rbac;
        var ok := RemoveStale(previous, refs.Keys, trouble);
        if !ok {
          return None;
        }
        forall ns | ns in refs ensures Grants(rbac, ns, refs[ns], account) {
          assert Grants(applied, ns, refs[ns], account) && Untouched(applied, rbac, ns);
        }
        forall ns | ns !in refs && ns !in previous ensures Untouched(old(rbac), rbac, ns) {
          assert Untouched(old(rbac), applied, ns) && Untouched(applied, rbac, ns);
        }
      }
    }

    /** The namespaces where either half of the pair is missing; a failing read is no answer. */
    method MissingAuthSecretRBAC(namespaces: seq<string>, unreadable: set<string>) returns (r: Option<seq<string>>)
      ensures r.None? <==> exists i | 0 <= i < |namespaces| :: namespaces[i] in unreadable
      ensures r.Some? ==> forall ns :: ns in r.value <==> ns in namespaces && !Provisioned(rbac, ns)
    {
      var missing := [];
      for i := 0 to |namespaces|
        invariant forall k | 0 <= k < i :: namespaces[k] !in unreadable
        invariant forall ns :: ns in missing <==> ns in namespaces[..i] && !Provisioned(rbac, ns)
      {
        assert namespaces[..i + 1] == namespaces[..i] + [namespaces[i]];
        var ns := namespaces[i];
        if ns in unreadable {
          return None;
        }
        if ns !in rbac.roles {
          missing := missing + [ns];
          continue;
        }
        if ns !in rbac.bindings {
          missing := missing + [ns];
        }
      }
      assert namespaces[..|namespaces|] == namespaces;
      r := Some(missing);
    }

    /** Removes what is left under the earlier name. It never touches the name in use. */
    method DeleteLegacyAuthSecretRBAC(namespaces: seq<string>, broken: set<string>) returns (ok: bool)
      modifies this
      ensures rbac == old(rbac).(legacy := rbac.legacy)
      ensures forall ns :: ns in rbac.legacy <==> ns in old(rbac.legacy) && (ns !in namespaces || ns in broken)
      ensures ok <==> forall ns | ns in namespaces :: ns !in broken
    {
      ok := true;
      for i := 0 to |namespaces|
        invariant rbac == old(rbac).(legacy := rbac.legacy)
        invariant forall ns :: ns in rbac.legacy <==> ns in old(rbac.legacy) && (ns !in namespaces[..i] || ns in broken)
        invariant ok <==> forall ns | ns in namespaces[..i] :: ns !in broken
      {
        assert namespaces[..i + 1] == namespaces[..i] + [namespaces[i]];
        if namespaces[i] in broken {
          ok := false;
        } else {
          rbac := rbac.(legacy := rbac.legacy - {namespaces[i]});
        }
      }
      assert namespaces[..|namespaces|] == namespaces;
    }
  }

  /** The distinct namespaces of both lists, in order of first appearance. */
  method UnionNamespaces(a: seq<string>, b: seq<string>) returns (out: seq<string>)
    ensures out == FirstSeen(a + b, {})
    ensures NoDuplicates(out) && forall ns :: ns in out <==> ns in a || ns in b
  {
    out := DedupeFirstSeen(a, b);
  }
}
