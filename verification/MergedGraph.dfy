/** Every schema that a preparation visits, on any graph, ends as the merge of itself and its parts. */
module MergedGraph {
  import opened Json
  import opened Lists
  import opened SchemaGraph
  import opened PrepareSchema
  import opened SchemaMerge

  /** The same but for the types. */
  predicate SameBut(n0: Node, n: Node) {
    n == n0.(types := n.types)
  }

  ghost predicate PropertiesStay(h: Store, u: set<Schema>) {
    u <= h.Keys && forall v {:trigger h[v]} | v in u :: PropertiesWithin(h[v].properties, u)
  }

  /** Whatever was adopted, no property leads out of a set that no link of the input leaves. */
  ghost predicate Inside(h0: Store, h: Store) {
    forall u: set<Schema> | u <= h0.Keys && LinkClosed(h0, u) :: PropertiesStay(h, u)
  }

  /** A part enters the merge at s as the store h has it, or else it leads to s and enters as the input has it. */
  ghost predicate PartAs(h0: Store, h: Store, s: Schema, p: Schema, m: Store, visited: set<Schema>, open: set<Schema>) {
    && p in visited && p in m && p in h && p in h0
    && ((p !in open && m[p] == h[p]) || (LedTo(h0, p, s) && SameBut(h0[p], m[p])))
  }

  ghost predicate PlannedBy(h0: Store, h: Store, s: Schema, m: Store, visited: set<Schema>, open: set<Schema>) {
    && s in h0 && s in h && MergeOf(h0[s], h[s], m)
    && forall p: Schema | p in h0[s].allOf :: PartAs(h0, h, s, p, m, visited, open)
  }

  /** Where each schema was merged: the store its parts stood in. */
  type Plans = map<Schema, Store>

  ghost predicate Planned(h0: Store, h: Store, s: Schema, plans: Plans, visited: set<Schema>, open: set<Schema>) {
    s in plans && PlannedBy(h0, h, s, plans[s], visited, open)
  }

  /** A walk may stand here: the open schemas were entered and not merged yet; the other visited ones were merged. */
  ghost predicate Standing(h0: Store, h: Store, plans: Plans, visited: set<Schema>, open: set<Schema>) {
    && Closed(h0) && Closed(h) && h.Keys == h0.Keys && open <= visited <= h.Keys && Inside(h0, h)
    && (forall o {:trigger h[o]} | o in open :: SameBut(h0[o], h[o]))
    && (forall v {:trigger h[v]} | v in h.Keys - visited :: h[v] == h0[v])
    && (forall v | v in visited && v !in open :: Planned(h0, h, v, plans, visited, open))
  }

  ghost predicate Leading(h0: Store, open: set<Schema>, s: Schema) {
    forall o | o in open :: LedTo(h0, o, s)
  }

  ghost predicate AllLed(h0: Store, open: set<Schema>, list: seq<Schema?>) {
    forall c: Schema | c in list :: Leading(h0, open, c)
  }

  /** What was merged stays as planned while only open schemas and new ones change. */
  lemma PlansKept(h0: Store, plans: Plans, h: Store, visited: set<Schema>, open: set<Schema>,
                  plans': Plans, h': Store, visited': set<Schema>, open': set<Schema>)
    requires forall v | v in visited && v !in open && v in plans :: v in plans' && plans'[v] == plans[v]
    requires visited <= visited' && visited <= h.Keys && h.Keys == h'.Keys
    requires forall v | v in visited && v !in open :: Planned(h0, h, v, plans, visited, open)
    requires forall v {:trigger h'[v]} | v in visited && v !in open :: v !in open' && h'[v] == h[v]
    ensures forall v | v in visited && v !in open :: Planned(h0, h', v, plans', visited', open')
  {
    forall v | v in visited && v !in open ensures Planned(h0, h', v, plans', visited', open') {
      var m := plans[v];
      assert Planned(h0, h, v, plans, visited, open);
      forall p: Schema | p in h0[v].allOf ensures PartAs(h0, h', v, p, m, visited', open') {
        assert PartAs(h0, h, v, p, m, visited, open);
      }
    }
  }

  // ---- the steps ----------------------------------------------------------------------------------------

  lemma EnterStands(h0: Store, h: Store, plans: Plans, s: Schema, visited: set<Schema>, open: set<Schema>)
    requires Standing(h0, h, plans, visited, open) && s in h && s !in visited
    ensures Standing(h0, Entered(h, s), plans, visited + {s}, open + {s})
    ensures Entered(h, s)[s] == h0[s].(types := Converted(h0[s].types))
  {
    var r := Entered(h, s);
    PlansKept(h0, plans, h, visited, open, plans, r, visited + {s}, open + {s});
    forall u: set<Schema> | u <= h0.Keys && LinkClosed(h0, u) ensures PropertiesStay(r, u) {
      assert PropertiesStay(h, u);
      assert forall v {:trigger r[v]} | v in u :: r[v].properties == h[v].properties;
    }
  }

  lemma InheritStands(h0: Store, h: Store, plans: Plans, heir: Schema?, part: Schema?, visited: set<Schema>, open: set<Schema>)
    requires Standing(h0, h, plans, visited, open) && (heir != null ==> heir in open) && (part != null ==> part in h)
    ensures Standing(h0, Inherited(h, heir, part), plans, visited, open)
  {
    var r := Inherited(h, heir, part);
    PlansKept(h0, plans, h, visited, open, plans, r, visited, open);
    forall u: set<Schema> | u <= h0.Keys && LinkClosed(h0, u) ensures PropertiesStay(r, u) {
      assert PropertiesStay(h, u);
      assert forall v {:trigger r[v]} | v in u :: r[v].properties == h[v].properties;
    }
  }

  lemma MergeStays(h0: Store, h: Store, s: Schema, u: set<Schema>)
    requires Closed(h) && s in h && h.Keys == h0.Keys && SameBut(h0[s], h[s]) && LinkClosed(h0, u) && PropertiesStay(h, u)
    ensures PropertiesStay(PartsMerged(h, s), u)
  {
    var r := PartsMerged(h, s);
    if s in u {
      assert LinksWithin(h0[s], u) && NodeWithin(h[s], h.Keys);
      GatherWithin(h, h[s].allOf, u);
      AdoptedWithin(h[s].properties, Gather(h, h[s].allOf).properties, u);
    }
    forall v {:trigger r[v]} | v in u ensures PropertiesWithin(r[v].properties, u) {
      assert v != s ==> r[v] == h[v];
    }
  }

  /** The merge closes s: its parts are as they will stay, or they are still open and lead to s. */
  lemma MergeStands(h0: Store, h: Store, plans: Plans, s: Schema, visited: set<Schema>, open: set<Schema>) returns (after: Plans)
    requires s !in open && Standing(h0, h, plans, visited, open + {s}) && Leading(h0, open, s) && Within(h0[s].allOf, visited)
    requires if h0[s].allOf == [] || h0[s].types != [] then h[s].types == Converted(h0[s].types) else FirstTypes(h, h0[s].allOf, h[s].types)
    ensures Standing(h0, PartsMerged(h, s), after, visited, open)
  {
    var r := PartsMerged(h, s);
    after := plans[s := h];
    PlansKept(h0, plans, h, visited, open + {s}, after, r, visited, open);
    forall u: set<Schema> | u <= h0.Keys && LinkClosed(h0, u) ensures PropertiesStay(r, u) {
      MergeStays(h0, h, s, u);
    }
    assert SameBut(h0[s], h[s]);
    MergedOf(h, s, h0[s]);
    forall p: Schema | p in h0[s].allOf ensures PartAs(h0, r, s, p, h, visited, open) {
      assert p in open + {s} ==> SameBut(h0[p], h[p]);
    }
    assert PlannedBy(h0, r, s, h, visited, open);
  }

  // ---- the walk -----------------------------------------------------------------------------------------

  lemma LedBy(h0: Store, o: Schema, s: Schema, c: Schema)
    requires LedTo(h0, o, s) && s in h0 && c in h0
    requires c in h0[s].allOf || (PrimaryType(h0[s].types) == "array" && c == h0[s].items)
    ensures LedTo(h0, o, c)
  {
    forall u: set<Schema> | u <= h0.Keys && o in u && LinkClosed(h0, u) ensures c in u {
      assert LinksWithin(h0[s], u);
    }
  }

  lemma PropertiesLed(h0: Store, h: Store, plans: Plans, s: Schema, visited: set<Schema>, open: set<Schema>)
    requires Standing(h0, h, plans, visited, open) && Leading(h0, open, s) && s in h
    ensures AllLed(h0, open, Schemas(h[s].properties))
  {
    forall c: Schema, o | c in Schemas(h[s].properties) && o in open ensures LedTo(h0, o, c) {
      forall u: set<Schema> | u <= h0.Keys && o in u && LinkClosed(h0, u) ensures c in u {
        assert PropertiesStay(h, u) && s in u;
        SchemasWithin(h[s].properties, u);
      }
    }
  }

  lemma {:induction false} PrepareStands(h0: Store, h: Store, plans: Plans, s: Schema?, visited: set<Schema>, open: set<Schema>) returns (after: Plans)
    requires Standing(h0, h, plans, visited, open) && (s != null ==> s in h && Leading(h0, open, s))
    ensures var r := Prepare(h, s, visited); Standing(h0, r.h, after, r.visited, open)
    decreases h.Keys - visited, 0, 0
  {
    after := plans;
    if s != null && s !in visited {
      EnterStands(h0, h, plans, s, visited, open);
      assert s in h.Keys - visited && s !in h.Keys - (visited + {s});
      var h1 := Entered(h, s);
      after := ItemsStand(h0, h1, plans, s, visited + {s}, open);
      var w := ItemsPrepared(h1, s, visited + {s});
      after := MergePartsStands(h0, w.h, after, s, w.visited, open);
    }
  }

  lemma {:induction false} ItemsStand(h0: Store, h: Store, plans: Plans, s: Schema, visited: set<Schema>, open: set<Schema>) returns (after: Plans)
    requires s !in open && Standing(h0, h, plans, visited, open + {s}) && Leading(h0, open, s)
    requires h[s].types == Converted(h0[s].types)
    ensures var r := ItemsPrepared(h, s, visited); Standing(h0, r.h, after, r.visited, open + {s})
    decreases h.Keys - visited, 1, 0
  {
    assert NodeWithin(h[s], h.Keys) && SameBut(h0[s], h[s]);
    ConvertedPrimary(h0[s].types);
    after := plans;
    if PrimaryType(h[s].types) == "array" {
      if h[s].items != null {
        forall o | o in open + {s} ensures LedTo(h0, o, h[s].items) {
          LedBy(h0, o, s, h[s].items);
        }
      }
      after := PrepareStands(h0, h, plans, h[s].items, visited, open + {s});
    }
  }

  lemma {:induction false} MergePartsStands(h0: Store, h: Store, plans: Plans, s: Schema, visited: set<Schema>, open: set<Schema>) returns (after: Plans)
    requires s !in open && Standing(h0, h, plans, visited, open + {s}) && Leading(h0, open, s)
    requires h[s].types == Converted(h0[s].types)
    ensures var r := MergeParts(h, s, visited); Standing(h0, r.h, after, r.visited, open)
    decreases h.Keys - visited, 2, 0
  {
    assert NodeWithin(h[s], h.Keys);
    after := PartsStand(h0, h, plans, s, visited, open);
    var w := PrepareList(h, s, h[s].allOf, visited);
    var merged := PartsMerged(w.h, s);
    if merged[s].allOf == [] {
      PropertiesLed(h0, merged, after, s, w.visited, open);
      after := ListStands(h0, merged, after, null, Schemas(merged[s].properties), w.visited, open);
    }
  }

  lemma {:induction false} PartsStand(h0: Store, h: Store, plans: Plans, s: Schema, visited: set<Schema>, open: set<Schema>) returns (after: Plans)
    requires s !in open && Standing(h0, h, plans, visited, open + {s}) && Leading(h0, open, s)
    requires h[s].types == Converted(h0[s].types) && Within(h[s].allOf, h.Keys)
    ensures var w := PrepareList(h, s, h[s].allOf, visited); Standing(h0, PartsMerged(w.h, s), after, w.visited, open)
    decreases h.Keys - visited, 1, |h[s].allOf| + 1
  {
    assert SameBut(h0[s], h[s]);
    var parts := h[s].allOf;
    forall c: Schema, o | c in parts && o in open + {s} ensures LedTo(h0, o, c) {
      LedBy(h0, o, s, c);
    }
    after := ListStands(h0, h, plans, s, parts, visited, open + {s});
    ListTypes(h, s, parts, visited);
    var w := PrepareList(h, s, parts, visited);
    assert h0[s].types != [] ==> Converted(h0[s].types) != [];
    after := MergeStands(h0, w.h, after, s, w.visited, open);
  }

  lemma {:induction false} ListStands(h0: Store, h: Store, plans: Plans, heir: Schema?, list: seq<Schema?>, visited: set<Schema>, open: set<Schema>) returns (after: Plans)
    requires Standing(h0, h, plans, visited, open) && Within(list, h.Keys) && AllLed(h0, open, list) && (heir != null ==> heir in open)
    ensures var r := PrepareList(h, heir, list, visited); Standing(h0, r.h, after, r.visited, open)
    decreases h.Keys - visited, 1, |list|
  {
    after := plans;
    if list != [] {
      assert list[0] in list;
      after := PrepareStands(h0, h, plans, list[0], visited, open);
      var w := Prepare(h, list[0], visited);
      InheritStands(h0, w.h, after, heir, list[0], w.visited, open);
      after := ListStands(h0, Inherited(w.h, heir, list[0]), after, heir, list[1..], w.visited, open);
    }
  }

  // ---- what it comes to ---------------------------------------------------------------------------------

  /** A part enters the merge at s as the walk leaves it; only one that leads back to s may enter as it was. */
  ghost predicate Enters(h: Store, r: Store, s: Schema, p: Schema, m: Store)
    requires p in h && p in r && p in m
  {
    m[p] == r[p] || (LedTo(h, p, s) && SameBut(h[p], m[p]))
  }

  lemma RootStands(h: Store, root: Schema, r: Walk) returns (plans: Plans)
    requires Closed(h) && root in h && r == Prepare(h, root, {})
    ensures Standing(h, r.h, plans, r.visited, {})
  {
    forall u: set<Schema> | u <= h.Keys && LinkClosed(h, u) ensures PropertiesStay(h, u) {
      forall v {:trigger h[v]} | v in u ensures PropertiesWithin(h[v].properties, u) {
        assert LinksWithin(h[v], u);
      }
    }
    plans := PrepareStands(h, h, map[], root, {}, {});
  }

  /** On any graph each visited schema ends as the merge of itself and its parts. */
  lemma GraphMerged(h: Store, root: Schema, r: Walk, s: Schema) returns (m: Store)
    requires Closed(h) && root in h && r == Prepare(h, root, {}) && s in r.visited
    ensures Within(h[s].allOf, r.h.Keys) && MergeOf(h[s], r.h[s], m)
    ensures forall p: Schema | p in h[s].allOf :: p in h && p in m && Enters(h, r.h, s, p, m)
  {
    var plans := RootStands(h, root, r);
    m := StandingMerged(h, r, plans, s);
  }

  lemma StandingMerged(h: Store, r: Walk, plans: Plans, s: Schema) returns (m: Store)
    requires Standing(h, r.h, plans, r.visited, {}) && s in r.visited
    ensures Within(h[s].allOf, r.h.Keys) && MergeOf(h[s], r.h[s], m)
    ensures forall p: Schema | p in h[s].allOf :: p in h && p in m && Enters(h, r.h, s, p, m)
  {
    assert NodeWithin(h[s], h.Keys) && Planned(h, r.h, s, plans, r.visited, {});
    m := plans[s];
    forall p: Schema | p in h[s].allOf ensures p in h && p in m && Enters(h, r.h, s, p, m) {
      assert PartAs(h, r.h, s, p, m, r.visited, {});
    }
  }

  /** No part of s leads back to s. */
  ghost predicate PartsApart(h: Store, s: Schema)
    requires s in h
  {
    forall p: Schema | p in h[s].allOf :: !LedTo(h, p, s)
  }

  /** A schema none of whose parts leads back to it ends as the merge of itself and of what its parts end as. */
  lemma MergedFromFinal(h: Store, root: Schema, r: Walk, s: Schema)
    requires Closed(h) && root in h && r == Prepare(h, root, {}) && s in r.visited && PartsApart(h, s)
    ensures Within(h[s].allOf, r.h.Keys) && MergeOf(h[s], r.h[s], r.h)
  {
    var plans := RootStands(h, root, r);
    StandingApart(h, r, plans, s);
  }

  lemma StandingApart(h: Store, r: Walk, plans: Plans, s: Schema)
    requires Standing(h, r.h, plans, r.visited, {}) && s in r.visited && PartsApart(h, s)
    ensures Within(h[s].allOf, r.h.Keys) && MergeOf(h[s], r.h[s], r.h)
  {
    var m := StandingMerged(h, r, plans, s);
    forall p: Schema | p in h[s].allOf ensures r.h[p] == m[p] {
      assert Enters(h, r.h, s, p, m) && !LedTo(h, p, s);
    }
    MergeAlike(h[s], r.h[s], m, r.h);
  }

  /** A merge depends on its parts alone. */
  lemma MergeAlike(n0: Node, n: Node, m: Store, r: Store)
    requires MergeOf(n0, n, m) && Within(n0.allOf, r.Keys)
    requires forall p: Schema | p in n0.allOf :: r[p] == m[p]
    ensures MergeOf(n0, n, r)
  {
    PartsAlike(m, r, n0.allOf);
    if FirstTypes(m, n0.allOf, n.types) {
      TypesAlike(m, r, n0.allOf, n.types);
    }
  }

  lemma PartsAlike(m: Store, r: Store, parts: seq<Schema?>)
    requires Within(parts, m.Keys) && Within(parts, r.Keys) && forall p: Schema | p in parts :: r[p] == m[p]
    ensures PropertiesOf(m, parts) == PropertiesOf(r, parts) && RequiredOf(m, parts) == RequiredOf(r, parts)
    ensures EnumsOf(m, parts) == EnumsOf(r, parts)
  {
    assert forall i | 0 <= i < |parts| :: parts[i] in parts;
  }

  lemma TypesAlike(m: Store, r: Store, parts: seq<Schema?>, types: seq<string>)
    requires Within(parts, m.Keys) && Within(parts, r.Keys) && forall p: Schema | p in parts :: r[p] == m[p]
    requires FirstTypes(m, parts, types)
    ensures FirstTypes(r, parts, types)
  {
    assert forall i | 0 <= i < |parts| :: parts[i] in parts && (NoTypes(m, parts[i]) <==> NoTypes(r, parts[i]));
    if types != [] {
      var k: nat :| k < |parts| && !NoTypes(m, parts[k]) && m[parts[k]].types == types && forall j | 0 <= j < k :: NoTypes(m, parts[j]);
      assert !NoTypes(r, parts[k]) && r[parts[k]].types == types;
      assert Typed(r, parts, |parts|, types);
    }
  }

  /**
   The required names that the merge of n0 with parts of content m leaves: no repeats, exactly its own and those of its
   parts, in the order of first appearance. So is its enum unless the merge was cut, with the enums of the parts
   without properties.
   */
  ghost predicate United(n0: Node, n: Node, m: Store)
    requires Within(n0.allOf, m.Keys)
  {
    && NoDuplicates(n.required)
    && (forall name :: name in n.required <==> name in n0.required || exists p: Schema :: p in n0.allOf && name in m[p].required)
    && n.required == Deduplicated(n0.required + Joined(RequiredOf(m, n0.allOf)))
    && (n.allOf == [] ==>
          && NoDuplicates(n.enum)
          && (forall v :: v in n.enum <==> v in n0.enum || exists p: Schema :: p in n0.allOf && m[p].properties == [] && v in m[p].enum)
          && n.enum == Deduplicated(n0.enum + Joined(EnumsOf(m, n0.allOf))))
  }

  lemma MergeUnites(n0: Node, n: Node, m: Store)
    requires MergeOf(n0, n, m) && n0.allOf != []
    ensures United(n0, n, m)
  {
    var parts := n0.allOf;
    DeduplicatedOnce(n0.required + Joined(RequiredOf(m, parts)));
    DeduplicatedOnce(n0.enum + Joined(EnumsOf(m, parts)));
    forall name ensures name in Joined(RequiredOf(m, parts)) <==> exists p: Schema :: p in parts && name in m[p].required {
      JoinedRequired(m, parts, name);
    }
    forall v ensures v in Joined(EnumsOf(m, parts)) <==> exists p: Schema :: p in parts && m[p].properties == [] && v in m[p].enum {
      JoinedEnums(m, parts, v);
    }
  }

  /** A visited schema with parts, none of which leads back to it, unites itself with what its parts end as. */
  lemma NamesUnited(h: Store, root: Schema, r: Walk, s: Schema)
    requires Closed(h) && root in h && r == Prepare(h, root, {}) && s in r.visited && h[s].allOf != [] && PartsApart(h, s)
    ensures Within(h[s].allOf, r.h.Keys) && United(h[s], r.h[s], r.h)
  {
    MergedFromFinal(h, root, r, s);
    MergeUnites(h[s], r.h[s], r.h);
  }

  lemma DeduplicatedOnce<T>(all: seq<T>)
    ensures NoDuplicates(Deduplicated(all)) && forall x :: x in Deduplicated(all) <==> x in all
  {
    NoneUnseen(all);
    FirstSeenElements(all, {});
  }

  lemma JoinedRequired(m: Store, parts: seq<Schema?>, name: string)
    requires Within(parts, m.Keys)
    ensures name in Joined(RequiredOf(m, parts)) <==> exists p: Schema :: p in parts && name in m[p].required
  {
    JoinedMembers(RequiredOf(m, parts), name);
    if p: Schema :| p in parts && name in m[p].required {
      var i :| 0 <= i < |parts| && parts[i] == p;
      assert RequiredOf(m, parts)[i] == m[p].required;
    }
  }

  lemma JoinedEnums(m: Store, parts: seq<Schema?>, v: Json)
    requires Within(parts, m.Keys)
    ensures v in Joined(EnumsOf(m, parts)) <==> exists p: Schema :: p in parts && m[p].properties == [] && v in m[p].enum
  {
    JoinedMembers(EnumsOf(m, parts), v);
    if p: Schema :| p in parts && m[p].properties == [] && v in m[p].enum {
      var i :| 0 <= i < |parts| && parts[i] == p;
      assert EnumsOf(m, parts)[i] == m[p].enum;
    }
  }

  /**
   On a cycle of parts no order of the merges gives all of them what their parts end with: p has s as a part, and s ends
   with a required name that p misses.
   */
  lemma CycleMisses(s: Schema, p: Schema, q: Schema)
    requires s != p && s != q && p != q
    ensures var h: Store := map[s := Node([], [], null, [p, q], [], []), p := Node([], [], null, [s], ["p"], []),
                                q := Node([], [], null, [], ["q"], [])];
      && Closed(h)
      && var r := Prepare(h, s, {});
         p in r.visited && "q" in r.h[s].required && r.h[p].required == ["p"]
  {
    var h: Store := map[s := Node([], [], null, [p, q], [], []), p := Node([], [], null, [s], ["p"], []),
                        q := Node([], [], null, [], ["q"], [])];
    assert NodeWithin(h[s], h.Keys) && NodeWithin(h[p], h.Keys) && NodeWithin(h[q], h.Keys);
    var r := Prepare(h, s, {});
    PartFirst(h, s, p, q);
    var ms := GraphMerged(h, s, r, s);
    var mq := GraphMerged(h, s, r, q);
    MergeUnites(h[s], r.h[s], ms);
  }

  /** What comes after the first part leaves it alone. */
  lemma PartFirst(h: Store, s: Schema, p: Schema, q: Schema)
    requires Closed(h) && s in h && p in h && q in h && s != p
    requires h[s] == Node([], [], null, [p, q], [], []) && h[p] == Node([], [], null, [s], ["p"], [])
    ensures var r := Prepare(h, s, {}); {s, p, q} <= r.visited && r.h[p].required == ["p"]
  {
    var none: set<Schema> := {};
    assert none + {s} == {s} && Converted([]) == [] && Entered(h, s) == h;
    assert ItemsPrepared(h, s, {s}) == Walk(h, {s});
    var l := PrepareList(h, s, [p, q], {s});
    PartsFirst(h, s, p, q);
    var r := Prepare(h, s, none);
    assert r == MergeParts(h, s, {s});
    assert PartsMerged(l.h, s)[p] == l.h[p];
  }

  lemma PartsFirst(h: Store, s: Schema, p: Schema, q: Schema)
    requires Closed(h) && s in h && p in h && q in h && s != p
    requires h[s] == Node([], [], null, [p, q], [], []) && h[p] == Node([], [], null, [s], ["p"], [])
    ensures var l := PrepareList(h, s, [p, q], {s}); {s, p, q} <= l.visited && l.h[p].required == ["p"]
  {
    PartMisses(h, s, p);
    var w := Prepare(h, p, {s});
    var parts: seq<Schema?> := [p, q];
    assert parts[0] in parts && parts[1] in parts;
    var l := PrepareList(h, s, parts, {s});
    assert l == PrepareList(Inherited(w.h, s, p), s, parts[1..], w.visited);
    assert l.h[p] == w.h[p];
  }

  /** p is merged while s is still open. */
  lemma PartMisses(h: Store, s: Schema, p: Schema)
    requires Closed(h) && s in h && p in h && s != p
    requires h[p] == Node([], [], null, [s], ["p"], []) && h[s].types == [] && h[s].required == []
    ensures var w := Prepare(h, p, {s}); p in w.visited && w.h[p].required == ["p"]
  {
    assert {s} + {p} == {s, p} && Converted([]) == [] && Entered(h, p) == h;
    assert ItemsPrepared(h, p, {s, p}) == Walk(h, {s, p});
    assert [s][1..] == [] && [s][0] == s && Inherited(h, p, s) == h;
    assert Prepare(h, s, {s, p}) == Walk(h, {s, p});
    assert PrepareList(h, p, [s], {s, p}) == PrepareList(h, p, [], {s, p}) == Walk(h, {s, p});
    assert Prepare(h, p, {s}) == MergeParts(h, p, {s, p});
    OnePartNames(h, p, s);
  }

  lemma OnePartNames(h: Store, p: Schema, s: Schema)
    requires Closed(h) && s in h && p in h && h[p] == Node([], [], null, [s], ["p"], []) && h[s].required == []
    ensures PartsMerged(h, p)[p].required == ["p"]
  {
    var none: seq<Schema?> := [];
    assert [s][..0] == none && Gather(h, none) == Gathered([], [], []);
    assert Gather(h, [s]) == GatherPart(Gather(h, none), h[s]);
    assert ["p"] + Gather(h, [s]).required == ["p"];
    assert FirstSeen(["p"], {}) == ["p"];
  }
}
