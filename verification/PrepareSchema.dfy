/**
 CRD preparation on the schema graph: `number` becomes `integer`, and `allOf` is merged away, unless an enum to be
 merged cannot be de-duplicated. The graph may be cyclic; nothing but the visited set stops the walk.
 */
module PrepareSchema {
  import opened Json
  import opened SchemaGraph

  // ---- merging --------------------------------------------------------------------------------

  /** What the allOf loop gathers from the parts. Only a part without properties contributes its enum. */
  datatype Gathered = Gathered(properties: seq<Property>, required: seq<string>, enum: seq<Json>)

  function GatherPart(g: Gathered, part: Node): Gathered {
    Gathered(g.properties + part.properties,
             g.required + part.required,
             g.enum + if part.properties == [] then part.enum else [])
  }

  function Gather(h: Store, parts: seq<Schema?>): Gathered
    requires Within(parts, h.Keys)
  {
    if parts == [] then Gathered([], [], []) else
      var g, p := Gather(h, parts[..|parts| - 1]), parts[|parts| - 1];
      if p == null then g else GatherPart(g, h[p])
  }

  /** Appends the properties whose name is not there yet; an existing name is never overwritten. */
  function Adopted(own: seq<Property>, extra: seq<Property>): seq<Property>
    decreases extra
  {
    if extra == [] then own
    else if exists p :: p in own && p.name == extra[0].name then Adopted(own, extra[1..])
    else Adopted(own + [extra[0]], extra[1..])
  }

  /**
   The merge. An enum value that cannot be a map key cuts it short, silently: properties and required names
   are merged by then, the enum and the parts stay.
   */
  function Merged(n: Node, g: Gathered): Node {
    var m := n.(properties := Adopted(n.properties, g.properties), required := FirstSeen(n.required + g.required, {}));
    if AllComparable(n.enum) && AllComparable(g.enum) then m.(enum := FirstSeen(n.enum + g.enum, {}), allOf := []) else m
  }

  /** What is gathered depends on the parts' properties, required names and enums alone. */
  lemma {:induction false} GatherKept(h: Store, h': Store, parts: seq<Schema?>)
    requires Within(parts, h.Keys) && Within(parts, h'.Keys)
    requires forall s: Schema {:trigger h'[s]} | s in parts :: h'[s] == h[s].(types := h'[s].types)
    ensures Gather(h', parts) == Gather(h, parts)
  {
    if parts != [] {
      var p := parts[|parts| - 1];
      assert p in parts;
      GatherKept(h, h', parts[..|parts| - 1]);
      assert p != null ==> h'[p].properties == h[p].properties;
    }
  }

  lemma {:induction false} GatherWithin(h: Store, parts: seq<Schema?>, u: set<Schema>)
    requires u <= h.Keys && Within(parts, u) && forall v | v in u :: PropertiesWithin(h[v].properties, u)
    ensures PropertiesWithin(Gather(h, parts).properties, u)
  {
    if parts != [] {
      var p := parts[|parts| - 1];
      assert p in parts;
      GatherWithin(h, parts[..|parts| - 1], u);
    }
  }

  lemma {:induction false} AdoptedWithin(own: seq<Property>, extra: seq<Property>, u: set<Schema>)
    requires PropertiesWithin(own, u) && PropertiesWithin(extra, u)
    ensures PropertiesWithin(Adopted(own, extra), u)
    decreases extra
  {
    if extra != [] {
      assert extra[0] in extra;
      if exists p :: p in own && p.name == extra[0].name {
        AdoptedWithin(own, extra[1..], u);
      } else {
        AdoptedWithin(own + [extra[0]], extra[1..], u);
      }
    }
  }

  lemma MergedWithin(h: Store, s: Schema)
    requires Closed(h) && s in h
    ensures NodeWithin(h[s], h.Keys) && NodeWithin(Merged(h[s], Gather(h, h[s].allOf)), h.Keys)
  {
    assert NodeWithin(h[s], h.Keys);
    forall v | v in h.Keys ensures PropertiesWithin(h[v].properties, h.Keys) {
      assert NodeWithin(h[v], h.Keys);
    }
    GatherWithin(h, h[s].allOf, h.Keys);
    AdoptedWithin(h[s].properties, Gather(h, h[s].allOf).properties, h.Keys);
  }

  // ---- the walk, as a function on stores ----------------------------------------------------------

  /** Where a walk stands: the store, and the set of schemas visited so far. */
  datatype Walk = Walk(h: Store, visited: set<Schema>)

  /** `number` is rewritten as soon as a schema is entered. */
  ghost function Entered(h: Store, s: Schema): (r: Store)
    requires Closed(h) && s in h
    ensures r.Keys == h.Keys && Closed(r) && NodeWithin(r[s], h.Keys)
    ensures forall v {:trigger r[v]} | v in h && v != s :: r[v] == h[v]
  {
    assert NodeWithin(h[s], h.Keys);
    var n := h[s].(types := Converted(h[s].types));
    assert NodeWithin(n, h.Keys);
    UpdateClosed(h, s, n);
    h[s := n]
  }

  /** A schema without a type takes the type of the part just prepared, if that has one. */
  ghost function Inherited(h: Store, heir: Schema?, part: Schema?): (r: Store)
    requires Closed(h) && (heir != null ==> heir in h) && (part != null ==> part in h)
    ensures r.Keys == h.Keys && Closed(r)
    ensures forall v {:trigger r[v]} | v in h && v != heir :: r[v] == h[v]
    ensures heir != null ==> r[heir] == h[heir].(types := r[heir].types)
    ensures heir != null ==> r[heir].types == h[heir].types || (part != null && r[heir].types == h[part].types)
  {
    if heir != null && part != null && h[heir].types == [] && h[part].types != [] then
      var n := h[heir].(types := h[part].types);
      assert NodeWithin(h[heir], h.Keys) && NodeWithin(n, h.Keys);
      UpdateClosed(h, heir, n);
      h[heir := n]
    else h
  }

  /** The list of enum values to be merged at s holds an array or an object. */
  ghost predicate MergeCut(h: Store, s: Schema)
    requires Closed(h) && s in h
  {
    assert NodeWithin(h[s], h.Keys);
    !AllComparable(h[s].enum) || !AllComparable(Gather(h, h[s].allOf).enum)
  }

  /** The merge after the parts were prepared. */
  ghost function PartsMerged(h: Store, s: Schema): (r: Store)
    requires Closed(h) && s in h
    ensures r.Keys == h.Keys && Closed(r)
    ensures forall v {:trigger r[v]} | v in h && v != s :: r[v] == h[v]
    ensures r[s].types == h[s].types
    ensures r[s].allOf == if h[s].allOf != [] && MergeCut(h, s) then h[s].allOf else []
    ensures PropertiesWithin(r[s].properties, h.Keys) && Within(Schemas(r[s].properties), h.Keys)
  {
    MergedWithin(h, s);
    SchemasWithin(h[s].properties, h.Keys);
    var merged := Merged(h[s], Gather(h, h[s].allOf));
    SchemasWithin(merged.properties, h.Keys);
    UpdateClosed(h, s, merged);
    if h[s].allOf == [] then h else h[s := merged]
  }

  /** Prepares one schema. The result is the store afterwards and the set of schemas visited by then. */
  ghost function Prepare(h: Store, s: Schema?, visited: set<Schema>): (r: Walk)
    requires Closed(h) && visited <= h.Keys
    requires s != null ==> s in h
    ensures r.h.Keys == h.Keys && Closed(r.h)
    ensures visited <= r.visited <= h.Keys
    ensures forall v {:trigger r.h[v]} | v in visited :: r.h[v] == h[v]
    ensures forall v {:trigger r.h[v]} | v in h.Keys - r.visited :: r.h[v] == h[v]
    ensures s != null ==> s in r.visited
    decreases h.Keys - visited, 0, 0
  {
    if s == null || s in visited then Walk(h, visited) else
    assert s in h.Keys - visited && s !in h.Keys - (visited + {s});
    var w := ItemsPrepared(Entered(h, s), s, visited + {s});
    MergeParts(w.h, s, w.visited)
  }

  /** Items are prepared only under a schema whose own type is already array. */
  ghost function ItemsPrepared(h: Store, s: Schema, visited: set<Schema>): (r: Walk)
    requires Closed(h) && visited <= h.Keys
    requires s in visited
    ensures r.h.Keys == h.Keys && Closed(r.h)
    ensures visited <= r.visited <= h.Keys
    ensures forall v {:trigger r.h[v]} | v in visited :: r.h[v] == h[v]
    ensures forall v {:trigger r.h[v]} | v in h.Keys - r.visited :: r.h[v] == h[v]
    decreases h.Keys - visited, 1, 0
  {
    assert NodeWithin(h[s], h.Keys);
    if PrimaryType(h[s].types) == "array" then Prepare(h, h[s].items, visited) else Walk(h, visited)
  }

  /** The second half of preparing s: its `allOf` parts, the merge, and its final properties unless the merge was cut. */
  ghost function MergeParts(h: Store, s: Schema, visited: set<Schema>): (r: Walk)
    requires Closed(h) && visited <= h.Keys
    requires s in visited
    ensures r.h.Keys == h.Keys && Closed(r.h)
    ensures visited <= r.visited <= h.Keys
    ensures forall v {:trigger r.h[v]} | v in visited && v != s :: r.h[v] == h[v]
    ensures forall v {:trigger r.h[v]} | v in h.Keys - r.visited :: r.h[v] == h[v]
    decreases h.Keys - visited, 2, 0
  {
    assert NodeWithin(h[s], h.Keys);
    var w := PrepareList(h, s, h[s].allOf, visited);
    var merged := PartsMerged(w.h, s);
    if merged[s].allOf != [] then Walk(merged, w.visited)
    else PrepareList(merged, null, Schemas(merged[s].properties), w.visited)
  }

  /**
   Prepares a list of schemas in order. A schema `heir` without a type of its own takes, as the walk
   goes along, the type of the first listed schema that has one by then.
   */
  ghost function PrepareList(h: Store, heir: Schema?, list: seq<Schema?>, visited: set<Schema>): (r: Walk)
    requires Closed(h) && visited <= h.Keys
    requires Within(list, h.Keys)
    requires heir != null ==> heir in visited
    ensures r.h.Keys == h.Keys && Closed(r.h)
    ensures visited <= r.visited <= h.Keys
    ensures forall v {:trigger r.h[v]} | v in visited && v != heir :: r.h[v] == h[v]
    ensures heir != null ==> r.h[heir] == h[heir].(types := r.h[heir].types)
    ensures forall v {:trigger r.h[v]} | v in h.Keys - r.visited :: r.h[v] == h[v]
    ensures Within(list, r.visited)
    decreases h.Keys - visited, 1, |list|
  {
    if list == [] then Walk(h, visited) else
    var w := Prepare(h, list[0], visited);
    PrepareList(Inherited(w.h, heir, list[0]), heir, list[1..], w.visited)
  }

  // ---- what the walk leaves behind, on any graph --------------------------------------------------

  /** What every schema keeps over the walk; whether its enum holds an array or object is one of these things. */
  predicate Descends(n0: Node, n: Node) {
    && n.allOf in {n0.allOf, []}
    && (n0.allOf == [] ==> n.properties == n0.properties)
    && n0.properties <= n.properties
    && (AllComparable(n.enum) <==> AllComparable(n0.enum))
  }

  /** The links of a schema, as the input has them: its items under the type array, its parts, its properties. */
  ghost predicate LinksWithin(n: Node, u: set<Schema>) {
    && (PrimaryType(n.types) == "array" ==> n.items == null || n.items in u)
    && Within(n.allOf, u) && PropertiesWithin(n.properties, u)
  }

  /** No link of the input leaves the set. */
  ghost predicate LinkClosed(h: Store, u: set<Schema>) {
    u <= h.Keys && forall v {:trigger h[v]} | v in u :: LinksWithin(h[v], u)
  }

  /** The root leads to v: every set that holds the root and that no link leaves holds v. */
  ghost predicate LedTo(h: Store, root: Schema, v: Schema) {
    forall u: set<Schema> | u <= h.Keys && root in u && LinkClosed(h, u) :: v in u
  }

  /** A walk that began in h0, within u, may stand here. */
  ghost predicate Along(h0: Store, h: Store, visited: set<Schema>, u: set<Schema>) {
    && Closed(h0) && Closed(h) && h.Keys == h0.Keys && visited <= u && LinkClosed(h0, u)
    && (forall v {:trigger h[v]} | v in u :: PropertiesWithin(h[v].properties, u))
    && (forall v {:trigger h[v]} | v in visited :: Descends(h0[v], h[v]) && PrimaryType(h[v].types) != "number")
    && (forall v {:trigger h[v]} | v in h.Keys - visited :: h[v] == h0[v])
  }

  /** A part that spoils the merge it goes into: nothing but an enum that holds an array or object. */
  ghost predicate Spoils(h: Store, p: Schema?) {
    p != null && p in h && h[p].allOf == [] && h[p].properties == [] && !AllComparable(h[p].enum)
  }

  /** A schema with parts whose own enum, or such a part, holds an array or object. */
  ghost predicate Spoiled(h: Store, s: Schema)
    requires s in h
  {
    h[s].allOf != [] && (!AllComparable(h[s].enum) || exists p :: p in h[s].allOf && Spoils(h, p))
  }

  ghost predicate PartSpoiled(h: Store, s: Schema, done: set<Schema>)
    requires s in h
  {
    exists p: Schema :: p in h[s].allOf && p in done && p in h && Spoiled(h, p)
  }

  predicate ItemsIn(n0: Node, done: set<Schema>) {
    PrimaryType(n0.types) == "array" ==> n0.items == null || n0.items in done
  }

  /** How the merge at a visited schema ends, judged by the input; its items and parts are visited by then. */
  ghost predicate MergeEnds(h0: Store, n: Node, s: Schema, done: set<Schema>)
    requires s in h0
  {
    && (Spoiled(h0, s) ==> n.allOf != [])
    && (n.allOf != [] ==> Spoiled(h0, s) || PartSpoiled(h0, s, done))
    && ItemsIn(h0[s], done) && Within(h0[s].allOf, done)
  }

  ghost predicate Judged(h0: Store, n: Node, s: Schema, done: set<Schema>)
    requires s in h0
  {
    MergeEnds(h0, n, s, done) && (n.allOf == [] ==> PropertiesWithin(n.properties, done))
  }

  ghost predicate Settled(h0: Store, h: Store, visited: set<Schema>, done: set<Schema>)
    requires done <= h.Keys == h0.Keys
  {
    forall v {:trigger h[v]} | v in done && v !in visited :: Judged(h0, h[v], v, done)
  }

  /** A stretch of the walk, then another that leaves the first stretch alone. */
  lemma SettledThen(h0: Store, h1: Store, h2: Store, visited: set<Schema>, mid: set<Schema>, done: set<Schema>)
    requires mid <= h1.Keys == h0.Keys && mid <= done <= h2.Keys == h0.Keys
    requires Settled(h0, h1, visited, mid) && Settled(h0, h2, mid, done)
    requires forall v {:trigger h2[v]} | v in mid && v !in visited :: h2[v] == h1[v]
    ensures Settled(h0, h2, visited, done)
  {
    forall v {:trigger h2[v]} | v in done && v !in visited ensures Judged(h0, h2[v], v, done) {
      if v in mid {
        assert Judged(h0, h1[v], v, mid);
      }
    }
  }

  lemma EnteredAlong(h0: Store, h: Store, s: Schema, visited: set<Schema>, u: set<Schema>)
    requires Along(h0, h, visited, u) && s in u && s !in visited
    ensures Along(h0, Entered(h, s), visited + {s}, u)
  {
    ConvertedPrimary(h[s].types);
  }

  lemma InheritedAlong(h0: Store, h: Store, heir: Schema?, part: Schema?, done: set<Schema>, u: set<Schema>)
    requires Along(h0, h, done, u) && (heir != null ==> heir in done) && (part != null ==> part in done)
    ensures Along(h0, Inherited(h, heir, part), done, u)
  {
  }

  lemma {:induction false} AdoptedGrows(own: seq<Property>, extra: seq<Property>)
    ensures own <= Adopted(own, extra)
    decreases extra
  {
    if extra != [] {
      AdoptedGrows(if exists p :: p in own && p.name == extra[0].name then own else own + [extra[0]], extra[1..]);
    }
  }

  lemma {:induction false} GatheredEnum(h: Store, parts: seq<Schema?>)
    requires Within(parts, h.Keys)
    ensures AllComparable(Gather(h, parts).enum) <==>
            forall p | p in parts && p != null && h[p].properties == [] :: AllComparable(h[p].enum)
  {
    if parts != [] {
      var init, last := parts[..|parts| - 1], parts[|parts| - 1];
      assert parts == init + [last] && last in parts;
      GatheredEnum(h, init);
      JoinedComparable(Gather(h, init).enum, if last != null && h[last].properties == [] then h[last].enum else []);
    }
  }

  /** The merge at s is cut short where the input has it so: at s itself, or at a part of s. */
  lemma MergeJudged(h0: Store, h: Store, s: Schema, done: set<Schema>, u: set<Schema>)
    requires Along(h0, h, done, u) && s in done && h[s] == h0[s].(types := h[s].types) && Within(h0[s].allOf, done)
    ensures var cut := h0[s].allOf != [] && MergeCut(h, s);
      (Spoiled(h0, s) ==> cut) && (cut ==> Spoiled(h0, s) || PartSpoiled(h0, s, done))
  {
    assert NodeWithin(h[s], h.Keys);
    var parts := h0[s].allOf;
    GatheredEnum(h, parts);
    if AllComparable(h0[s].enum) {
      if p :| p in parts && Spoils(h0, p) {
        assert Descends(h0[p], h[p]) && h[p].properties == [];
      }
      if MergeCut(h, s) {
        var p: Schema :| p in parts && h[p].properties == [] && !AllComparable(h[p].enum);
        assert Descends(h0[p], h[p]);
        assert Spoils(h0, p) || Spoiled(h0, p);
      }
    }
  }

  lemma MergedDescends(h0: Store, h: Store, s: Schema)
    requires Closed(h) && s in h && s in h0 && h[s] == h0[s].(types := h[s].types)
    ensures Descends(h0[s], PartsMerged(h, s)[s])
  {
    assert NodeWithin(h[s], h.Keys);
    var g := Gather(h, h[s].allOf);
    AdoptedGrows(h[s].properties, g.properties);
    JoinedComparable(h[s].enum, g.enum);
    FirstSeenElements(h[s].enum + g.enum, {});
  }

  lemma MergedAlong(h0: Store, h: Store, s: Schema, done: set<Schema>, u: set<Schema>)
    requires Along(h0, h, done, u) && s in done && h[s] == h0[s].(types := h[s].types)
    ensures Along(h0, PartsMerged(h, s), done, u)
  {
    assert NodeWithin(h[s], h.Keys) && LinksWithin(h0[s], u);
    GatherWithin(h, h[s].allOf, u);
    AdoptedWithin(h[s].properties, Gather(h, h[s].allOf).properties, u);
    MergedDescends(h0, h, s);
    var r := PartsMerged(h, s);
    forall v {:trigger r[v]} | v in done ensures Descends(h0[v], r[v]) && PrimaryType(r[v].types) != "number" {
      assert v != s ==> r[v] == h[v];
    }
  }

  lemma PointedAt(properties: seq<Property>, done: set<Schema>)
    requires Within(Schemas(properties), done)
    ensures PropertiesWithin(properties, done)
  {
    forall p | p in properties ensures p.schema == null || p.schema in done {
      var i :| 0 <= i < |properties| && properties[i] == p;
      assert Schemas(properties)[i] == p.schema;
    }
  }

  lemma {:induction false} PrepareSettles(h0: Store, h: Store, s: Schema?, visited: set<Schema>, u: set<Schema>)
    requires Along(h0, h, visited, u) && (s != null ==> s in u)
    ensures var r := Prepare(h, s, visited); Along(h0, r.h, r.visited, u) && Settled(h0, r.h, visited, r.visited)
    decreases h.Keys - visited, 0, 0
  {
    if s != null && s !in visited {
      EnteredAlong(h0, h, s, visited, u);
      assert s in h.Keys - visited && s !in h.Keys - (visited + {s});
      ConvertedPrimary(h[s].types);
      EnteredSettles(h0, Entered(h, s), s, visited + {s}, u);
      var r := Prepare(h, s, visited);
      SettledWith(h0, r.h, s, visited, r.visited);
    }
  }

  lemma SettledWith(h0: Store, h: Store, s: Schema, visited: set<Schema>, done: set<Schema>)
    requires done <= h.Keys == h0.Keys && s in done && Settled(h0, h, visited + {s}, done)
    requires Judged(h0, h[s], s, done)
    ensures Settled(h0, h, visited, done)
  {
  }

  /** Whether the items of s are entered is decided by the input. */
  predicate TypedAlike(n0: Node, n: Node) {
    n == n0.(types := n.types) && (PrimaryType(n.types) == "array" <==> PrimaryType(n0.types) == "array")
  }

  lemma {:induction false} EnteredSettles(h0: Store, h: Store, s: Schema, visited: set<Schema>, u: set<Schema>)
    requires Along(h0, h, visited, u) && s in visited && TypedAlike(h0[s], h[s])
    ensures var w := ItemsPrepared(h, s, visited); var r := MergeParts(w.h, s, w.visited);
      && Along(h0, r.h, r.visited, u) && Settled(h0, r.h, visited, r.visited)
      && Judged(h0, r.h[s], s, r.visited)
    decreases h.Keys - visited, 3, 0
  {
    var w := ItemsPrepared(h, s, visited);
    ItemsPreparedSettles(h0, h, s, visited, u);
    MergePartsSettles(h0, w.h, s, w.visited, u);
    var r := MergeParts(w.h, s, w.visited);
    SettledThen(h0, w.h, r.h, visited, w.visited, r.visited);
  }

  lemma {:induction false} ItemsPreparedSettles(h0: Store, h: Store, s: Schema, visited: set<Schema>, u: set<Schema>)
    requires Along(h0, h, visited, u) && s in visited && TypedAlike(h0[s], h[s])
    ensures var r := ItemsPrepared(h, s, visited);
      Along(h0, r.h, r.visited, u) && Settled(h0, r.h, visited, r.visited) && ItemsIn(h0[s], r.visited)
    decreases h.Keys - visited, 1, 0
  {
    assert NodeWithin(h[s], h.Keys) && LinksWithin(h0[s], u);
    if PrimaryType(h[s].types) == "array" {
      PrepareSettles(h0, h, h[s].items, visited, u);
    }
  }

  lemma {:induction false} MergePartsSettles(h0: Store, h: Store, s: Schema, visited: set<Schema>, u: set<Schema>)
    requires Along(h0, h, visited, u) && s in visited && h[s] == h0[s].(types := h[s].types) && ItemsIn(h0[s], visited)
    ensures var r := MergeParts(h, s, visited);
      && Along(h0, r.h, r.visited, u) && Settled(h0, r.h, visited, r.visited)
      && Judged(h0, r.h[s], s, r.visited)
    decreases h.Keys - visited, 2, 0
  {
    assert NodeWithin(h[s], h.Keys);
    PartsSettle(h0, h, s, visited, u);
    var w := PrepareList(h, s, h[s].allOf, visited);
    var merged := PartsMerged(w.h, s);
    if merged[s].allOf == [] {
      PropertiesSettle(h0, merged, s, w.visited, u);
      var r := PrepareList(merged, null, Schemas(merged[s].properties), w.visited);
      SettledThen(h0, merged, r.h, visited, w.visited, r.visited);
    }
  }

  lemma {:induction false} PartsSettle(h0: Store, h: Store, s: Schema, visited: set<Schema>, u: set<Schema>)
    requires Along(h0, h, visited, u) && s in visited && h[s] == h0[s].(types := h[s].types) && ItemsIn(h0[s], visited)
    requires Within(h[s].allOf, h.Keys)
    ensures var w := PrepareList(h, s, h[s].allOf, visited); var merged := PartsMerged(w.h, s);
      && Along(h0, merged, w.visited, u) && Settled(h0, merged, visited, w.visited)
      && MergeEnds(h0, merged[s], s, w.visited)
    decreases h.Keys - visited, 1, |h[s].allOf| + 1
  {
    assert LinksWithin(h0[s], u);
    var w := PrepareList(h, s, h[s].allOf, visited);
    PrepareListSettles(h0, h, s, h[s].allOf, visited, u);
    MergeJudged(h0, w.h, s, w.visited, u);
    MergedAlong(h0, w.h, s, w.visited, u);
    SettledThen(h0, w.h, PartsMerged(w.h, s), visited, w.visited, w.visited);
  }

  lemma {:induction false} PropertiesSettle(h0: Store, h: Store, s: Schema, visited: set<Schema>, u: set<Schema>)
    requires Along(h0, h, visited, u) && s in visited && Within(Schemas(h[s].properties), h.Keys)
    ensures var r := PrepareList(h, null, Schemas(h[s].properties), visited);
      && Along(h0, r.h, r.visited, u) && Settled(h0, r.h, visited, r.visited)
      && PropertiesWithin(h[s].properties, r.visited)
    decreases h.Keys - visited, 1, |h[s].properties| + 1
  {
    SchemasWithin(h[s].properties, u);
    PrepareListSettles(h0, h, null, Schemas(h[s].properties), visited, u);
    PointedAt(h[s].properties, PrepareList(h, null, Schemas(h[s].properties), visited).visited);
  }

  lemma {:induction false} PrepareListSettles(h0: Store, h: Store, heir: Schema?, list: seq<Schema?>, visited: set<Schema>, u: set<Schema>)
    requires Along(h0, h, visited, u) && Within(list, u) && (heir != null ==> heir in visited)
    ensures var r := PrepareList(h, heir, list, visited); Along(h0, r.h, r.visited, u) && Settled(h0, r.h, visited, r.visited)
    decreases h.Keys - visited, 1, |list|
  {
    if list != [] {
      var w := Prepare(h, list[0], visited);
      PrepareSettles(h0, h, list[0], visited, u);
      var h2 := Inherited(w.h, heir, list[0]);
      InheritedAlong(h0, w.h, heir, list[0], w.visited, u);
      PrepareListSettles(h0, h2, heir, list[1..], w.visited, u);
      RestSettles(h0, w, heir, list, visited);
    }
  }

  /** The rest of a list leaves the first element settled. */
  lemma RestSettles(h0: Store, w: Walk, heir: Schema?, list: seq<Schema?>, visited: set<Schema>)
    requires Closed(w.h) && w.visited <= w.h.Keys == h0.Keys && visited <= w.visited && list != [] && Within(list, w.h.Keys)
    requires (heir != null ==> heir in visited) && (list[0] != null ==> list[0] in w.h)
    requires Settled(h0, w.h, visited, w.visited)
    requires var r := PrepareList(Inherited(w.h, heir, list[0]), heir, list[1..], w.visited); Settled(h0, r.h, w.visited, r.visited)
    ensures var r := PrepareList(Inherited(w.h, heir, list[0]), heir, list[1..], w.visited); Settled(h0, r.h, visited, r.visited)
  {
    var r := PrepareList(Inherited(w.h, heir, list[0]), heir, list[1..], w.visited);
    SettledThen(h0, w.h, r.h, visited, w.visited, r.visited);
  }

  /**
   On any graph: the walk ends, what it did not visit is as before, no schema it visited has `number` as its
   primary type, each keeps all of its allOf or none, and under the final properties of those that keep none
   are only visited schemas.
   */
  lemma GraphPrepared(h: Store, root: Schema)
    requires Closed(h) && root in h
    ensures var r := Prepare(h, root, {});
      && root in r.visited && r.visited <= h.Keys && r.h.Keys == h.Keys
      && (forall v | v in r.visited :: r.h[v].allOf in {h[v].allOf, []} && PrimaryType(r.h[v].types) != "number")
      && (forall v, p | v in r.visited && r.h[v].allOf == [] && p in r.h[v].properties && p.schema != null :: p.schema in r.visited)
      && (forall v {:trigger r.h[v]} | v in h.Keys - r.visited :: r.h[v] == h[v])
  {
    RootSettles(h, root, h.Keys);
  }

  lemma WholeLinkClosed(h: Store)
    requires Closed(h)
    ensures LinkClosed(h, h.Keys)
  {
    forall v {:trigger h[v]} | v in h.Keys ensures LinksWithin(h[v], h.Keys) {
      assert NodeWithin(h[v], h.Keys);
    }
  }

  /** The walk from the root, inside any set that no link leaves. */
  lemma RootSettles(h: Store, root: Schema, u: set<Schema>)
    requires Closed(h) && root in h && (u == h.Keys || (root in u && LinkClosed(h, u)))
    ensures var r := Prepare(h, root, {}); Along(h, r.h, r.visited, u) && Settled(h, r.h, {}, r.visited)
  {
    WholeLinkClosed(h);
    forall v {:trigger h[v]} | v in u ensures PropertiesWithin(h[v].properties, u) {
      assert LinksWithin(h[v], u);
    }
    PrepareSettles(h, h, root, {}, u);
  }

  /** The walk visits only what the root leads to. */
  lemma VisitedLedTo(h: Store, root: Schema)
    requires Closed(h) && root in h
    ensures forall v | v in Prepare(h, root, {}).visited :: LedTo(h, root, v)
  {
    var r := Prepare(h, root, {});
    forall v, u: set<Schema> | v in r.visited && u <= h.Keys && root in u && LinkClosed(h, u) ensures v in u {
      RootSettles(h, root, u);
    }
  }

  /** A walk on which no merge is cut short visits all that the root leads to. */
  lemma ClearedVisitsAll(h: Store, root: Schema)
    requires Closed(h) && root in h
    requires var r := Prepare(h, root, {}); forall v | v in r.visited :: r.h[v].allOf == []
    ensures forall v | v in h && LedTo(h, root, v) :: v in Prepare(h, root, {}).visited
  {
    var r := Prepare(h, root, {});
    RootSettles(h, root, h.Keys);
    forall v {:trigger h[v]} | v in r.visited ensures LinksWithin(h[v], r.visited) {
      assert Judged(h, r.h[v], v, r.visited) && Descends(h[v], r.h[v]);
      assert forall p | p in h[v].properties :: p in r.h[v].properties;
    }
    assert LinkClosed(h, r.visited);
  }

  /** Cleared where it was, by what the walk visits. */
  lemma ClearedWhereVisited(h: Store, root: Schema)
    requires Closed(h) && root in h
    ensures var r := Prepare(h, root, {});
      (forall v | v in r.visited :: r.h[v].allOf == []) <==> (forall v | v in r.visited :: !Spoiled(h, v))
  {
    RootSettles(h, root, h.Keys);
    var r := Prepare(h, root, {});
    forall v | v in r.visited ensures Judged(h, r.h[v], v, r.visited) {
    }
  }

  /**
   Every allOf of what is visited is merged away if and only if nothing that the root leads to, in the input, is a
   schema with parts that has an array or object in its enum, or in the enum of a part that has neither parts nor
   properties.
   */
  lemma AllOfCleared(h: Store, root: Schema)
    requires Closed(h) && root in h
    ensures var r := Prepare(h, root, {});
      (forall v | v in r.visited :: r.h[v].allOf == []) <==> (forall v | v in h && LedTo(h, root, v) :: !Spoiled(h, v))
  {
    ClearedWhereVisited(h, root);
    VisitedLedTo(h, root);
    var r := Prepare(h, root, {});
    if forall v | v in r.visited :: r.h[v].allOf == [] {
      ClearedVisitsAll(h, root);
    }
  }

  /** One schema keeps its allOf exactly when it has one and the list to be merged holds an array or object. */
  lemma KeptExactly(h: Store, s: Schema, visited: set<Schema>)
    requires Closed(h) && visited <= h.Keys && s in h && s !in visited
    ensures NodeWithin(h[s], h.Keys)
    ensures var w := ItemsPrepared(Entered(h, s), s, visited + {s});
      var parts := PrepareList(w.h, s, h[s].allOf, w.visited);
      Prepare(h, s, visited).h[s].allOf ==
        if !AllComparable(h[s].enum + Gather(parts.h, h[s].allOf).enum) then h[s].allOf else []
  {
    assert NodeWithin(h[s], h.Keys);
    var w := ItemsPrepared(Entered(h, s), s, visited + {s});
    var parts := PrepareList(w.h, s, h[s].allOf, w.visited);
    JoinedComparable(h[s].enum, Gather(parts.h, h[s].allOf).enum);
  }

  // ---- the allOf loop -------------------------------------------------------------------------------

  /** After i turns the loop stands at w: what is left to do leads where the whole list would have led. */
  ghost predicate Underway(start: Walk, heir: Schema, parts: seq<Schema?>, i: nat, w: Walk, g: Gathered)
    requires Closed(start.h) && heir in start.visited && start.visited <= start.h.Keys
    requires Within(parts, start.h.Keys) && i <= |parts|
  {
    && Closed(w.h) && w.h.Keys == start.h.Keys && start.visited <= w.visited <= w.h.Keys
    && w.h[heir] == start.h[heir].(types := w.h[heir].types)
    && PrepareList(w.h, heir, parts[i..], w.visited) == PrepareList(start.h, heir, parts, start.visited)
    && Within(parts[..i], w.visited)
    && g == Gather(w.h, parts[..i])
  }

  lemma GatherStep(h: Store, h': Store, heir: Schema, parts: seq<Schema?>, i: nat, done: set<Schema>)
    requires Within(parts, h.Keys) && h'.Keys == h.Keys && i < |parts| && Within(parts[..i], done) && heir in h
    requires forall v {:trigger h'[v]} | v in done && v in h && v != heir :: h'[v] == h[v]
    requires h'[heir] == h[heir].(types := h'[heir].types)
    ensures Within(parts[..i + 1], h.Keys)
    ensures Gather(h', parts[..i + 1]) ==
      if parts[i] == null then Gather(h, parts[..i]) else GatherPart(Gather(h, parts[..i]), h'[parts[i]])
  {
    assert parts[..i + 1][..i] == parts[..i];
    GatherKept(h, h', parts[..i]);
  }

  lemma UnderwayStep(start: Walk, heir: Schema, parts: seq<Schema?>, i: nat, w: Walk, g: Gathered)
    requires Closed(start.h) && heir in start.visited && start.visited <= start.h.Keys
    requires Within(parts, start.h.Keys) && i < |parts| && parts[i] in parts
    requires Underway(start, heir, parts, i, w, g)
    ensures var r := Prepare(w.h, parts[i], w.visited); var h' := Inherited(r.h, heir, parts[i]);
      Underway(start, heir, parts, i + 1, Walk(h', r.visited), if parts[i] == null then g else GatherPart(g, h'[parts[i]]))
  {
    var rest := parts[i..];
    assert rest[0] == parts[i] && rest[1..] == parts[i + 1..];
    var r := Prepare(w.h, parts[i], w.visited);
    var h' := Inherited(r.h, heir, parts[i]);
    assert PrepareList(w.h, heir, rest, w.visited) == PrepareList(h', heir, rest[1..], r.visited);
    GatherStep(w.h, h', heir, parts, i, w.visited);
  }

  // ---- the walk itself ------------------------------------------------------------------------------

  method ConvertNumberToInteger(schema: Schema, ghost u: set<Schema>)
    requires Closed(Snapshot(u)) && schema in u && PrimaryType(schema.types) == "number"
    modifies schema
    ensures Snapshot(u) == Entered(old(Snapshot(u)), schema)
  {
    var was := schema.types;
    for i := 0 to |was|
      invariant |schema.types| == |was|
      invariant schema.View() == old(schema.View()).(types := schema.types)
      invariant forall k | 0 <= k < |was| :: schema.types[k] == if k < i && was[k] == "number" then "integer" else was[k]
    {
      if was[i] == "number" {
        schema.types := schema.types[i := "integer"];
      }
    }
    assert schema.types == Converted(was);
    assert Snapshot(u) == Entered(old(Snapshot(u)), schema);
  }

  /** Prepares a schema in place. `u` is any set of schemas that no reference leaves. */
  method PrepareSchemaForCRD(schema: Schema?, ghost u: set<Schema>, visited: set<Schema>) returns (visited': set<Schema>)
    requires Closed(Snapshot(u)) && visited <= u && (schema != null ==> schema in u)
    modifies u
    ensures Walk(Snapshot(u), visited') == Prepare(old(Snapshot(u)), schema, visited)
    decreases u - visited, 0, 0
  {
    visited' := visited;
    if schema == null || schema in visited {
      return;
    }
    visited' := visited + {schema};
    assert schema in u - visited && schema !in u - visited';
    if PrimaryType(schema.types) == "number" {
      ConvertNumberToInteger(schema, u);
    }
    assert Snapshot(u) == Entered(old(Snapshot(u)), schema);
    visited' := PrepareItems(schema, u, visited');
    visited' := MergeAllOf(schema, u, visited');
  }

  method PrepareItems(schema: Schema, ghost u: set<Schema>, visited: set<Schema>) returns (visited': set<Schema>)
    requires Closed(Snapshot(u)) && schema in visited && visited <= u
    modifies u
    ensures Walk(Snapshot(u), visited') == ItemsPrepared(old(Snapshot(u)), schema, visited)
    decreases u - visited, 1, 0
  {
    visited' := visited;
    assert NodeWithin(Snapshot(u)[schema], u);
    if PrimaryType(schema.types) == "array" && schema.items != null {
      visited' := PrepareSchemaForCRD(schema.items, u, visited);
    }
  }

  method MergeAllOf(schema: Schema, ghost u: set<Schema>, visited: set<Schema>) returns (visited': set<Schema>)
    requires Closed(Snapshot(u)) && schema in visited && visited <= u
    modifies u
    ensures Walk(Snapshot(u), visited') == MergeParts(old(Snapshot(u)), schema, visited)
    decreases u - visited, 3, 0
  {
    visited' := visited;
    assert NodeWithin(Snapshot(u)[schema], u);
    if |schema.allOf| > 0 {
      var recovered;
      visited', recovered := MergeAllOfParts(schema, u, visited);
      if recovered {
        return;
      }
    }
    visited' := PrepareProperties(schema.properties, u, visited');
  }

  method PrepareProperties(properties: seq<Property>, ghost u: set<Schema>, visited: set<Schema>) returns (visited': set<Schema>)
    requires Closed(Snapshot(u)) && visited <= u && Within(Schemas(properties), u)
    modifies u
    ensures Walk(Snapshot(u), visited') == PrepareList(old(Snapshot(u)), null, Schemas(properties), visited)
    decreases u - visited, 2, 0
  {
    visited' := visited;
    ghost var list := Schemas(properties);
    for i := 0 to |properties|
      invariant Closed(Snapshot(u)) && visited <= visited' <= u
      invariant PrepareList(Snapshot(u), null, list[i..], visited') == PrepareList(old(Snapshot(u)), null, list, visited)
    {
      assert list[i..][1..] == list[i + 1..] && list[i] in list;
      visited' := PrepareSchemaForCRD(properties[i].schema, u, visited');
    }
  }

  /**
   The allOf loop: prepares the parts one by one, inheriting a type on the way, then merges them. A merge that
   panics is recovered from: the call ends there, as if it had succeeded.
   */
  method MergeAllOfParts(schema: Schema, ghost u: set<Schema>, visited: set<Schema>)
    returns (visited': set<Schema>, recovered: bool)
    requires Closed(Snapshot(u)) && schema in visited && visited <= u
    requires schema.allOf != [] && Within(schema.allOf, u)
    modifies u
    ensures var w := PrepareList(old(Snapshot(u)), schema, old(schema.allOf), visited);
      visited' == w.visited && Snapshot(u) == PartsMerged(w.h, schema) && recovered == MergeCut(w.h, schema)
    decreases u - visited, 1, |schema.allOf|
  {
    visited' := visited;
    ghost var h := Snapshot(u);
    var parts := schema.allOf;
    var gathered := Gathered([], [], []);
    for i := 0 to |parts|
      invariant Underway(Walk(h, visited), schema, parts, i, Walk(Snapshot(u), visited'), gathered)
    {
      ghost var w, g := Walk(Snapshot(u), visited'), gathered;
      assert parts[i] in parts;
      visited' := PreparePart(schema, parts[i], u, visited');
      if parts[i] != null {
        gathered := GatherFrom(parts[i], gathered);
      }
      UnderwayStep(Walk(h, visited), schema, parts, i, w, g);
    }
    assert parts[..|parts|] == parts;
    recovered := MergeInto(schema, u, gathered);
  }

  /** One turn of the allOf loop, up to the point where the part's content is collected. */
  method PreparePart(schema: Schema, part: Schema?, ghost u: set<Schema>, visited: set<Schema>) returns (visited': set<Schema>)
    requires Closed(Snapshot(u)) && schema in visited && visited <= u && (part != null ==> part in u)
    modifies u
    ensures var w := Prepare(old(Snapshot(u)), part, visited);
      visited' == w.visited && Snapshot(u) == Inherited(w.h, schema, part)
    decreases u - visited, 1, 0
  {
    visited' := PrepareSchemaForCRD(part, u, visited);
    label prepared:
    if part != null && |schema.types| == 0 && |part.types| > 0 {
      schema.types := part.types;
    }
    assert Snapshot(u) == Inherited(old@prepared(Snapshot(u)), schema, part);
  }

  method GatherFrom(part: Schema, gathered: Gathered) returns (g: Gathered)
    ensures g == GatherPart(gathered, part.View())
  {
    g := Gathered(gathered.properties + part.properties, gathered.required + part.required, gathered.enum);
    if |part.enum| > 0 && |part.properties| == 0 {
      g := g.(enum := g.enum + part.enum);
    }
  }

  method MergeInto(schema: Schema, ghost u: set<Schema>, gathered: Gathered) returns (recovered: bool)
    requires Closed(Snapshot(u)) && schema in u && schema.allOf != [] && Within(schema.allOf, u)
    requires gathered == Gather(Snapshot(u), schema.allOf)
    modifies schema
    ensures Snapshot(u) == PartsMerged(old(Snapshot(u)), schema) && recovered == MergeCut(old(Snapshot(u)), schema)
  {
    AdoptProperties(schema, gathered.properties);
    schema.required := DedupeFirstSeen(schema.required, gathered.required);
    var enum := DedupeValuesFirstSeen(schema.enum, gathered.enum);
    recovered := enum.None?;
    if !recovered {
      schema.enum, schema.allOf := enum.value, [];
    }
    assert schema.View() == Merged(old(schema.View()), gathered);
    assert Snapshot(u) == PartsMerged(old(Snapshot(u)), schema);
  }

  method AdoptProperties(schema: Schema, properties: seq<Property>)
    modifies schema
    ensures schema.View() == old(schema.View()).(properties := Adopted(old(schema.properties), properties))
  {
    var index: map<string, nat> := map[];
    for i := 0 to |schema.properties|
      invariant forall name :: name in index <==> exists p :: p in schema.properties[..i] && p.name == name
    {
      index := index[schema.properties[i].name := i];
    }
    assert schema.properties[..|schema.properties|] == schema.properties;
    for i := 0 to |properties|
      invariant schema.View() == old(schema.View()).(properties := schema.properties)
      invariant forall name :: name in index <==> exists p :: p in schema.properties && p.name == name
      invariant Adopted(schema.properties, properties[i..]) == Adopted(old(schema.properties), properties)
    {
      assert properties[i..][1..] == properties[i + 1..];
      if properties[i].name !in index {
        index := index[properties[i].name := |schema.properties|];
        schema.properties := schema.properties + [properties[i]];
      }
    }
  }
}
