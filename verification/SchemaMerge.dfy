/**
 What the merge of `allOf` leaves at each schema of any graph, said on the contents of the schema and of its parts:
 which types, properties, required names and enum values, and in which order.
 */
module SchemaMerge {
  import opened Json
  import opened Lists
  import opened SchemaGraph
  import opened PrepareSchema

  // ---- the lists that are merged ------------------------------------------------------------------------

  ghost function RequiredOf(m: Store, parts: seq<Schema?>): seq<seq<string>>
    requires Within(parts, m.Keys)
  {
    seq(|parts|, i requires 0 <= i < |parts| => if parts[i] == null || parts[i] !in m then [] else m[parts[i]].required)
  }

  /** Only a part without properties brings its enum. */
  ghost function EnumsOf(m: Store, parts: seq<Schema?>): seq<seq<Json>>
    requires Within(parts, m.Keys)
  {
    seq(|parts|, i requires 0 <= i < |parts| =>
      if parts[i] == null || parts[i] !in m || m[parts[i]].properties != [] then [] else m[parts[i]].enum)
  }

  ghost function PropertiesOf(m: Store, parts: seq<Schema?>): seq<seq<Property>>
    requires Within(parts, m.Keys)
  {
    seq(|parts|, i requires 0 <= i < |parts| => if parts[i] == null || parts[i] !in m then [] else m[parts[i]].properties)
  }

  lemma {:induction false} GatherJoins(m: Store, parts: seq<Schema?>)
    requires Within(parts, m.Keys)
    ensures var g := Gather(m, parts);
      && g.properties == Joined(PropertiesOf(m, parts)) && g.required == Joined(RequiredOf(m, parts))
      && g.enum == Joined(EnumsOf(m, parts))
  {
    if parts != [] {
      var n := |parts| - 1;
      var init, p := parts[..n], parts[n];
      assert p in parts;
      GatherJoins(m, init);
      ListsNext(m, parts);
      assert Gather(m, parts) == if p == null then Gather(m, init) else GatherPart(Gather(m, init), m[p]);
    }
  }

  lemma ListsNext(m: Store, parts: seq<Schema?>)
    requires Within(parts, m.Keys) && parts != []
    ensures var n := |parts| - 1; var p := parts[n];
      && Joined(PropertiesOf(m, parts)) == Joined(PropertiesOf(m, parts[..n])) + (if p == null then [] else m[p].properties)
      && Joined(RequiredOf(m, parts)) == Joined(RequiredOf(m, parts[..n])) + (if p == null then [] else m[p].required)
      && Joined(EnumsOf(m, parts)) == Joined(EnumsOf(m, parts[..n])) + (if p == null || m[p].properties != [] then [] else m[p].enum)
  {
    var n := |parts| - 1;
    assert parts[n] in parts;
    assert PropertiesOf(m, parts)[..n] == PropertiesOf(m, parts[..n]);
    assert RequiredOf(m, parts)[..n] == RequiredOf(m, parts[..n]);
    assert EnumsOf(m, parts)[..n] == EnumsOf(m, parts[..n]);
  }

  /** Where a name stands for the first time that no property of `own` has. */
  ghost function NewNames(own: seq<Property>, extra: seq<Property>): set<nat> {
    set k: nat | k < |extra| && !Named(own, extra[k].name) && !Named(extra[..k], extra[k].name)
  }

  ghost predicate Named(properties: seq<Property>, name: string) {
    exists i :: 0 <= i < |properties| && properties[i].name == name
  }

  lemma {:induction false} AdoptedSelects(own: seq<Property>, extra: seq<Property>)
    ensures Adopted(own, extra) == own + Select(extra, NewNames(own, extra))
    decreases extra
  {
    if extra != [] {
      AdoptedNext(own, extra);
      AdoptedSelects(if Named(own, extra[0].name) then own else own + [extra[0]], extra[1..]);
      SelectNext(own, extra);
    }
  }

  lemma SelectNext(own: seq<Property>, extra: seq<Property>)
    requires extra != []
    ensures var more := if Named(own, extra[0].name) then own else own + [extra[0]];
      own + Select(extra, NewNames(own, extra)) == more + Select(extra[1..], NewNames(more, extra[1..]))
  {
    var more := if Named(own, extra[0].name) then own else own + [extra[0]];
    var rest := Select(extra[1..], NewNames(more, extra[1..]));
    NewNamesNext(own, extra);
    SelectBefore(extra[0], extra[1..], NewNames(more, extra[1..]), NewNames(own, extra));
    assert [extra[0]] + extra[1..] == extra;
    var first := if 0 in NewNames(own, extra) then [extra[0]] else [];
    FirstNew(own, extra);
    Regrouped(own, first, rest);
  }

  lemma FirstNew(own: seq<Property>, extra: seq<Property>)
    requires extra != []
    ensures 0 in NewNames(own, extra) <==> !Named(own, extra[0].name)
  {
    assert !Named(extra[..0], extra[0].name);
  }

  lemma Regrouped(own: seq<Property>, first: seq<Property>, rest: seq<Property>)
    ensures own + (first + rest) == (own + first) + rest
    ensures own + [] == own
  {
  }

  lemma AdoptedNext(own: seq<Property>, extra: seq<Property>)
    requires extra != []
    ensures Adopted(own, extra) == Adopted(if Named(own, extra[0].name) then own else own + [extra[0]], extra[1..])
  {
    assert Named(own, extra[0].name) <==> exists p :: p in own && p.name == extra[0].name;
  }

  lemma NewNamesNext(own: seq<Property>, extra: seq<Property>)
    requires extra != []
    ensures var more := if Named(own, extra[0].name) then own else own + [extra[0]];
      forall k: nat | k < |extra| - 1 :: k + 1 in NewNames(own, extra) <==> k in NewNames(more, extra[1..])
  {
    var more := if Named(own, extra[0].name) then own else own + [extra[0]];
    forall k: nat | k < |extra| - 1 ensures k + 1 in NewNames(own, extra) <==> k in NewNames(more, extra[1..]) {
      var name := extra[k + 1].name;
      assert extra[..k + 1] == [extra[0]] + extra[1..][..k];
      NamedAfter(extra[0], extra[1..][..k], name);
      NamedBefore(own, extra[0], name);
    }
  }

  lemma NamedAfter(p: Property, rest: seq<Property>, name: string)
    ensures Named([p] + rest, name) <==> p.name == name || Named(rest, name)
  {
    var all := [p] + rest;
    if p.name == name { assert all[0].name == name; }
    if i :| 0 <= i < |rest| && rest[i].name == name { assert all[i + 1].name == name; }
  }

  lemma NamedBefore(own: seq<Property>, p: Property, name: string)
    ensures Named(own + [p], name) <==> p.name == name || Named(own, name)
  {
    var all := own + [p];
    if p.name == name { assert all[|own|].name == name; }
    if i :| 0 <= i < |own| && own[i].name == name { assert all[i].name == name; }
  }

  // ---- one merge ----------------------------------------------------------------------------------------

  /** The types of the first part that has any. */
  ghost predicate FirstTypes(m: Store, parts: seq<Schema?>, types: seq<string>) {
    (types == [] || Typed(m, parts, |parts|, types))
    && forall k | 0 <= k < |parts| && types == [] :: NoTypes(m, parts[k])
  }

  predicate NoTypes(m: Store, p: Schema?) {
    p == null || p !in m || m[p].types == []
  }

  ghost predicate Typed(m: Store, parts: seq<Schema?>, n: nat, types: seq<string>)
    requires n <= |parts|
  {
    exists k: nat :: k < n && !NoTypes(m, parts[k]) && m[parts[k]].types == types && forall j | 0 <= j < k :: NoTypes(m, parts[j])
  }

  /**
   What is left of a schema n0 whose parts have the content m: its own types or else the first its parts have; its
   own properties, then those of its parts whose name is new; the required names, and the enum, of it and of its parts,
   without repeats. Where an array or object is in the enum to be, enum and parts stay.
   */
  ghost predicate MergeOf(n0: Node, n: Node, m: Store) {
    && n.items == n0.items && Within(n0.allOf, m.Keys)
    && if n0.allOf == [] then n == n0.(types := Converted(n0.types)) else
         && (if n0.types != [] then n.types == Converted(n0.types) else FirstTypes(m, n0.allOf, n.types))
         && (var all := Joined(PropertiesOf(m, n0.allOf)); n.properties == n0.properties + Select(all, NewNames(n0.properties, all)))
         && n.required == Deduplicated(n0.required + Joined(RequiredOf(m, n0.allOf)))
         && (var all := n0.enum + Joined(EnumsOf(m, n0.allOf));
             if AllComparable(all) then n.enum == Deduplicated(all) && n.allOf == [] else n.enum == n0.enum && n.allOf == n0.allOf)
  }

  lemma NoneUnseen<T>(all: seq<T>)
    ensures FirstSeen(all, {}) == Deduplicated(all)
  {
    FirstSeenSelects(all, {});
    SelectAlike(all, Unseen(all, {}), Firsts(all));
  }

  lemma MergedOf(h: Store, s: Schema, n0: Node)
    requires Closed(h) && s in h && h[s] == n0.(types := h[s].types) && Within(n0.allOf, h.Keys)
    requires if n0.allOf == [] || n0.types != [] then h[s].types == Converted(n0.types) else FirstTypes(h, n0.allOf, h[s].types)
    ensures MergeOf(n0, PartsMerged(h, s)[s], h)
  {
    var g := Gather(h, n0.allOf);
    GatherJoins(h, n0.allOf);
    AdoptedSelects(n0.properties, g.properties);
    NoneUnseen(n0.required + g.required);
    NoneUnseen(n0.enum + g.enum);
    JoinedComparable(n0.enum, g.enum);
  }

  // ---- the types a list hands on ------------------------------------------------------------------------

  lemma {:induction false} ListTypes(h: Store, heir: Schema, list: seq<Schema?>, visited: set<Schema>)
    requires Closed(h) && visited <= h.Keys && Within(list, h.Keys) && heir in visited
    ensures var r := PrepareList(h, heir, list, visited);
      if h[heir].types != [] then r.h[heir].types == h[heir].types else FirstTypes(r.h, list, r.h[heir].types)
    decreases |list|
  {
    if list != [] {
      assert list[0] in list;
      var w := Prepare(h, list[0], visited);
      var h2 := Inherited(w.h, heir, list[0]);
      ListTypes(h2, heir, list[1..], w.visited);
      if h[heir].types == [] {
        var r := PrepareList(h, heir, list, visited);
        assert r == PrepareList(h2, heir, list[1..], w.visited);
        TypesNext(h2, r.h, heir, list);
      }
    }
  }

  lemma TypesNext(h: Store, m: Store, heir: Schema, list: seq<Schema?>)
    requires list != [] && heir in h && heir in m && (list[0] != null ==> list[0] in h && list[0] in m)
    requires list[0] != null && list[0] != heir ==> m[list[0]] == h[list[0]]
    requires list[0] == null || list[0] == heir ==> h[heir].types == []
    requires list[0] != null ==> h[heir].types == h[list[0]].types
    requires if h[heir].types != [] then m[heir].types == h[heir].types else FirstTypes(m, list[1..], m[heir].types)
    ensures FirstTypes(m, list, m[heir].types)
  {
    var types := m[heir].types;
    if h[heir].types != [] {
      assert !NoTypes(m, list[0]);
      assert Typed(m, list, |list|, types);
    } else if types != [] {
      var k: nat :| k < |list| - 1 && !NoTypes(m, list[1..][k]) && m[list[1..][k]].types == types
        && forall j | 0 <= j < k :: NoTypes(m, list[1..][j]);
      if list[0] == heir {
        assert Typed(m, list, |list|, types) by { assert !NoTypes(m, list[0]); }
      } else {
        assert list[k + 1] == list[1..][k];
        forall j | 0 <= j < k + 1 ensures NoTypes(m, list[j]) {
          assert j > 0 ==> list[j] == list[1..][j - 1];
        }
        assert Typed(m, list, |list|, types);
      }
    } else {
      forall k | 0 <= k < |list| ensures NoTypes(m, list[k]) {
        assert k > 0 ==> list[k] == list[1..][k - 1];
      }
    }
  }
}
