/** The schema object graph of the generator: nodes that point at each other, possibly in cycles. */
module SchemaGraph {
  import opened Json
  import opened Lists

  datatype Property = Property(name: string, schema: Schema?)

  /** What one schema object holds. */
  datatype Node = Node(
    types: seq<string>,
    properties: seq<Property>,
    items: Schema?,
    allOf: seq<Schema?>,
    required: seq<string>,
    enum: seq<Json>)

  class Schema {
    var types: seq<string>
    var properties: seq<Property>
    var items: Schema?
    var allOf: seq<Schema?>
    var required: seq<string>
    var enum: seq<Json>

    constructor (types: seq<string>)
      ensures View() == Node(types, [], null, [], [], [])
    {
      this.types, properties, items, allOf, required, enum := types, [], null, [], [], [];
    }

    function View(): Node
      reads this
    {
      Node(types, properties, items, allOf, required, enum)
    }
  }

  /** The contents of every object of a set, as a value. */
  type Store = map<Schema, Node>

  ghost function Snapshot(u: set<Schema>): (h: Store)
    reads u
    ensures h.Keys == u
  {
    map s | s in u :: s.View()
  }

  function Schemas(properties: seq<Property>): seq<Schema?> {
    seq(|properties|, i requires 0 <= i < |properties| => properties[i].schema)
  }

  ghost predicate Within(list: seq<Schema?>, u: set<Schema>) {
    forall s | s in list :: s == null || s in u
  }

  ghost predicate PropertiesWithin(list: seq<Property>, u: set<Schema>) {
    forall p | p in list :: p.schema == null || p.schema in u
  }

  ghost predicate NodeWithin(n: Node, u: set<Schema>) {
    (n.items == null || n.items in u) && Within(n.allOf, u) && PropertiesWithin(n.properties, u)
  }

  /** No reference leaves the store. */
  ghost predicate Closed(h: Store) {
    forall s {:trigger NodeWithin(h[s], h.Keys)} | s in h :: NodeWithin(h[s], h.Keys)
  }

  lemma SchemasWithin(list: seq<Property>, u: set<Schema>)
    requires PropertiesWithin(list, u)
    ensures Within(Schemas(list), u)
  {
    forall s | s in Schemas(list) ensures s == null || s in u {
      var i :| 0 <= i < |list| && Schemas(list)[i] == s;
      assert list[i] in list;
    }
  }

  lemma UpdateClosed(h: Store, s: Schema, n: Node)
    requires Closed(h) && s in h && NodeWithin(n, h.Keys)
    ensures h[s := n].Keys == h.Keys && Closed(h[s := n])
  {
    assert h[s := n].Keys == h.Keys;
  }

  /** The first type that is not "null", or "" when there is none. */
  function PrimaryType(types: seq<string>): string {
    if types == [] then ""
    else if types[0] != "null" then types[0]
    else PrimaryType(types[1..])
  }

  predicate TypesCompatible(types1: seq<string>, types2: seq<string>) {
    PrimaryType(types1) == PrimaryType(types2)
  }

  /** A type list whose primary type is "number" has every "number" in it replaced by "integer". */
  function Converted(types: seq<string>): seq<string> {
    if PrimaryType(types) == "number"
    then seq(|types|, i requires 0 <= i < |types| => if types[i] == "number" then "integer" else types[i])
    else types
  }

  lemma {:induction false} ConvertedPrimary(types: seq<string>)
    ensures PrimaryType(Converted(types)) == if PrimaryType(types) == "number" then "integer" else PrimaryType(types)
  {
    if types != [] && types[0] == "null" {
      ConvertedPrimary(types[1..]);
      if PrimaryType(types) == "number" {
        var c, rest := Converted(types), Converted(types[1..]);
        assert c[0] == "null" && |c| == 1 + |rest|;
        assert forall k | 0 <= k < |rest| :: c[1..][k] == rest[k];
        assert c[1..] == rest;
      }
    }
  }

  /** The first type other than "null" is this one. */
  ghost predicate LeadingType(types: seq<string>, t: string) {
    exists i: nat :: i < |types| && types[i] == t && t != "null" && forall j | 0 <= j < i :: types[j] == "null"
  }

  lemma {:induction false} PrimaryLeads(types: seq<string>, t: string)
    requires t != ""
    ensures PrimaryType(types) == t <==> LeadingType(types, t)
  {
    if types != [] && types[0] == "null" {
      PrimaryLeads(types[1..], t);
      if LeadingType(types, t) {
        var i: nat :| i < |types| && types[i] == t && forall j | 0 <= j < i :: types[j] == "null";
        assert types[1..][i - 1] == t && forall j | 0 <= j < i - 1 :: types[1..][j] == types[j + 1];
      }
      if LeadingType(types[1..], t) {
        var i: nat :| i < |types| - 1 && types[1..][i] == t && forall j | 0 <= j < i :: types[1..][j] == "null";
        assert types[i + 1] == t && forall j | 0 < j < i + 1 :: types[j] == types[1..][j - 1];
      }
    } else if types != [] && t == types[0] {
      assert LeadingType(types, t);
    }
  }

  /** Where "number" leads, every "number" is "integer" afterwards; nothing else changes. */
  lemma ConvertedExactly(types: seq<string>)
    ensures var r := Converted(types);
      |r| == |types| && forall i | 0 <= i < |r| ::
        r[i] == if types[i] == "number" && LeadingType(types, "number") then "integer" else types[i]
  {
    PrimaryLeads(types, "number");
  }

  /** The elements of s that are not in seen, each once, in order of first appearance. */
  function FirstSeen<T(==)>(s: seq<T>, seen: set<T>): seq<T> {
    if s == [] then []
    else if s[0] in seen then FirstSeen(s[1..], seen)
    else [s[0]] + FirstSeen(s[1..], seen + {s[0]})
  }

  predicate NoDuplicates<T(==)>(s: seq<T>) {
    forall i, j | 0 <= i < j < |s| :: s[i] != s[j]
  }

  /** De-duplication keeps the elements, drops every repeat, and leaves a repeat-free list alone. */
  lemma {:induction false} FirstSeenElements<T>(s: seq<T>, seen: set<T>)
    ensures forall x :: x in FirstSeen(s, seen) <==> x in s && x !in seen
    ensures NoDuplicates(FirstSeen(s, seen))
    ensures NoDuplicates(s) && (forall x | x in s :: x !in seen) ==> FirstSeen(s, seen) == s
  {
    if s != [] {
      FirstSeenElements(s[1..], if s[0] in seen then seen else seen + {s[0]});
    }
  }

  /** De-duplication keeps each element where it appears first, and the order. */
  lemma {:induction false} FirstSeenSelects<T>(s: seq<T>, seen: set<T>)
    ensures FirstSeen(s, seen) == Select(s, Unseen(s, seen))
  {
    if s != [] {
      var more := if s[0] in seen then seen else seen + {s[0]};
      FirstSeenSelects(s[1..], more);
      UnseenNext(s, seen);
      SelectBefore(s[0], s[1..], Unseen(s[1..], more), Unseen(s, seen));
      assert [s[0]] + s[1..] == s;
    }
  }

  ghost function Unseen<T>(s: seq<T>, seen: set<T>): set<nat> {
    set k: nat | k < |s| && s[k] !in s[..k] && s[k] !in seen
  }

  lemma UnseenNext<T>(s: seq<T>, seen: set<T>)
    requires s != []
    ensures var more := if s[0] in seen then seen else seen + {s[0]};
      forall k: nat | k < |s| - 1 :: k + 1 in Unseen(s, seen) <==> k in Unseen(s[1..], more)
  {
    forall k: nat | k < |s| - 1 ensures s[k + 1] in s[..k + 1] <==> s[k + 1] == s[0] || s[1..][k] in s[1..][..k] {
      assert s[..k + 1] == [s[0]] + s[1..][..k];
    }
  }

  /** The values that can be keys of a Go map: an array or object read from a document cannot. */
  predicate Comparable(v: Json) {
    !v.JArr? && !v.JObj?
  }

  predicate AllComparable(values: seq<Json>) {
    forall v | v in values :: Comparable(v)
  }

  lemma JoinedComparable(a: seq<Json>, b: seq<Json>)
    ensures AllComparable(a + b) <==> AllComparable(a) && AllComparable(b)
  {
    assert forall v :: v in a + b <==> v in a || v in b;
  }

  lemma FirstSeenNext<T>(s: seq<T>, i: nat, seen: set<T>)
    requires i < |s|
    ensures FirstSeen(s[i..], seen) ==
      if s[i] in seen then FirstSeen(s[i + 1..], seen) else [s[i]] + FirstSeen(s[i + 1..], seen + {s[i]})
  {
    assert s[i..][1..] == s[i + 1..];
  }

  /** De-duplication of strings, over the concatenation of the lists. */
  method DedupeFirstSeen<T(==)>(a: seq<T>, b: seq<T>) returns (out: seq<T>)
    ensures out == FirstSeen(a + b, {})
    ensures NoDuplicates(out) && forall x :: x in out <==> x in a || x in b
  {
    out := [];
    var seen, all := {}, a + b;
    for i := 0 to |all|
      invariant FirstSeen(all, {}) == out + FirstSeen(all[i..], seen)
    {
      FirstSeenNext(all, i, seen);
      if all[i] !in seen {
        seen := seen + {all[i]};
        out := out + [all[i]];
      }
    }
    FirstSeenElements(all, {});
  }

  /** De-duplication of enum values, with every value a map key: None stands for the panic. */
  method DedupeValuesFirstSeen(a: seq<Json>, b: seq<Json>) returns (out: Option<seq<Json>>)
    ensures out.Some? <==> AllComparable(a) && AllComparable(b)
    ensures out.Some? ==> out.value == FirstSeen(a + b, {})
    ensures out.Some? ==> NoDuplicates(out.value) && forall v :: v in out.value <==> v in a || v in b
  {
    var values, seen, all := [], {}, a + b;
    JoinedComparable(a, b);
    for i := 0 to |all|
      invariant FirstSeen(all, {}) == values + FirstSeen(all[i..], seen)
      invariant AllComparable(all[..i])
    {
      FirstSeenNext(all, i, seen);
      assert all[..i + 1] == all[..i] + [all[i]];
      if !Comparable(all[i]) {
        return None;
      }
      if all[i] !in seen {
        seen := seen + {all[i]};
        values := values + [all[i]];
      }
    }
    assert all[..|all|] == all;
    FirstSeenElements(all, {});
    out := Some(values);
  }
}
