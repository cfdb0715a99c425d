/** The allowlist applied in place, on the schema objects. */
module RetainSpecFields {
  import opened Json
  import opened SchemaGraph
  import opened SchemaTree
  import opened SchemaRefinement
  import opened IncludeTree
  import opened IncludedSpecFields

  // ---- does a declared field exist? -------------------------------------------------------------------

  /** Follows a path of property names; at each level only the first property of a name counts. */
  predicate FieldExists(list: seq<Entry>, p: Path)
    decreases list
  {
    p != [] && list != [] &&
    if list[0].name != p[0] then FieldExists(list[1..], p)
    else |p| == 1 || (list[0].tree.Some? && FieldExists(list[0].tree.value.properties, p[1..]))
  }

  lemma {:induction false} FieldExistsHasPath(list: seq<Entry>, p: Path)
    requires FieldExists(list, p)
    ensures ListHasPath(list, p)
    decreases list
  {
    if list[0].name != p[0] {
      FieldExistsHasPath(list[1..], p);
    } else if |p| > 1 {
      FieldExistsHasPath(list[0].tree.value.properties, p[1..]);
    }
  }

  /** Every declared field that exists is still there after pruning. */
  lemma DeclaredFieldsSurvive(t: Tree, marks: map<Path, bool>, declared: set<Path>, kept: AlwaysKept, p: Path)
    requires Spells(marks, declared) && [] !in declared && p in declared && FieldExists(t.properties, p)
    ensures HasPath(Pruned(t, marks, [], kept), p)
  {
    FieldExistsHasPath(t.properties, p);
    PrunedPaths(t, marks, declared, kept, p);
    assert Prefix(p, p);
  }

  method FieldExistsAtPath(schema: Schema?, segments: Path, ghost t: Option<Tree>, ghost h: Store) returns (found: bool)
    requires schema == Id(t) && (t.Some? ==> Holds(h, t.value))
    requires forall s | s in h :: h[s] == s.View()
    ensures found == (t.Some? && FieldExists(t.value.properties, segments))
    decreases |segments|
  {
    if schema == null || |segments| == 0 {
      return false;
    }
    ghost var list := t.value.properties;
    SamePropertyCount(list);
    for i := 0 to |schema.properties|
      invariant ListHolds(h, list[i..])
      invariant FieldExists(list, segments) == FieldExists(list[i..], segments)
    {
      PropertyAt(h, list, i);
      assert list[i..][0] == list[i] && list[i..][1..] == list[i + 1..];
      if schema.properties[i].name == segments[0] {
        if |segments| == 1 {
          return true;
        }
        found := FieldExistsAtPath(schema.properties[i].schema, segments[1..], list[i].tree, h);
        return;
      }
    }
    found := false;
  }

  lemma {:induction false} SamePropertyCount(list: seq<Entry>)
    ensures |PropertiesOf(list)| == |list|
  {
    if list != [] {
      SamePropertyCount(list[1..]);
    }
  }

  lemma {:induction false} PropertyAt(h: Store, list: seq<Entry>, i: nat)
    requires i < |list| && ListHolds(h, list[i..])
    ensures |PropertiesOf(list)| == |list|
    ensures PropertiesOf(list)[i] == Property(list[i].name, Id(list[i].tree))
    ensures list[i].tree.Some? ==> Holds(h, list[i].tree.value)
  {
    SamePropertyCount(list);
    if i > 0 {
      assert list[1..][i - 1..] == list[i..];
      PropertyAt(h, list[1..], i - 1);
    }
  }

  // ---- pruning in place -------------------------------------------------------------------------------

  lemma {:induction false} PrunedIds(t: Tree, marks: map<Path, bool>, at: Path, kept: AlwaysKept)
    ensures Ids(Pruned(t, marks, at, kept)) <= Ids(t)
    decreases t, 1
  {
    PrunedListIds(t.properties, marks, at, kept);
  }

  lemma {:induction false} PrunedListIds(list: seq<Entry>, marks: map<Path, bool>, at: Path, kept: AlwaysKept)
    ensures ListIds(PrunedList(list, marks, at, kept)) <= ListIds(list)
    decreases list, 0
  {
    if list != [] {
      var e := list[0];
      PrunedListIds(list[1..], marks, at, kept);
      ListIdsSplit(PrunedEntry(e, marks, at, kept), PrunedList(list[1..], marks, at, kept));
      if e.tree.Some? {
        PrunedIds(e.tree.value, marks, at + [e.name], kept);
      }
      var first := PrunedEntry(e, marks, at, kept);
      assert first != [] ==> first[1..] == [];
    }
  }

  lemma {:induction false} PrunedSplit(a: seq<Entry>, b: seq<Entry>, marks: map<Path, bool>, at: Path, kept: AlwaysKept)
    ensures PrunedList(a + b, marks, at, kept) == PrunedList(a, marks, at, kept) + PrunedList(b, marks, at, kept)
  {
    if a == [] {
      assert a + b == b;
    } else {
      assert (a + b)[0] == a[0] && (a + b)[1..] == a[1..] + b;
      PrunedSplit(a[1..], b, marks, at, kept);
    }
  }

  /** The loop over the properties of `t` has done the first i. */
  ghost predicate Midway(h: Store, t: Tree, i: nat, marks: map<Path, bool>, at: Path, kept: AlwaysKept)
    requires i <= |t.properties|
  {
    && t.id in h && h[t.id] == NodeOf(t)
    && ListHolds(h, PrunedList(t.properties[..i], marks, at, kept))
    && ListHolds(h, t.properties[i..])
    && (t.items.Some? ==> Holds(h, t.items.value))
    && ListHolds(h, t.allOf)
  }

  lemma {:induction false} ListUnsharedAt(list: seq<Entry>, i: nat)
    requires i < |list| && ListUnshared(list)
    ensures ListIds(list) == ListIds(list[..i]) + ListIds(list[i..i + 1]) + ListIds(list[i + 1..])
    ensures ListIds(list[i..i + 1]) !! ListIds(list[..i]) && ListIds(list[i..i + 1]) !! ListIds(list[i + 1..])
    ensures ListIds(list[i..i + 1]) == if list[i].tree.Some? then Ids(list[i].tree.value) else {}
    ensures list[i].tree.Some? ==> Unshared(list[i].tree.value)
  {
    var one := list[i..i + 1];
    assert one[1..] == [] && ListIds(one[1..]) == {};
    if i > 0 {
      ListUnsharedAt(list[1..], i - 1);
      assert list[1..][..i - 1] == list[..i][1..] && list[1..][i..] == list[i + 1..] && list[1..][i - 1..i] == one;
    }
  }

  lemma PrunedUpTo(list: seq<Entry>, i: nat, marks: map<Path, bool>, at: Path, kept: AlwaysKept)
    requires i < |list|
    ensures PrunedList(list[..i + 1], marks, at, kept) == PrunedList(list[..i], marks, at, kept) + PrunedEntry(list[i], marks, at, kept)
    ensures list[i..] == list[i..i + 1] + list[i + 1..]
  {
    var one := list[i..i + 1];
    assert list[..i + 1] == list[..i] + one;
    PrunedSplit(list[..i], one, marks, at, kept);
    assert one[0] == list[i] && one[1..] == [] && PrunedList(one[1..], marks, at, kept) == [];
    assert PrunedList(one, marks, at, kept) == PrunedEntry(list[i], marks, at, kept);
  }

  /** One turn: the property's own objects changed as pruning says, everything else stayed. */
  lemma MidwayStep(h: Store, h': Store, t: Tree, i: nat, marks: map<Path, bool>, at: Path, kept: AlwaysKept)
    requires i < |t.properties| && Unshared(t) && h'.Keys == h.Keys && Midway(h, t, i, marks, at, kept)
    requires Agree(h, h', h.Keys - ListIds(t.properties[i..i + 1]))
    requires ListHolds(h', PrunedEntry(t.properties[i], marks, at, kept))
    ensures Midway(h', t, i + 1, marks, at, kept)
    ensures PropertiesOf(PrunedList(t.properties[..i + 1], marks, at, kept))
         == PropertiesOf(PrunedList(t.properties[..i], marks, at, kept)) + PropertiesOf(PrunedEntry(t.properties[i], marks, at, kept))
  {
    var list := t.properties;
    ListUnsharedAt(list, i);
    var before, one, after := list[..i], list[i..i + 1], list[i + 1..];
    PrunedUpTo(list, i, marks, at, kept);
    IdsSplit(PrunedList(before, marks, at, kept), PrunedEntry(list[i], marks, at, kept));
    ListHoldsSplit(h, one, after);
    PrunedListIds(before, marks, at, kept);
    ListHoldsKept(h, h', PrunedList(before, marks, at, kept));
    ListHoldsKept(h, h', after);
    ListHoldsKept(h, h', t.allOf);
    if t.items.Some? {
      HoldsKept(h, h', t.items.value);
    }
    ListHoldsSplit(h', PrunedList(before, marks, at, kept), PrunedEntry(list[i], marks, at, kept));
  }

  /** After the loop: writing the surviving properties and required names completes the node. */
  lemma MidwayDone(h: Store, h': Store, t: Tree, marks: map<Path, bool>, at: Path, kept: AlwaysKept)
    requires Unshared(t) && h'.Keys == h.Keys && Midway(h, t, |t.properties|, marks, at, kept)
    requires Agree(h, h', h.Keys - {t.id}) && h'[t.id] == NodeOf(Pruned(t, marks, at, kept))
    ensures Holds(h', Pruned(t, marks, at, kept))
  {
    assert t.properties[..|t.properties|] == t.properties;
    PrunedListIds(t.properties, marks, at, kept);
    ListHoldsKept(h, h', PrunedList(t.properties, marks, at, kept));
    ListHoldsKept(h, h', t.allOf);
    if t.items.Some? {
      HoldsKept(h, h', t.items.value);
    }
  }

  method PruneRequired(schema: Schema, ghost list: seq<Entry>)
    requires schema.properties == PropertiesOf(list)
    modifies schema`required
    ensures schema.required == Retained(old(schema.required), list)
  {
    if |schema.required| == 0 {
      return;
    }
    schema.required := RetainPresent(schema.required, schema.properties, list);
  }

  method RetainPresent(required: seq<string>, properties: seq<Property>, ghost list: seq<Entry>)
    returns (surviving: seq<string>)
    requires properties == PropertiesOf(list)
    ensures surviving == Retained(required, list)
  {
    var present: set<string> := {};
    for i := 0 to |properties|
      invariant forall name :: name in present <==> exists p :: p in properties[..i] && p.name == name
    {
      present := present + {properties[i].name};
    }
    assert properties[..|properties|] == properties;
    surviving := [];
    for i := 0 to |required|
      invariant Retained(required, list) == surviving + Retained(required[i..], list)
    {
      assert required[i..][0] == required[i] && required[i..][1..] == required[i + 1..];
      NamesMatch(list, required[i]);
      if required[i] in present {
        surviving := surviving + [required[i]];
      }
    }
  }

  /** `node` is the node of the include tree for the level `at`, and the tree says `marks`. */
  ghost predicate AtLevel(root: IncludeNode, nodes: Nodes, at: Path, node: IncludeNode, marks: map<Path, bool>)
    reads nodes.Values
  {
    at in nodes && nodes[at] == node && Linked(root, nodes, Levels(nodes)) && marks == Marks(Levels(nodes))
  }

  lemma ChildLevel(root: IncludeNode, nodes: Nodes, at: Path, node: IncludeNode, marks: map<Path, bool>, name: string)
    requires AtLevel(root, nodes, at, node, marks)
    ensures name in node.children <==> at + [name] in marks
    ensures name in node.children ==> AtLevel(root, nodes, at + [name], node.children[name], marks)
    ensures name in node.children ==> marks[at + [name]] == node.children[name].terminal
  {
    assert LinkedAt(nodes, Levels(nodes), at);
  }

  /** Prunes a schema down to one level of the include tree. The objects pruned are those of the tree `t`. */
  method PruneToIncluded(schema: Schema?, node: IncludeNode, kept: AlwaysKept, depth: nat,
                         ghost t: Option<Tree>, ghost u: set<Schema>,
                         ghost root: IncludeNode, ghost nodes: Nodes, ghost at: Path, ghost marks: map<Path, bool>)
    requires schema == Id(t) && (t.Some? ==> Holds(Snapshot(u), t.value) && Unshared(t.value))
    requires AtLevel(root, nodes, at, node, marks) && depth == |at|
    modifies if t.Some? then Ids(t.value) else {}
    ensures t.Some? ==> Holds(Snapshot(u), Pruned(t.value, marks, at, kept))
    ensures AtLevel(root, nodes, at, node, marks)
    decreases t, 2
  {
    if schema == null {
      return;
    }
    ghost var tree := t.value;
    var surviving := PruneProperties(schema, node, kept, depth, tree, u, root, nodes, at, marks);
    RewriteLevel(schema, surviving, tree, u, at, marks, kept);
  }

  method RewriteLevel(schema: Schema, surviving: seq<Property>,
                      ghost t: Tree, ghost u: set<Schema>, ghost at: Path, ghost marks: map<Path, bool>, ghost kept: AlwaysKept)
    requires schema == t.id && Unshared(t) && Midway(Snapshot(u), t, |t.properties|, marks, at, kept)
    requires surviving == PropertiesOf(PrunedList(t.properties, marks, at, kept))
    modifies schema
    ensures Holds(Snapshot(u), Pruned(t, marks, at, kept))
  {
    ghost var h, left := Snapshot(u), PrunedList(t.properties, marks, at, kept);
    assert h[schema] == schema.View();
    schema.properties := surviving;
    PruneRequired(schema, left);
    assert schema.View() == NodeOf(Pruned(t, marks, at, kept));
    assert Snapshot(u) == h[schema := schema.View()];
    MidwayDone(h, Snapshot(u), t, marks, at, kept);
  }

  /** The loop over the properties: prunes below each of them, and collects those that stay. */
  method PruneProperties(schema: Schema, node: IncludeNode, kept: AlwaysKept, depth: nat,
                         ghost t: Tree, ghost u: set<Schema>,
                         ghost root: IncludeNode, ghost nodes: Nodes, ghost at: Path, ghost marks: map<Path, bool>)
    returns (surviving: seq<Property>)
    requires schema == t.id && Holds(Snapshot(u), t) && Unshared(t)
    requires AtLevel(root, nodes, at, node, marks) && depth == |at|
    modifies Ids(t)
    ensures Midway(Snapshot(u), t, |t.properties|, marks, at, kept)
    ensures surviving == PropertiesOf(PrunedList(t.properties, marks, at, kept))
    ensures AtLevel(root, nodes, at, node, marks)
    decreases t, 1
  {
    ghost var list := t.properties;
    surviving := [];
    var properties := schema.properties;
    SamePropertyCount(list);
    assert list[..0] == [] && list[0..] == list;
    for i := 0 to |properties|
      invariant Midway(Snapshot(u), t, i, marks, at, kept)
      invariant AtLevel(root, nodes, at, node, marks)
      invariant surviving == PropertiesOf(PrunedList(list[..i], marks, at, kept))
    {
      ListUnsharedAt(list, i);
      var left := PruneNext(properties[i], node, kept, depth, t, i, u, root, nodes, at, marks);
      surviving := surviving + left;
    }
    assert list[..|list|] == list;
  }

  /** One turn of the loop: what is left of the i-th property. */
  method PruneNext(property: Property, node: IncludeNode, kept: AlwaysKept, depth: nat,
                   ghost t: Tree, ghost i: nat, ghost u: set<Schema>,
                   ghost root: IncludeNode, ghost nodes: Nodes, ghost at: Path, ghost marks: map<Path, bool>)
    returns (left: seq<Property>)
    requires i < |t.properties| && Unshared(t) && Midway(Snapshot(u), t, i, marks, at, kept)
    requires |PropertiesOf(t.properties)| == |t.properties| && property == PropertiesOf(t.properties)[i]
    requires AtLevel(root, nodes, at, node, marks) && depth == |at|
    modifies ListIds(t.properties[i..i + 1])
    ensures Midway(Snapshot(u), t, i + 1, marks, at, kept)
    ensures PropertiesOf(PrunedList(t.properties[..i + 1], marks, at, kept))
         == PropertiesOf(PrunedList(t.properties[..i], marks, at, kept)) + left
    ensures AtLevel(root, nodes, at, node, marks)
    decreases t, 0
  {
    ghost var h, e := Snapshot(u), t.properties[i];
    PropertyAt(h, t.properties, i);
    ListUnsharedAt(t.properties, i);
    var keep := PruneProperty(property, node, kept, depth, e, u, root, nodes, at, marks);
    left := if keep then [property] else [];
    MidwayStep(h, Snapshot(u), t, i, marks, at, kept);
  }

  method PruneProperty(property: Property, node: IncludeNode, kept: AlwaysKept, depth: nat,
                       ghost e: Entry, ghost u: set<Schema>,
                       ghost root: IncludeNode, ghost nodes: Nodes, ghost at: Path, ghost marks: map<Path, bool>)
    returns (keep: bool)
    requires property == Property(e.name, Id(e.tree))
    requires e.tree.Some? ==> Holds(Snapshot(u), e.tree.value) && Unshared(e.tree.value)
    requires AtLevel(root, nodes, at, node, marks) && depth == |at|
    modifies if e.tree.Some? then Ids(e.tree.value) else {}
    ensures PropertiesOf(PrunedEntry(e, marks, at, kept)) == if keep then [property] else []
    ensures ListHolds(Snapshot(u), PrunedEntry(e, marks, at, kept))
    ensures AtLevel(root, nodes, at, node, marks)
    decreases e, 2
  {
    if depth == 0 && kept.Keeps(property.name) {
      return true;
    }
    ChildLevel(root, nodes, at, node, marks, property.name);
    if property.name !in node.children {
      return false;
    }
    var child := node.children[property.name];
    if !child.terminal {
      PruneToIncluded(property.schema, child, kept, depth + 1, e.tree, u, root, nodes, at + [e.name], marks);
    }
    keep := true;
  }

  // ---- the whole step ---------------------------------------------------------------------------------

  predicate AllExist(fields: seq<Declared>, n: nat, t: Tree)
    requires n <= |fields| && ParsedUpTo(fields, n)
  {
    forall i | 0 <= i < n :: FieldExists(t.properties, fields[i].value)
  }

  predicate IsFirstMissing(fields: seq<Declared>, why: Refusal, t: Tree)
    requires ParsedUpTo(fields, |fields|)
  {
    && why.FieldNotFound? && why.index < |fields|
    && AllExist(fields, why.index, t) && !FieldExists(t.properties, fields[why.index].value)
  }

  /**
   Applies an allowlist to a spec schema. An empty list leaves the schema alone; a field that names no path or
   no property refuses the whole list, with the schema untouched; otherwise the schema is pruned.
   */
  method RetainIncludedSpecFields(schema: Schema, fields: seq<Declared>, kept: AlwaysKept, ghost t: Tree, ghost u: set<Schema>)
    returns (refusal: Option<Refusal>, ghost marks: map<Path, bool>)
    requires schema == t.id && Holds(Snapshot(u), t) && Unshared(t)
    modifies Ids(t)
    ensures refusal.None? <==> fields == [] || (ParsedUpTo(fields, |fields|) && AllExist(fields, |fields|, t))
    ensures refusal.Some? && ParsedUpTo(fields, |fields|) ==> IsFirstMissing(fields, refusal.value, t)
    ensures refusal.Some? || fields == [] ==> Snapshot(u) == old(Snapshot(u))
    ensures refusal.None? && fields != [] ==> Spells(marks, PathSet(fields)) && Holds(Snapshot(u), Pruned(t, marks, [], kept))
  {
    marks := map[];
    if |fields| == 0 {
      return None, marks;
    }
    var built, nodes := BuildIncludeTree(fields);
    if built.Refused? {
      return Some(built.why), marks;
    }
    var missing := FirstMissing(schema, fields, t, Snapshot(u));
    if missing.Some? {
      return missing, marks;
    }
    marks := Marks(Levels(nodes));
    RootLevel(built.value, nodes, PathSet(fields));
    PruneToIncluded(schema, built.value, kept, 0, Some(t), u, built.value, nodes, [], marks);
    refusal := None;
  }

  lemma RootLevel(root: IncludeNode, nodes: Nodes, declared: set<Path>)
    requires Represents(root, nodes, declared)
    ensures AtLevel(root, nodes, [], root, Marks(Levels(nodes)))
  {
  }

  /** Validation, before anything is pruned. */
  method FirstMissing(schema: Schema, fields: seq<Declared>, ghost t: Tree, ghost h: Store) returns (missing: Option<Refusal>)
    requires schema == t.id && Holds(h, t) && ParsedUpTo(fields, |fields|)
    requires forall s | s in h :: h[s] == s.View()
    ensures missing.None? <==> AllExist(fields, |fields|, t)
    ensures missing.Some? ==> IsFirstMissing(fields, missing.value, t)
  {
    for i := 0 to |fields|
      invariant AllExist(fields, i, t)
    {
      var found := FieldExistsAtPath(schema, fields[i].value, Some(t), h);
      if !found {
        return Some(FieldNotFound(i));
      }
    }
    missing := None;
  }
}
