/** The status schema composed in place, on the schema objects. */
module StatusComposition {
  import opened Json
  import opened SchemaGraph
  import opened SchemaTree
  import opened SchemaRefinement
  import opened IncludeTree
  import opened RetainSpecFields
  import opened StatusSchema

  // ---- the objects involved ---------------------------------------------------------------------------

  function Objects(made: seq<Schema>): set<Schema> {
    set s | s in made
  }

  function LeafIds(leaf: Entry): set<Schema> {
    if leaf.tree.Some? then Ids(leaf.tree.value) else {}
  }

  /** The leaf is a tree of its own, and the created objects are new to both it and the list. */
  predicate Apart(list: seq<Entry>, leaf: Entry, made: seq<Schema>) {
    && (leaf.tree.Some? ==> Unshared(leaf.tree.value))
    && NoDuplicates(made)
    && LeafIds(leaf) !! ListIds(list)
    && Objects(made) !! ListIds(list)
    && Objects(made) !! LeafIds(leaf)
  }

  lemma {:induction false} AddedUnshared(list: seq<Entry>, p: Path, leaf: Entry, made: seq<Schema>)
    requires p != [] && |made| == Missing(list, p)
    requires ListUnshared(list) && Apart(list, leaf, made)
    ensures ListUnshared(Added(list, p, leaf, made))
    ensures ListIds(Added(list, p, leaf, made)) <= ListIds(list) + LeafIds(leaf) + Objects(made)
    decreases |p|, list
  {
    var r := Added(list, p, leaf, made);
    if list == [] {
      assert r[1..] == [];
      if |p| > 1 {
        assert NoDuplicates(made[1..]) && Objects(made[1..]) <= Objects(made) && made[0] !in Objects(made[1..]) && made[0] in Objects(made);
        AddedUnshared([], p[1..], leaf, made[1..]);
      }
    } else if list[0].name != p[0] {
      AddedUnshared(list[1..], p, leaf, made);
      AddedHead(list, p, leaf, made);
    } else if |p| > 1 && IsObject(list[0]) {
      AddedUnshared(list[0].tree.value.properties, p[1..], leaf, made);
      assert r[1..] == list[1..];
    }
  }

  // ---- the first property of a name -------------------------------------------------------------------

  predicate NoneNamed(list: seq<Entry>, k: nat, name: string)
    requires k <= |list|
  {
    forall i | 0 <= i < k :: list[i].name != name
  }

  lemma {:induction false} SkipTo(list: seq<Entry>, k: nat, p: Path, leaf: Entry, made: seq<Schema>)
    requires k <= |list| && p != [] && NoneNamed(list, k, p[0])
    ensures Missing(list, p) == Missing(list[k..], p)
    ensures |made| == Missing(list, p) ==> Added(list, p, leaf, made) == list[..k] + Added(list[k..], p, leaf, made)
  {
    if k > 0 {
      assert NoneNamed(list[1..], k - 1, p[0]);
      SkipTo(list[1..], k - 1, p, leaf, made);
      assert list[1..][k - 1..] == list[k..] && list[..k] == [list[0]] + list[1..][..k - 1];
    }
  }

  method FirstNamed(properties: seq<Property>, name: string, ghost list: seq<Entry>) returns (k: nat)
    requires properties == PropertiesOf(list)
    ensures |properties| == |list| && k <= |list| && NoneNamed(list, k, name)
    ensures k < |list| ==> list[k].name == name && properties[k] == Property(name, Id(list[k].tree))
  {
    PropertiesAt(list);
    k := 0;
    while k < |properties|
      invariant k <= |list| && NoneNamed(list, k, name)
    {
      if properties[k].name == name {
        return;
      }
      k := k + 1;
    }
  }

  lemma {:induction false} PropertiesAt(list: seq<Entry>)
    ensures |PropertiesOf(list)| == |list|
    ensures forall i | 0 <= i < |list| :: PropertiesOf(list)[i] == Property(list[i].name, Id(list[i].tree))
  {
    if list != [] {
      PropertiesAt(list[1..]);
    }
  }

  // ---- one level --------------------------------------------------------------------------------------

  /** The list with the properties of its k-th element replaced. */
  function Entering(list: seq<Entry>, k: nat, properties: seq<Entry>): seq<Entry>
    requires k < |list| && list[k].tree.Some?
  {
    list[..k] + [WithProperties(list[k], properties)] + list[k + 1..]
  }

  /** The child's objects changed as the new properties say, everything else stayed. */
  lemma EnteredHolds(h: Store, h': Store, t: Tree, k: nat, properties: seq<Entry>)
    requires Holds(h, t) && Unshared(t) && k < |t.properties| && t.properties[k].tree.Some? && h.Keys <= h'.Keys
    requires AgreeOn(h, h', h.Keys - Ids(t.properties[k].tree.value))
    requires Holds(h', t.properties[k].tree.value.(properties := properties))
    ensures Holds(h', t.(properties := Entering(t.properties, k, properties)))
  {
    ListUnsharedAt(t.properties, k);
    EnteredList(h, h', t.properties, k, properties);
    KeptList(h, h', t.allOf);
    if t.items.Some? {
      KeptTree(h, h', t.items.value);
    }
    SameProperties(t.properties, k, properties);
    assert h'[t.id] == h[t.id];
  }

  lemma EnteredList(h: Store, h': Store, list: seq<Entry>, k: nat, properties: seq<Entry>)
    requires ListHolds(h, list) && ListUnshared(list) && k < |list| && list[k].tree.Some?
    requires AgreeOn(h, h', h.Keys - Ids(list[k].tree.value))
    requires Holds(h', list[k].tree.value.(properties := properties))
    ensures ListHolds(h', Entering(list, k, properties))
  {
    var before, one, after, one' := list[..k], list[k..k + 1], list[k + 1..], [WithProperties(list[k], properties)];
    ListUnsharedAt(list, k);
    assert list == before + (one + after);
    ListHoldsSplit(h, before, one + after);
    ListHoldsSplit(h, one, after);
    KeptList(h, h', before);
    KeptList(h, h', after);
    assert one'[1..] == [];
    ListHoldsSplit(h', one', after);
    ListHoldsSplit(h', before, one' + after);
    assert Entering(list, k, properties) == before + (one' + after);
  }

  lemma {:induction false} SameProperties(list: seq<Entry>, k: nat, properties: seq<Entry>)
    requires k < |list| && list[k].tree.Some?
    ensures PropertiesOf(Entering(list, k, properties)) == PropertiesOf(list)
  {
    PropertiesAt(list);
    PropertiesAt(Entering(list, k, properties));
  }

  /** As Agree, for a store that may have grown. */
  ghost predicate AgreeOn(h: Store, h': Store, some: set<Schema>) {
    forall v {:trigger v in h} | v in some && v in h :: v in h' && h'[v] == h[v]
  }

  lemma {:induction false} KeptTree(h: Store, h': Store, t: Tree)
    requires Holds(h, t) && AgreeOn(h, h', Ids(t))
    ensures Holds(h', t)
    decreases t, 1
  {
    KeptList(h, h', t.properties);
    KeptList(h, h', t.allOf);
    if t.items.Some? {
      KeptTree(h, h', t.items.value);
    }
    assert h'[t.id] == h[t.id];
  }

  lemma {:induction false} KeptList(h: Store, h': Store, list: seq<Entry>)
    requires ListHolds(h, list) && AgreeOn(h, h', ListIds(list))
    ensures ListHolds(h', list)
    decreases list, 0
  {
    if list != [] {
      if list[0].tree.Some? {
        KeptTree(h, h', list[0].tree.value);
      }
      KeptList(h, h', list[1..]);
    }
  }

  /** A property appended to the node, together with the objects below it. */
  lemma AppendedHolds(h: Store, h': Store, t: Tree, e: Entry)
    requires Holds(h, t) && Unshared(t) && h.Keys <= h'.Keys
    requires AgreeOn(h, h', h.Keys - {t.id}) && t.id in h' && h'[t.id] == NodeOf(t.(properties := t.properties + [e]))
    requires ListHolds(h', [e])
    ensures Holds(h', t.(properties := t.properties + [e]))
  {
    KeptList(h, h', t.properties);
    KeptList(h, h', t.allOf);
    if t.items.Some? {
      KeptTree(h, h', t.items.value);
    }
    ListHoldsSplit(h', t.properties, [e]);
  }

  // ---- adding a property ------------------------------------------------------------------------------

  /** What holds after an addition: the tree with the leaf added, its new objects included. */
  ghost predicate Held(u: set<Schema>, t: Tree, p: Path, leaf: Entry, made: seq<Schema>)
    requires p != []
    reads u, Objects(made)
  {
    |made| == Missing(t.properties, p) && Holds(Snapshot(u + Objects(made)), t.(properties := Added(t.properties, p, leaf, made)))
  }

  method AddPropertyByPath(schema: Schema, path: Path, property: Property, ghost t: Tree, ghost leaf: Entry, ghost u: set<Schema>)
    returns (ghost made: seq<Schema>)
    requires path != [] && schema == t.id && Holds(Snapshot(u), t) && Unshared(t)
    requires property == Property(leaf.name, Id(leaf.tree)) && ListHolds(Snapshot(u), [leaf]) && LeafIds(leaf) !! Ids(t)
    modifies Ids(t)
    ensures Held(u, t, path, leaf, made) && NoDuplicates(made) && forall s | s in made :: fresh(s)
    decreases |path|, 1
  {
    made := [];
    var k := FirstNamed(schema.properties, path[0], t.properties);
    if |path| == 1 {
      AddLeaf(schema, path, property, t, leaf, u, k);
    } else if k < |schema.properties| {
      made := AddBelow(schema, path, property, t, leaf, u, k);
    } else {
      made := AddNew(schema, path, property, t, leaf, u);
    }
  }

  /** The last segment: the leaf is appended unless its name is taken. */
  method AddLeaf(schema: Schema, path: Path, property: Property, ghost t: Tree, ghost leaf: Entry, ghost u: set<Schema>, k: nat)
    requires |path| == 1 && schema == t.id && Holds(Snapshot(u), t) && Unshared(t)
    requires property == Property(leaf.name, Id(leaf.tree)) && ListHolds(Snapshot(u), [leaf]) && LeafIds(leaf) !! Ids(t)
    requires |schema.properties| == |t.properties| && k <= |t.properties| && NoneNamed(t.properties, k, path[0])
    requires k < |t.properties| ==> t.properties[k].name == path[0]
    modifies schema
    ensures Held(u, t, path, leaf, [])
  {
    ghost var h, list := Snapshot(u), t.properties;
    assert u + Objects([]) == u;
    if k < |schema.properties| {
      TakenLeaf(list, k, path, leaf);
    } else {
      AppendedLeaf(list, path, leaf);
      schema.properties := schema.properties + [property];
      IdsSplit(list, [leaf]);
      assert [leaf][1..] == [] && PropertiesOf([leaf]) == [property];
      KeptList(h, Snapshot(u), [leaf]);
      AppendedHolds(h, Snapshot(u), t, leaf);
    }
  }

  /** The next level is there: it is entered if it is an object. */
  method AddBelow(schema: Schema, path: Path, property: Property, ghost t: Tree, ghost leaf: Entry, ghost u: set<Schema>, k: nat)
    returns (ghost made: seq<Schema>)
    requires |path| > 1 && schema == t.id && Holds(Snapshot(u), t) && Unshared(t)
    requires property == Property(leaf.name, Id(leaf.tree)) && ListHolds(Snapshot(u), [leaf]) && LeafIds(leaf) !! Ids(t)
    requires k < |t.properties| && NoneNamed(t.properties, k, path[0]) && t.properties[k].name == path[0]
    requires k < |schema.properties| && schema.properties[k] == Property(path[0], Id(t.properties[k].tree))
    modifies Ids(t)
    ensures Held(u, t, path, leaf, made) && NoDuplicates(made) && forall s | s in made :: fresh(s)
    decreases |path|, 0
  {
    made := [];
    ghost var h, list := Snapshot(u), t.properties;
    PropertyHeld(h, list, k);
    ListUnsharedAt(list, k);
    var next := schema.properties[k].schema;
    if next == null || PrimaryType(next.types) != "object" {
      Unentered(list, k, path, leaf);
      assert u + Objects([]) == u;
      return;
    }
    ghost var child := list[k].tree.value;
    made := AddPropertyByPath(next, path[1..], property, child, leaf, u);
    Entered(list, k, path, leaf, made);
    EnteredHolds(h, Snapshot(u + Objects(made)), t, k, Added(child.properties, path[1..], leaf, made));
  }

  lemma {:induction false} PropertyHeld(h: Store, list: seq<Entry>, k: nat)
    requires k < |list| && ListHolds(h, list)
    ensures list[k].tree.Some? ==> Holds(h, list[k].tree.value)
  {
    if k > 0 {
      PropertyHeld(h, list[1..], k - 1);
    }
  }

  lemma Unentered(list: seq<Entry>, k: nat, p: Path, leaf: Entry)
    requires k < |list| && |p| > 1 && NoneNamed(list, k, p[0]) && list[k].name == p[0] && !IsObject(list[k])
    ensures Missing(list, p) == 0 && Added(list, p, leaf, []) == list
  {
    SkipTo(list, k, p, leaf, []);
    assert list[k..][0] == list[k] && list[..k] + list[k..] == list;
  }

  lemma Entered(list: seq<Entry>, k: nat, p: Path, leaf: Entry, made: seq<Schema>)
    requires k < |list| && |p| > 1 && NoneNamed(list, k, p[0]) && list[k].name == p[0] && IsObject(list[k])
    requires |made| == Missing(list[k].tree.value.properties, p[1..])
    ensures Missing(list, p) == |made|
    ensures Added(list, p, leaf, made) == Entering(list, k, Added(list[k].tree.value.properties, p[1..], leaf, made))
  {
    SkipTo(list, k, p, leaf, made);
    assert list[k..][0] == list[k] && list[k..][1..] == list[k + 1..];
  }

  lemma AppendedLeaf(list: seq<Entry>, p: Path, leaf: Entry)
    requires p != [] && NoneNamed(list, |list|, p[0]) && |p| == 1
    ensures Missing(list, p) == 0 && Added(list, p, leaf, []) == list + [leaf]
  {
    SkipTo(list, |list|, p, leaf, []);
    assert list[|list|..] == [] && list[..|list|] == list;
  }

  lemma TakenLeaf(list: seq<Entry>, k: nat, p: Path, leaf: Entry)
    requires k < |list| && |p| == 1 && NoneNamed(list, k, p[0]) && list[k].name == p[0]
    ensures Missing(list, p) == 0 && Added(list, p, leaf, []) == list
  {
    SkipTo(list, k, p, leaf, []);
    assert list[k..][0] == list[k] && list[..k] + list[k..] == list;
  }

  lemma Created(list: seq<Entry>, p: Path, leaf: Entry, child: Schema, made: seq<Schema>)
    requires |p| > 1 && NoneNamed(list, |list|, p[0]) && |made| == Missing([], p[1..])
    ensures Missing(list, p) == 1 + |made|
    ensures Added(list, p, leaf, [child] + made) == list + [Entry(p[0], Some(NewObject(child, Added([], p[1..], leaf, made))))]
  {
    SkipTo(list, |list|, p, leaf, [child] + made);
    assert list[|list|..] == [] && list[..|list|] == list && ([child] + made)[1..] == made;
  }

  /** The next level is missing: a new object is appended, then entered. */
  method AddNew(schema: Schema, path: Path, property: Property, ghost t: Tree, ghost leaf: Entry, ghost u: set<Schema>)
    returns (ghost made: seq<Schema>)
    requires |path| > 1 && schema == t.id && Holds(Snapshot(u), t) && Unshared(t)
    requires property == Property(leaf.name, Id(leaf.tree)) && ListHolds(Snapshot(u), [leaf]) && LeafIds(leaf) !! Ids(t)
    requires NoneNamed(t.properties, |t.properties|, path[0])
    modifies Ids(t)
    ensures Held(u, t, path, leaf, made) && NoDuplicates(made) && forall s | s in made :: fresh(s)
    decreases |path|, 0
  {
    var child := NewChild(schema, path[0], t, leaf, u);
    ghost var v, o := u + {child}, NewObject(child, []);
    ghost var h1 := Snapshot(v);
    assert Ids(o) == {child};
    ghost var more := AddPropertyByPath(child, path[1..], property, o, leaf, v);
    made := [child] + more;
    OneMore(child, more, u);
    forall s | s in made ensures fresh(s) {
      assert s == child || s in more;
    }
    NewHeld(h1, Snapshot(v + Objects(more)), t, path, leaf, child, more);
  }

  lemma NewHeld(h: Store, h': Store, t: Tree, p: Path, leaf: Entry, child: Schema, more: seq<Schema>)
    requires |p| > 1 && NoneNamed(t.properties, |t.properties|, p[0]) && |more| == Missing([], p[1..])
    requires Holds(h, t.(properties := t.properties + [Entry(p[0], Some(NewObject(child, [])))])) && Unshared(t) && h.Keys <= h'.Keys
    requires child !in Ids(t)
    requires AgreeOn(h, h', h.Keys - {child}) && Holds(h', NewObject(child, Added([], p[1..], leaf, more)))
    ensures |[child] + more| == Missing(t.properties, p)
    ensures Holds(h', t.(properties := Added(t.properties, p, leaf, [child] + more)))
  {
    Created(t.properties, p, leaf, child, more);
    NewEntered(h, h', t, p[0], NewObject(child, []), Added([], p[1..], leaf, more));
  }

  lemma OneMore(child: Schema, more: seq<Schema>, u: set<Schema>)
    requires NoDuplicates(more) && child !in more
    ensures NoDuplicates([child] + more)
    ensures u + Objects([child] + more) == u + {child} + Objects(more)
    ensures forall s :: s in [child] + more <==> s == child || s in more
  {
  }

  method NewChild(schema: Schema, name: string, ghost t: Tree, ghost leaf: Entry, ghost u: set<Schema>) returns (child: Schema)
    requires schema == t.id && Holds(Snapshot(u), t) && Unshared(t)
    requires ListHolds(Snapshot(u), [leaf]) && LeafIds(leaf) !! Ids(t)
    modifies schema
    ensures fresh(child) && child !in Ids(t) && child !in LeafIds(leaf)
    ensures var o := NewObject(child, []);
      Holds(Snapshot(u + {child}), t.(properties := t.properties + [Entry(name, Some(o))])) && Holds(Snapshot(u + {child}), o)
    ensures ListHolds(Snapshot(u + {child}), [leaf])
  {
    ghost var h := Snapshot(u);
    HeldIds(h, t);
    ListHeldIds(h, [leaf]);
    assert [leaf][1..] == [] && ListIds([leaf]) == LeafIds(leaf);
    child := new Schema(["object"]);
    schema.properties := schema.properties + [Property(name, child)];
    ghost var h1 := Snapshot(u + {child});
    assert h1[child] == child.View() && h1[schema] == schema.View() && h[schema] == old(schema.View());
    Appended(h, h1, t, Entry(name, Some(NewObject(child, []))));
    KeptList(h, h1, [leaf]);
  }

  lemma {:induction false} HeldIds(h: Store, t: Tree)
    requires Holds(h, t)
    ensures Ids(t) <= h.Keys
    decreases t, 1
  {
    ListHeldIds(h, t.properties);
    ListHeldIds(h, t.allOf);
    if t.items.Some? {
      HeldIds(h, t.items.value);
    }
  }

  lemma {:induction false} ListHeldIds(h: Store, list: seq<Entry>)
    requires ListHolds(h, list)
    ensures ListIds(list) <= h.Keys
    decreases list, 0
  {
    if list != [] {
      if list[0].tree.Some? {
        HeldIds(h, list[0].tree.value);
      }
      ListHeldIds(h, list[1..]);
    }
  }

  lemma Appended(h: Store, h': Store, t: Tree, e: Entry)
    requires Holds(h, t) && Unshared(t) && h.Keys <= h'.Keys && e.tree.Some?
    requires AgreeOn(h, h', h.Keys - {t.id})
    requires t.id in h' && h'[t.id] == h[t.id].(properties := h[t.id].properties + [Property(e.name, e.tree.value.id)])
    requires Holds(h', e.tree.value)
    ensures Holds(h', t.(properties := t.properties + [e]))
  {
    IdsSplit(t.properties, [e]);
    assert [e][1..] == [] && PropertiesOf([e]) == [Property(e.name, e.tree.value.id)];
    AppendedHolds(h, h', t, e);
  }

  /** The appended object has been entered and filled. */
  lemma NewEntered(h: Store, h': Store, t: Tree, name: string, o: Tree, properties: seq<Entry>)
    requires Holds(h, t.(properties := t.properties + [Entry(name, Some(o))])) && Unshared(t) && h.Keys <= h'.Keys
    requires o == NewObject(o.id, []) && o.id !in Ids(t)
    requires AgreeOn(h, h', h.Keys - {o.id}) && Holds(h', o.(properties := properties))
    ensures Holds(h', t.(properties := t.properties + [Entry(name, Some(o.(properties := properties)))]))
  {
    var list, e := t.properties, Entry(name, Some(o));
    var t1 := t.(properties := list + [e]);
    NewUnshared(list, e);
    EnteredHolds(h, h', t1, |list|, properties);
    assert Entering(list + [e], |list|, properties) == list + [WithProperties(e, properties)];
  }

  lemma {:induction false} NewUnshared(list: seq<Entry>, e: Entry)
    requires ListUnshared(list) && e.tree.Some? && Unshared(e.tree.value) && Ids(e.tree.value) !! ListIds(list)
    ensures ListUnshared(list + [e]) && ListIds(list + [e]) == ListIds(list) + Ids(e.tree.value)
  {
    if list == [] {
      assert [e][1..] == [] && list + [e] == [e];
    } else {
      NewUnshared(list[1..], e);
      assert (list + [e])[1..] == list[1..] + [e];
    }
  }

  // ---- the whole schema -------------------------------------------------------------------------------

  /** The leaves still to be added: each held, unshared, and apart from everything in use. */
  ghost predicate Pending(h: Store, leaves: seq<Entry>, i: nat, ids: set<Schema>)
    requires i <= |leaves|
  {
    forall k {:trigger leaves[k]} | i <= k < |leaves| ::
      LeafIds(leaves[k]) !! ids && ListHolds(h, [leaves[k]]) && (leaves[k].tree.Some? ==> Unshared(leaves[k].tree.value))
  }

  ghost predicate Separate(leaves: seq<Entry>) {
    forall j, k {:trigger leaves[j], leaves[k]} | 0 <= j < k < |leaves| :: LeafIds(leaves[j]) !! LeafIds(leaves[k])
  }

  lemma LeafHeldIds(h: Store, leaf: Entry)
    requires ListHolds(h, [leaf])
    ensures LeafIds(leaf) <= h.Keys
  {
    ListHeldIds(h, [leaf]);
    assert [leaf][1..] == [];
  }

  lemma PendingKept(h: Store, h': Store, leaves: seq<Entry>, i: nat, ids: set<Schema>, made: set<Schema>)
    requires i < |leaves| && Pending(h, leaves, i, ids) && Separate(leaves) && made !! h.Keys
    requires AgreeOn(h, h', h.Keys - ids)
    ensures Pending(h', leaves, i + 1, ids + LeafIds(leaves[i]) + made)
  {
    forall k | i < k < |leaves|
      ensures LeafIds(leaves[k]) !! ids + LeafIds(leaves[i]) + made && ListHolds(h', [leaves[k]])
    {
      LeafHeldIds(h, leaves[k]);
      assert [leaves[k]][1..] == [] && ListIds([leaves[k]]) == LeafIds(leaves[k]);
      KeptList(h, h', [leaves[k]]);
    }
  }

  function StatusTree(status: Schema, properties: seq<Entry>): Tree {
    NewObject(status, properties)
  }

  /** One parseable field: its property is added, and the pending leaves stay apart. */
  method AddField(status: Schema, path: Path, property: Property, ghost list: seq<Entry>, ghost leaves: seq<Entry>, ghost i: nat, ghost u: set<Schema>)
    returns (ghost made: seq<Schema>)
    requires path != [] && i < |leaves| && Holds(Snapshot(u), StatusTree(status, list)) && Unshared(StatusTree(status, list))
    requires property == Property(leaves[i].name, Id(leaves[i].tree)) && Separate(leaves)
    requires Pending(Snapshot(u), leaves, i, Ids(StatusTree(status, list)))
    modifies Ids(StatusTree(status, list))
    ensures |made| == Missing(list, path) && forall s | s in made :: fresh(s)
    ensures var t' := StatusTree(status, Added(list, path, leaves[i], made)); var u' := u + Objects(made);
      Holds(Snapshot(u'), t') && Unshared(t') && Pending(Snapshot(u'), leaves, i + 1, Ids(t'))
  {
    ghost var h, t, leaf := Snapshot(u), StatusTree(status, list), leaves[i];
    made := AddPropertyByPath(status, path, property, t, leaf, u);
    HeldIds(h, t);
    LeafHeldIds(h, leaf);
    FieldAdded(status, list, path, leaf, made);
    PendingKept(h, Snapshot(u + Objects(made)), leaves, i, Ids(t), Objects(made));
    PendingFewer(Snapshot(u + Objects(made)), leaves, i + 1, Ids(t) + LeafIds(leaf) + Objects(made),
                 Ids(StatusTree(status, Added(list, path, leaf, made))));
  }

  lemma PendingFewer(h: Store, leaves: seq<Entry>, i: nat, ids: set<Schema>, fewer: set<Schema>)
    requires i <= |leaves| && Pending(h, leaves, i, ids) && fewer <= ids
    ensures Pending(h, leaves, i, fewer)
  {
  }

  lemma FieldAdded(status: Schema, list: seq<Entry>, p: Path, leaf: Entry, made: seq<Schema>)
    requires p != [] && |made| == Missing(list, p) && Unshared(StatusTree(status, list)) && NoDuplicates(made)
    requires leaf.tree.Some? ==> Unshared(leaf.tree.value)
    requires LeafIds(leaf) !! Ids(StatusTree(status, list))
    requires Objects(made) !! Ids(StatusTree(status, list)) && Objects(made) !! LeafIds(leaf)
    ensures var t' := StatusTree(status, Added(list, p, leaf, made));
      Unshared(t') && Ids(t') <= Ids(StatusTree(status, list)) + LeafIds(leaf) + Objects(made)
  {
    AddedUnshared(list, p, leaf, made);
  }

  /** What the run so far amounts to: a composition of the parseable fields among the first i, held in place. */
  ghost predicate Composed(u: set<Schema>, status: Schema, paths: seq<Option<Path>>, leaves: seq<Entry>, i: nat,
                           additions: seq<Addition>, states: seq<seq<Entry>>)
    requires |paths| == |leaves| && i <= |paths|
    reads u
  {
    && Composition(additions, states)
    && Declared(additions) == Parseable(paths[..i], leaves[..i])
    && Holds(Snapshot(u), StatusTree(status, states[|additions|]))
  }

  datatype Field = Field(path: Path, leaf: Entry)

  function Declared(additions: seq<Addition>): seq<Field> {
    if additions == [] then []
    else Declared(additions[..|additions| - 1]) + [Field(additions[|additions| - 1].path, additions[|additions| - 1].leaf)]
  }

  function Parseable(paths: seq<Option<Path>>, leaves: seq<Entry>): seq<Field>
    requires |paths| == |leaves|
  {
    if paths == [] then [] else
      var n := |paths| - 1;
      Parseable(paths[..n], leaves[..n]) + if paths[n].Some? then [Field(paths[n].value, leaves[n])] else []
  }

  /** A parsed path is not empty, and the property added for it carries its last segment's name. */
  predicate FieldFits(path: Option<Path>, leaf: Entry, property: Property) {
    property == Property(leaf.name, Id(leaf.tree))
    && (path.Some? ==> path.value != [] && leaf.name == path.value[|path.value| - 1])
  }

  /** The status schema under construction: what is composed so far, and the leaves still to come. */
  ghost predicate UnderConstruction(u: set<Schema>, status: Schema, paths: seq<Option<Path>>, leaves: seq<Entry>, i: nat,
                                    additions: seq<Addition>, states: seq<seq<Entry>>)
    requires |paths| == |leaves| && i <= |paths|
    reads u
  {
    && Composed(u, status, paths, leaves, i, additions, states)
    && var t := StatusTree(status, states[|additions|]);
       Unshared(t) && Ids(t) <= u && Pending(Snapshot(u), leaves, i, Ids(t))
  }

  /** One turn of the loop: a field that cannot be parsed is passed over. */
  method NextField(status: Schema, paths: seq<Option<Path>>, property: Property, ghost leaves: seq<Entry>, i: nat, ghost u: set<Schema>,
                   ghost additions: seq<Addition>, ghost states: seq<seq<Entry>>)
    returns (ghost u': set<Schema>, ghost additions': seq<Addition>, ghost states': seq<seq<Entry>>)
    requires |paths| == |leaves| && i < |paths| && Separate(leaves) && FieldFits(paths[i], leaves[i], property)
    requires UnderConstruction(u, status, paths, leaves, i, additions, states)
    modifies u
    ensures u <= u' && fresh(u' - u)
    ensures UnderConstruction(u', status, paths, leaves, i + 1, additions', states')
  {
    assert paths[..i + 1][..i] == paths[..i] && leaves[..i + 1][..i] == leaves[..i];
    u', additions', states' := u, additions, states;
    if paths[i].Some? {
      ghost var list := states[|additions|];
      ghost var made := AddField(status, paths[i].value, property, list, leaves, i, u);
      ghost var a := Addition(paths[i].value, leaves[i], made);
      u' := u + Objects(made);
      OneMoreField(additions, states, a);
      additions', states' := additions + [a], states + [Added(list, a.path, a.leaf, a.made)];
      HeldIds(Snapshot(u'), StatusTree(status, states'[|additions'|]));
    }
  }

  /** Builds the status schema: the fields are added one by one, those that cannot be parsed are passed over. */
  method ComposeStatusSchema(paths: seq<Option<Path>>, properties: seq<Property>, ghost leaves: seq<Entry>, ghost u: set<Schema>)
    returns (status: Schema, ghost u': set<Schema>, ghost additions: seq<Addition>, ghost states: seq<seq<Entry>>)
    requires |paths| == |properties| == |leaves| && Separate(leaves) && Pending(Snapshot(u), leaves, 0, {})
    requires forall i | 0 <= i < |paths| :: FieldFits(paths[i], leaves[i], properties[i])
    modifies u
    ensures fresh(status) && Composed(u', status, paths, leaves, |paths|, additions, states)
  {
    ghost var h := Snapshot(u);
    status := new Schema(["object"]);
    u', additions, states := u + {status}, [], [[]];
    StartPending(h, Snapshot(u'), leaves, status);
    for i := 0 to |paths|
      invariant u <= u' && fresh(u' - u)
      invariant UnderConstruction(u', status, paths, leaves, i, additions, states)
    {
      u', additions, states := NextField(status, paths, properties[i], leaves, i, u', additions, states);
    }
  }

  lemma OneMoreField(additions: seq<Addition>, states: seq<seq<Entry>>, a: Addition)
    requires Composition(additions, states) && a.path != [] && a.leaf.name == a.path[|a.path| - 1]
    requires |a.made| == Missing(states[|additions|], a.path)
    ensures Composition(additions + [a], states + [Added(states[|additions|], a.path, a.leaf, a.made)])
    ensures Declared(additions + [a]) == Declared(additions) + [Field(a.path, a.leaf)]
  {
    var all := additions + [a];
    assert all[..|all| - 1] == additions;
    assert forall i | 0 <= i < |additions| :: all[i] == additions[i];
  }

  lemma StartPending(h: Store, h': Store, leaves: seq<Entry>, status: Schema)
    requires Pending(h, leaves, 0, {}) && status !in h && AgreeOn(h, h', h.Keys)
    ensures Ids(StatusTree(status, [])) == {status} && Pending(h', leaves, 0, Ids(StatusTree(status, [])))
  {
    forall k | 0 <= k < |leaves| ensures status !in LeafIds(leaves[k]) && ListHolds(h', [leaves[k]]) {
      LeafHeldIds(h, leaves[k]);
      KeptList(h, h', [leaves[k]]);
    }
  }
}
