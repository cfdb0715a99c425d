/**
 Where preparation stops being exact: a schema for each way of not being well-behaved. And where it stops short:
 a merge that is cut.
 */
module SchemaLimits {
  import opened Json
  import opened SchemaGraph
  import opened PrepareSchema
  import opened SchemaTree
  import opened SchemaAcceptance

  function Leaf(id: Schema, types: seq<string>, enum: seq<Json>): Tree {
    Tree(id, types, [], None, [], [], enum)
  }

  function Part(t: Tree): Entry {
    Entry("", Some(t))
  }

  /** Without integer numbers preparation does not even loosen: 1.5 is a number and no integer. */
  lemma FractionLost(o: Schema)
    ensures var t := Leaf(o, ["number"], []); Accepts(t, JNum(1.5)) && !Accepts(Prepared(t), JNum(1.5))
  {
    var t := Leaf(o, ["number"], []);
    assert HasType(t.types[0], JNum(1.5));
    assert Converted(["number"]) == ["integer"];
    assert 1.5 != (1.5).Floor as real;
  }

  /** A schema with parts and nothing else. */
  function Of(id: Schema, parts: seq<Entry>): Tree {
    Tree(id, [], [], None, parts, [], [])
  }

  /** A schema with one property and, maybe, an enum. */
  function With(id: Schema, e: Entry, enum: seq<Json>): Tree {
    Tree(id, [], [e], None, [], [], enum)
  }

  lemma LeafPrepared(o: Schema, types: seq<string>, enum: seq<Json>)
    requires Converted(types) == types
    ensures Prepared(Leaf(o, types, enum)) == Leaf(o, types, enum)
  {
    assert FullProperties(Leaf(o, types, enum)) == [];
  }

  lemma WithPrepared(o: Schema, name: string, enum: seq<Json>, own: seq<Json>)
    ensures var e := Entry(name, Some(Leaf(o, [], enum)));
      Prepared(With(o, e, own)) == With(o, e, own) && FullProperties(With(o, e, own)) == [e]
  {
    var e := Entry(name, Some(Leaf(o, [], enum)));
    LeafPrepared(o, [], enum);
    assert PreparedList([e]) == [e] && FullParts([]) == [];
    assert FullProperties(With(o, e, own)) == AdoptedEntries([e], []) == [e];
    PreparedShape(With(o, e, own));
    assert Converted([]) == [];
  }

  lemma ArrayIsNoKey()
    ensures !AllComparable([JArr([])])
  {
    assert JArr([]) in [JArr([])];
  }

  lemma OnePart(p: Tree)
    ensures var l := [Part(p)];
      && PreparedList(l) == [Part(Prepared(p))] && FullParts(l) == FullProperties(p)
      && FirstTypes(l) == p.types
      && GatherTrees(l) == GatheredTrees(p.properties, p.required, if p.properties == [] then p.enum else [])
  {
    OnePartFull(p);
    assert [Part(p)][..0] == [] && [Part(p)][1..] == [];
  }

  lemma OnePartFull(p: Tree)
    ensures FullParts([Part(p)]) == FullProperties(p)
  {
    assert [Part(p)][..0] == [];
  }

  lemma TwoParts(p: Tree, q: Tree)
    requires Prepared(p) == p && Prepared(q) == q
    ensures var l := [Part(p), Part(q)];
      && PreparedList(l) == l && FullParts(l) == FullProperties(p) + FullProperties(q)
      && FirstTypes(l) == (if p.types != [] then p.types else q.types)
      && GatherTrees(l).required == p.required + q.required
      && GatherTrees(l).properties == p.properties + q.properties
      && GatherTrees(l).enum == (if p.properties == [] then p.enum else []) + (if q.properties == [] then q.enum else [])
  {
    var l := [Part(p), Part(q)];
    OnePart(p);
    OnePart(q);
    assert l[..1] == [Part(p)] && l[1..] == [Part(q)];
  }

  /** Two parts' enums are united where the vendor's schema intersects them. */
  lemma EnumsUnited(o: Schema)
    ensures var t := Of(o, [Part(Leaf(o, [], [JNull])), Part(Leaf(o, [], [JBool(true)]))]);
      !Accepts(t, JNull) && Accepts(Prepared(t), JNull)
  {
    var p, q := Leaf(o, [], [JNull]), Leaf(o, [], [JBool(true)]);
    var t := Of(o, [Part(p), Part(q)]);
    assert t.allOf[1].tree.value == q && !Accepts(t, JNull);
    LeafPrepared(o, [], [JNull]);
    LeafPrepared(o, [], [JBool(true)]);
    TwoParts(p, q);
    JoinedComparable([JNull], [JBool(true)]);
    Loose(t, JNull);
  }

  /** A schema without types, properties and items of its own: what it accepts once prepared. */
  lemma Loose(t: Tree, j: Json)
    requires t.types == [] && t.items.None? && t.required == []
    requires FirstTypes(PreparedList(t.allOf)) == [] && GatherTrees(PreparedList(t.allOf)).required == [] && !Cut(t)
    requires j.JObj? ==> EntriesAccept(FullProperties(t), j.fields)
    requires var enum := t.enum + GatherTrees(PreparedList(t.allOf)).enum; enum == [] || j in enum
    ensures Accepts(Prepared(t), j)
  {
    PreparedShape(t);
    LooseKeywords(t);
    AcceptsBy(Prepared(t), j);
  }

  lemma LooseKeywords(t: Tree)
    requires t.types == [] && t.required == []
    requires FirstTypes(PreparedList(t.allOf)) == [] && GatherTrees(PreparedList(t.allOf)).required == [] && !Cut(t)
    ensures var p := Prepared(t); p.types == [] && p.required == []
    ensures forall v | v in t.enum + GatherTrees(PreparedList(t.allOf)).enum :: v in Prepared(t).enum
    ensures t.enum + GatherTrees(PreparedList(t.allOf)).enum == [] ==> Prepared(t).enum == []
  {
    PreparedEnums(t);
    var required: seq<string> := [];
    assert Converted(required) == [] && required + required == [] && FirstSeen(required, {}) == [];
    assert t.allOf != [] ==> Prepared(t).required == FirstSeen(t.required + GatherTrees(PreparedList(t.allOf)).required, {});
  }

  /** So are a part's enum and the schema's own. */
  lemma OwnEnumUnited(o: Schema)
    ensures var t := Of(o, [Part(Leaf(o, [], [JBool(true)]))]).(enum := [JNull]);
      !Accepts(t, JNull) && Accepts(Prepared(t), JNull)
  {
    var p := Leaf(o, [], [JBool(true)]);
    var t := Of(o, [Part(p)]).(enum := [JNull]);
    assert t.allOf[0].tree.value == p && !Accepts(t, JNull);
    LeafPrepared(o, [], [JBool(true)]);
    OnePart(p);
    Loose(t, JNull);
  }

  /** The enum of a part that has properties is dropped. */
  lemma EnumBesidePropertiesDropped(o: Schema)
    ensures var t := Of(o, [Part(With(o, Entry("x", Some(Leaf(o, [], []))), [JNull]))]);
      !Accepts(t, JBool(true)) && Accepts(Prepared(t), JBool(true))
  {
    var p := With(o, Entry("x", Some(Leaf(o, [], []))), [JNull]);
    var t := Of(o, [Part(p)]);
    assert t.allOf[0].tree.value == p && !Accepts(t, JBool(true));
    WithPrepared(o, "x", [], [JNull]);
    OnePart(p);
    Loose(t, JBool(true));
  }

  /** The items of a part are dropped. */
  lemma PartItemsDropped(o: Schema)
    ensures var t := Of(o, [Part(Leaf(o, [], []).(items := Some(Leaf(o, [], [JNull]))))]); var j := JArr([JBool(true)]);
      !Accepts(t, j) && Accepts(Prepared(t), j)
  {
    var item := Leaf(o, [], [JNull]);
    var p := Leaf(o, [], []).(items := Some(item));
    var t, j := Of(o, [Part(p)]), JArr([JBool(true)]);
    assert !Accepts(item, j.elems[0]) && !Accepts(p, j);
    assert t.allOf[0].tree.value == p && !Accepts(t, j);
    assert Converted([]) == [] && FullProperties(p) == [];
    assert Prepared(p) == p;
    OnePart(p);
    Loose(t, j);
  }

  /** Of two types the schema's own is kept. */
  lemma OtherTypeDropped(o: Schema, text: string)
    ensures var t := Of(o, [Part(Leaf(o, ["object"], []))]).(types := ["string"]);
      !Accepts(t, JStr(text)) && Accepts(Prepared(t), JStr(text))
  {
    var p := Leaf(o, ["object"], []);
    var t := Of(o, [Part(p)]).(types := ["string"]);
    assert !Accepts(p, JStr(text));
    assert t.allOf[0].tree.value == p && !Accepts(t, JStr(text));
    LeafPrepared(o, ["object"], []);
    OnePart(p);
    PreparedShape(t);
    assert t.types[0] == "string" && HasType("string", JStr(text));
  }

  /** A part's property whose name is taken is dropped, with everything it asked for. */
  lemma TakenNameDropped(o: Schema)
    ensures var asked, taken := Entry("x", Some(Leaf(o, [], [JNull]))), Entry("x", Some(Leaf(o, [], [])));
      var t := Of(o, [Part(With(o, asked, []))]).(properties := [taken]);
      var j := JObj(map["x" := JBool(true)]);
      !Accepts(t, j) && Accepts(Prepared(t), j)
  {
    var asked, taken := Entry("x", Some(Leaf(o, [], [JNull]))), Entry("x", Some(Leaf(o, [], [])));
    var p := With(o, asked, []);
    var t, j := Of(o, [Part(p)]).(properties := [taken]), JObj(map["x" := JBool(true)]);
    assert p.properties[0] == asked && !Accepts(asked.tree.value, JBool(true)) && !Accepts(p, j);
    assert t.allOf[0].tree.value == p && !Accepts(t, j);
    WithPrepared(o, "x", [JNull], []);
    LeafPrepared(o, [], []);
    OnePart(p);
    assert PreparedList([taken]) == [taken] && AdoptedEntries([taken], [asked]) == [taken];
    Loose(t, j);
  }

  lemma FirstTaken(o: Schema, taken: Entry, asked: Entry)
    requires asked == Entry("x", Some(Leaf(o, [], [JNull]))) && taken == Entry("x", Some(Leaf(o, [], [])))
    ensures var t := Of(o, [Part(With(o, taken, [])), Part(With(o, asked, []))]); var parts := PreparedList(t.allOf);
      FullProperties(t) == [taken] && FirstTypes(parts) == [] && GatherTrees(parts).required == [] && GatherTrees(parts).enum == []
  {
    WithPrepared(o, "x", [JNull], []);
    WithPrepared(o, "x", [], []);
    TwoParts(With(o, taken, []), With(o, asked, []));
    TakenOnce(taken, asked);
  }

  lemma AsksForNull(o: Schema, taken: Entry, asked: Entry)
    requires asked == Entry("x", Some(Leaf(o, [], [JNull])))
    ensures var t := Of(o, [Part(With(o, taken, [])), Part(With(o, asked, []))]); !Accepts(t, JObj(map["x" := JBool(true)]))
  {
    var t, j := Of(o, [Part(With(o, taken, [])), Part(With(o, asked, []))]), JObj(map["x" := JBool(true)]);
    assert With(o, asked, []).properties[0] == asked && !Accepts(asked.tree.value, JBool(true));
    assert !Accepts(With(o, asked, []), j) && t.allOf[1].tree.value == With(o, asked, []);
  }

  lemma TakenOnce(taken: Entry, asked: Entry)
    requires taken.name == asked.name
    ensures AdoptedEntries([], [taken] + [asked]) == [taken]
  {
    assert ([taken] + [asked])[1..] == [asked] && [asked][1..] == [] && [] + [taken] == [taken];
    assert AdoptedEntries([taken], [asked]) == AdoptedEntries([taken], []) by { assert taken in [taken]; }
  }

  /** The name may be taken by another part. */
  lemma NameInTwoPartsDropped(o: Schema)
    ensures var asked, taken := Entry("x", Some(Leaf(o, [], [JNull]))), Entry("x", Some(Leaf(o, [], [])));
      var t := Of(o, [Part(With(o, taken, [])), Part(With(o, asked, []))]);
      var j := JObj(map["x" := JBool(true)]);
      !Accepts(t, j) && Accepts(Prepared(t), j)
  {
    var asked, taken := Entry("x", Some(Leaf(o, [], [JNull]))), Entry("x", Some(Leaf(o, [], [])));
    AsksForNull(o, taken, asked);
    TakenAccepts(o, taken, asked);
  }

  lemma TakenAccepts(o: Schema, taken: Entry, asked: Entry)
    requires asked == Entry("x", Some(Leaf(o, [], [JNull]))) && taken == Entry("x", Some(Leaf(o, [], [])))
    ensures var t := Of(o, [Part(With(o, taken, [])), Part(With(o, asked, []))]); Accepts(Prepared(t), JObj(map["x" := JBool(true)]))
  {
    var t, j := Of(o, [Part(With(o, taken, [])), Part(With(o, asked, []))]), JObj(map["x" := JBool(true)]);
    FirstTaken(o, taken, asked);
    assert EntryAccepts(taken, j.fields);
    Loose(t, j);
  }

  /** An array in an enum keeps it from being merged into a part, and so from reaching the schema the part is merged into. */
  lemma EnumBehindCutLost(o: Schema)
    ensures var t := Of(o, [Part(Of(o, [Part(Leaf(o, [], [JArr([])]))]))]);
      !Accepts(t, JNull) && Accepts(Prepared(t), JNull)
  {
    var r := Leaf(o, [], [JArr([])]);
    var q := Of(o, [Part(r)]);
    var t := Of(o, [Part(q)]);
    assert q.allOf[0].tree.value == r && !Accepts(q, JNull);
    assert t.allOf[0].tree.value == q && !Accepts(t, JNull);
    LeafPrepared(o, [], [JArr([])]);
    OnePart(r);
    ArrayIsNoKey();
    assert Cut(q);
    CutPrepared(q);
    OnePart(q);
    OnePart(Prepared(q));
    assert FullProperties(t) == [] by { assert FullProperties(q) == [] && FullProperties(r) == []; }
    Loose(t, JNull);
  }

  lemma CutPrepared(q: Tree)
    requires q.types == [] && q.properties == [] && q.required == [] && q.enum == [] && Cut(q)
    requires var parts := PreparedList(q.allOf);
      FirstTypes(parts) == [] && GatherTrees(parts).properties == [] && GatherTrees(parts).required == []
    ensures var p := Prepared(q); p.properties == [] && p.enum == [] && p.required == [] && p.types == []
  {
    PreparedShape(q);
    assert FirstSeen(q.types, {}) == [] && Converted(q.types) == [] && q.required + [] == q.required;
  }

  /** Items below a type that is only inherited are left as the vendor wrote them, `number` and all. */
  lemma InheritedArrayItems(o: Schema, item: Tree)
    ensures var t := Of(o, [Part(Leaf(o, ["array"], []))]).(items := Some(item));
      Prepared(t).types == ["array"] && Prepared(t).items == Some(item)
  {
    var part := Leaf(o, ["array"], []);
    LeafPrepared(o, ["array"], []);
    OnePart(part);
  }

  /**
   An enum that holds an array, on a schema with a part: the allOf stays, and the schema's own property, a
   number, is never visited.
   */
  lemma AllOfKept(s: Schema, part: Schema, number: Schema)
    requires s != part && s != number && part != number
    ensures var h: Store := map[s := Node([], [Property("x", number)], null, [part], [], [JArr([])]),
                                part := Node([], [], null, [], [], []),
                                number := Node(["number"], [], null, [], [], [])];
      && Closed(h) && Spoiled(h, s)
      && var r := Prepare(h, s, {});
         r.h[s].allOf == [part] && r.visited == {s, part} && r.h[number].types == ["number"]
  {
    var h: Store := map[s := Node([], [Property("x", number)], null, [part], [], [JArr([])]),
                        part := Node([], [], null, [], [], []),
                        number := Node(["number"], [], null, [], [], [])];
    assert NodeWithin(h[s], h.Keys) && NodeWithin(h[part], h.Keys) && NodeWithin(h[number], h.Keys);
    KeptIn(h, s, part);
  }

  lemma KeptIn(h: Store, s: Schema, part: Schema)
    requires Closed(h) && s in h && part in h && s != part && h[part] == Node([], [], null, [], [], [])
    requires h[s].types == [] && h[s].allOf == [part] && h[s].enum == [JArr([])]
    ensures Spoiled(h, s)
    ensures var r := Prepare(h, s, {});
      r.visited == {s, part} && r.h[s].allOf == [part] && forall v {:trigger r.h[v]} | v in h && v != s :: r.h[v] == h[v]
  {
    var none: set<Schema> := {};
    ArrayIsNoKey();
    assert none + {s} == {s} && Converted([]) == [];
    assert Entered(h, s)[s] == h[s] && Entered(h, s) == h;
    assert ItemsPrepared(h, s, {s}) == Walk(h, {s});
    PartsKept(h, s, part);
    assert Prepare(h, s, none) == MergeParts(h, s, {s});
  }

  lemma PartsKept(h: Store, s: Schema, part: Schema)
    requires Closed(h) && s in h && part in h && s != part && h[part] == Node([], [], null, [], [], [])
    requires h[s].types == [] && h[s].allOf == [part] && !AllComparable(h[s].enum)
    ensures MergeParts(h, s, {s}) == Walk(PartsMerged(h, s), {s, part}) && PartsMerged(h, s)[s].allOf == [part]
  {
    PartAlone(h, part, {s});
    assert [part][1..] == [] && [part][0] == part;
    assert Inherited(h, s, part) == h;
    assert PrepareList(h, s, [part], {s}) == Walk(h, {s, part});
    assert MergeCut(h, s);
  }

  lemma PartAlone(h: Store, part: Schema, visited: set<Schema>)
    requires Closed(h) && part in h && visited <= h.Keys && part !in visited && h[part] == Node([], [], null, [], [], [])
    ensures Prepare(h, part, visited) == Walk(h, visited + {part})
  {
    var v1 := visited + {part};
    assert Converted([]) == [];
    assert Entered(h, part)[part] == h[part];
    assert Entered(h, part) == h;
    assert ItemsPrepared(h, part, v1) == Walk(h, v1);
    NothingToMerge(h, part, v1);
  }

  lemma NothingToMerge(h: Store, part: Schema, visited: set<Schema>)
    requires Closed(h) && part in visited && visited <= h.Keys && h[part] == Node([], [], null, [], [], [])
    ensures MergeParts(h, part, visited) == Walk(h, visited)
  {
    assert PrepareList(h, part, [], visited) == Walk(h, visited);
    assert PartsMerged(h, part) == h;
    assert Schemas([]) == [];
  }
}
