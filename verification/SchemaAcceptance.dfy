/**
 Which JSON documents a schema accepts, and how preparation changes that set: it never loses an
 integer-numbered document, and on a well-behaved schema it gains none.
 */
module SchemaAcceptance {
  import opened Json
  import opened SchemaGraph
  import opened SchemaTree

  /** JSON Schema Validation 2020-12, section 6.1.1. An empty list stands for an absent keyword. */
  predicate HasType(name: string, j: Json) {
    match j
    case JNull => name == "null"
    case JBool(_) => name == "boolean"
    case JNum(r) => name == "number" || (name == "integer" && r == r.Floor as real)
    case JStr(_) => name == "string"
    case JArr(_) => name == "array"
    case JObj(_) => name == "object"
  }

  predicate TypeAccepts(types: seq<string>, j: Json) {
    types == [] || exists name :: name in types && HasType(name, j)
  }

  /**
   `properties`, `items` and `allOf` are as in JSON Schema Core 2020-12, sections 10.3.2.1, 10.3.1.2 and
   10.2.1.1; `enum` and `required` as in JSON Schema Validation 2020-12, sections 6.1.2 and 6.5.3.
   */
  predicate Accepts(t: Tree, j: Json)
    decreases t
  {
    && TypeAccepts(t.types, j)
    && (t.enum == [] || j in t.enum)
    && (j.JObj? ==>
          && (forall r | r in t.required :: r in j.fields)
          && forall i | 0 <= i < |t.properties| ::
               t.properties[i].name in j.fields && t.properties[i].tree.Some?
               ==> Accepts(t.properties[i].tree.value, j.fields[t.properties[i].name]))
    && (j.JArr? && t.items.Some? ==> forall i | 0 <= i < |j.elems| :: Accepts(t.items.value, j.elems[i]))
    && forall i | 0 <= i < |t.allOf| :: t.allOf[i].tree.Some? ==> Accepts(t.allOf[i].tree.value, j)
  }

  /** What one property entry asks of an object. */
  predicate EntryAccepts(e: Entry, fields: map<string, Json>) {
    e.name in fields && e.tree.Some? ==> Accepts(e.tree.value, fields[e.name])
  }

  predicate EntriesAccept(list: seq<Entry>, fields: map<string, Json>) {
    forall e | e in list :: EntryAccepts(e, fields)
  }

  lemma AcceptsByEntries(t: Tree, fields: map<string, Json>)
    ensures (forall i | 0 <= i < |t.properties| ::
               t.properties[i].name in fields && t.properties[i].tree.Some?
               ==> Accepts(t.properties[i].tree.value, fields[t.properties[i].name]))
            <==> EntriesAccept(t.properties, fields)
  {
    if EntriesAccept(t.properties, fields) {
      forall i | 0 <= i < |t.properties| ensures EntryAccepts(t.properties[i], fields) {
        assert t.properties[i] in t.properties;
      }
    }
  }

  // ---- types ----------------------------------------------------------------------------------------

  /** Rewriting `number` to `integer` does not matter to a document whose numbers are all integers. */
  lemma ConvertedAccepts(types: seq<string>, j: Json)
    requires IntegerNumbered(j)
    ensures TypeAccepts(Converted(types), j) <==> TypeAccepts(types, j)
  {
    var c := Converted(types);
    if name :| name in types && HasType(name, j) {
      var i :| 0 <= i < |types| && types[i] == name;
      assert c[i] in c && HasType(c[i], j);
    }
    if name :| name in c && HasType(name, j) {
      var i :| 0 <= i < |c| && c[i] == name;
      assert types[i] in types && HasType(types[i], j);
    }
  }

  // ---- merging --------------------------------------------------------------------------------------

  ghost predicate GivesProperty(parts: seq<Entry>, e: Entry) {
    exists p :: p in parts && p.tree.Some? && e in p.tree.value.properties
  }

  ghost predicate GivesRequired(parts: seq<Entry>, r: string) {
    exists p :: p in parts && p.tree.Some? && r in p.tree.value.required
  }

  ghost predicate GivesEnum(parts: seq<Entry>, v: Json) {
    exists p :: p in parts && p.tree.Some? && p.tree.value.properties == [] && v in p.tree.value.enum
  }

  lemma GivesMore(parts: seq<Entry>, more: seq<Entry>)
    requires forall p | p in parts :: p in more
    ensures forall e | GivesProperty(parts, e) :: GivesProperty(more, e)
    ensures forall r | GivesRequired(parts, r) :: GivesRequired(more, r)
    ensures forall v | GivesEnum(parts, v) :: GivesEnum(more, v)
  {
  }

  /** What merging takes from the parts, in terms of the parts. */
  lemma {:induction false} GatheredFrom(parts: seq<Entry>)
    ensures forall e | e in GatherTrees(parts).properties :: GivesProperty(parts, e)
    ensures forall r | r in GatherTrees(parts).required :: GivesRequired(parts, r)
    ensures forall v | v in GatherTrees(parts).enum :: GivesEnum(parts, v)
  {
    if parts != [] {
      var init, last := parts[..|parts| - 1], parts[|parts| - 1];
      GatheredFrom(init);
      GivesMore(init, parts);
      assert last in parts;
    }
  }

  lemma {:induction false} GatheredAll(parts: seq<Entry>, p: Entry)
    requires p in parts && p.tree.Some?
    ensures var g := GatherTrees(parts);
      && (forall e | e in p.tree.value.properties :: e in g.properties)
      && (forall r | r in p.tree.value.required :: r in g.required)
      && (p.tree.value.properties == [] ==> forall v | v in p.tree.value.enum :: v in g.enum)
  {
    if p != parts[|parts| - 1] {
      assert parts == parts[..|parts| - 1] + [parts[|parts| - 1]];
      GatheredAll(parts[..|parts| - 1], p);
    }
  }

  lemma {:induction false} AdoptedFrom(own: seq<Entry>, extra: seq<Entry>)
    ensures forall e | e in AdoptedEntries(own, extra) :: e in own || e in extra
    ensures forall e | e in own :: e in AdoptedEntries(own, extra)
    decreases extra
  {
    if extra != [] {
      AdoptedFrom(if exists p :: p in own && p.name == extra[0].name then own else own + [extra[0]], extra[1..]);
    }
  }

  // ---- loosening ------------------------------------------------------------------------------------

  lemma {:induction false} ListLoosens(list: seq<Entry>, fields: map<string, Json>)
    requires forall k | k in fields :: IntegerNumbered(fields[k])
    requires EntriesAccept(list, fields)
    ensures EntriesAccept(PreparedList(list), fields)
    decreases list, 0
  {
    if list != [] {
      var e := list[0];
      assert EntryAccepts(e, fields);
      if e.name in fields && e.tree.Some? {
        PreparationLoosens(e.tree.value, fields[e.name]);
      }
      ListLoosens(list[1..], fields);
    }
  }

  lemma {:induction false} PartsLoosen(list: seq<Entry>, j: Json)
    requires IntegerNumbered(j)
    requires forall p | p in list && p.tree.Some? :: Accepts(p.tree.value, j)
    ensures forall p | p in PreparedList(list) && p.tree.Some? :: Accepts(p.tree.value, j)
    decreases list, 0
  {
    if list != [] {
      if list[0].tree.Some? {
        assert list[0] in list;
        PreparationLoosens(list[0].tree.value, j);
      }
      PartsLoosen(list[1..], j);
    }
  }

  lemma {:induction false} FullLoosens(t: Tree, fields: map<string, Json>)
    requires IntegerNumbered(JObj(fields)) && Accepts(t, JObj(fields))
    ensures EntriesAccept(FullProperties(t), fields)
    decreases t, 0
  {
    AcceptsByEntries(t, fields);
    ListLoosens(t.properties, fields);
    assert forall p | p in t.allOf && p.tree.Some? :: Accepts(p.tree.value, JObj(fields));
    FullPartsLoosen(t.allOf, fields);
    AdoptedFrom(PreparedList(t.properties), FullParts(t.allOf));
  }

  lemma {:induction false} FullPartsLoosen(parts: seq<Entry>, fields: map<string, Json>)
    requires IntegerNumbered(JObj(fields))
    requires forall p | p in parts && p.tree.Some? :: Accepts(p.tree.value, JObj(fields))
    ensures EntriesAccept(FullParts(parts), fields)
    decreases parts, 0
  {
    if parts != [] {
      var init, last := parts[..|parts| - 1], parts[|parts| - 1];
      FullPartsLoosen(init, fields);
      if last.tree.Some? {
        FullLoosens(last.tree.value, fields);
      }
    }
  }

  /**
   Preparation only loosens: an integer-numbered document that satisfies the vendor's schema, `allOf`
   read as conjunction, satisfies the schema that preparation leaves behind.
   */
  lemma {:induction false} PreparationLoosens(t: Tree, j: Json)
    requires IntegerNumbered(j)
    requires Accepts(t, j)
    ensures Accepts(Prepared(t), j)
    decreases t, 1
  {
    ConvertedAccepts(t.types, j);
    if j.JArr? && t.items.Some? {
      forall i | 0 <= i < |j.elems| ensures Accepts(Prepared(t.items.value), j.elems[i]) {
        PreparationLoosens(t.items.value, j.elems[i]);
      }
    }
    assert forall p | p in t.allOf && p.tree.Some? :: Accepts(p.tree.value, j);
    PartsLoosen(t.allOf, j);
    FirstTypesAccept(PreparedList(t.allOf), j);
    MergedEnumAccepts(t.enum, PreparedList(t.allOf), j);
    if j.JObj? {
      FullLoosens(t, j.fields);
      AcceptsByEntries(t, j.fields);
      MergedObjectAccepts(t, PreparedList(t.allOf), j.fields);
      PreparedShape(t);
      RequiredFrom(t);
    }
    MergedAccepts(t, j);
  }

  lemma RequiredFrom(t: Tree)
    ensures forall r | r in Prepared(t).required :: r in FirstSeen(t.required + GatherTrees(PreparedList(t.allOf)).required, {})
  {
    FirstSeenElements(t.required + GatherTrees(PreparedList(t.allOf)).required, {});
  }

  lemma AcceptsBy(t: Tree, j: Json)
    requires TypeAccepts(t.types, j) && (t.enum == [] || j in t.enum)
    requires j.JObj? ==> EntriesAccept(t.properties, j.fields) && forall r | r in t.required :: r in j.fields
    requires j.JArr? && t.items.Some? ==> forall i | 0 <= i < |j.elems| :: Accepts(t.items.value, j.elems[i])
    requires forall p | p in t.allOf && p.tree.Some? :: Accepts(p.tree.value, j)
    ensures Accepts(t, j)
  {
    if j.JObj? {
      AcceptsByEntries(t, j.fields);
    }
  }

  /** Keyword by keyword, the prepared schema accepts. */
  lemma MergedAccepts(t: Tree, j: Json)
    requires Accepts(t, j) && TypeAccepts(Converted(t.types), j) && TypeAccepts(FirstTypes(PreparedList(t.allOf)), j)
    requires var merged := FirstSeen(t.enum + GatherTrees(PreparedList(t.allOf)).enum, {}); merged == [] || j in merged
    requires j.JObj? ==>
      EntriesAccept(Prepared(t).properties, j.fields) && forall r | r in Prepared(t).required :: r in j.fields
    requires j.JArr? && t.items.Some? ==> forall i | 0 <= i < |j.elems| :: Accepts(Prepared(t.items.value), j.elems[i])
    requires forall p | p in PreparedList(t.allOf) && p.tree.Some? :: Accepts(p.tree.value, j)
    ensures Accepts(Prepared(t), j)
  {
    PreparedShape(t);
    AcceptsBy(Prepared(t), j);
  }

  lemma MergedEnumAccepts(enum: seq<Json>, parts: seq<Entry>, j: Json)
    requires forall p | p in parts && p.tree.Some? :: Accepts(p.tree.value, j)
    requires enum == [] || j in enum
    ensures var merged := FirstSeen(enum + GatherTrees(parts).enum, {}); merged == [] || j in merged
  {
    var g := GatherTrees(parts);
    GatheredFrom(parts);
    FirstSeenElements(enum + g.enum, {});
    if enum == [] && g.enum != [] {
      assert g.enum[0] in g.enum;
      var p :| p in parts && p.tree.Some? && p.tree.value.properties == [] && g.enum[0] in p.tree.value.enum;
      assert j in p.tree.value.enum;
      GatheredAll(parts, p);
    }
  }

  lemma MergedObjectAccepts(t: Tree, parts: seq<Entry>, fields: map<string, Json>)
    requires parts == PreparedList(t.allOf) && forall p | p in parts && p.tree.Some? :: Accepts(p.tree.value, JObj(fields))
    requires EntriesAccept(t.properties, fields) && forall r | r in t.required :: r in fields
    ensures EntriesAccept(MergedList(t), fields)
    ensures forall r | r in FirstSeen(t.required + GatherTrees(parts).required, {}) :: r in fields
  {
    var g := GatherTrees(parts);
    GatheredFrom(parts);
    AdoptedFrom(t.properties, g.properties);
    FirstSeenElements(t.required + g.required, {});
    forall e | e in MergedList(t) ensures EntryAccepts(e, fields) {
      if e !in t.properties {
        var p :| p in parts && p.tree.Some? && e in p.tree.value.properties;
        AcceptsByEntries(p.tree.value, fields);
      }
    }
    forall r | r in g.required ensures r in fields {
      var p :| p in parts && p.tree.Some? && r in p.tree.value.required;
    }
  }

  lemma {:induction false} FirstTypesAccept(parts: seq<Entry>, j: Json)
    requires forall p | p in parts && p.tree.Some? :: Accepts(p.tree.value, j)
    ensures TypeAccepts(FirstTypes(parts), j)
  {
    if parts != [] {
      assert parts[0] in parts;
      FirstTypesAccept(parts[1..], j);
    }
  }

  // ---- exactness ------------------------------------------------------------------------------------

  /** The type a schema ends up with: its own, else the first one its parts end up with. */
  function EffectiveTypes(t: Tree): seq<string>
    decreases t, 1
  {
    if t.types != [] then Converted(t.types) else PartTypes(t.allOf)
  }

  function PartTypes(parts: seq<Entry>): seq<string>
    decreases parts, 0
  {
    if parts == [] then []
    else if parts[0].tree.Some? && EffectiveTypes(parts[0].tree.value) != [] then EffectiveTypes(parts[0].tree.value)
    else PartTypes(parts[1..])
  }

  function Names(list: seq<Entry>): seq<string> {
    seq(|list|, i requires 0 <= i < |list| => list[i].name)
  }

  /** The property names declared by a schema and, through allOf, by its parts. */
  function FlatNames(t: Tree): seq<string>
    decreases t, 1
  {
    Names(t.properties) + PartNames(t.allOf)
  }

  function PartNames(parts: seq<Entry>): seq<string>
    decreases parts, 0
  {
    if parts == [] then [] else
      PartNames(parts[..|parts| - 1]) + (match parts[|parts| - 1].tree case None => [] case Some(p) => FlatNames(p))
  }

  predicate HasEnum(t: Tree)
    decreases t
  {
    t.enum != [] || exists i | 0 <= i < |t.allOf| :: t.allOf[i].tree.Some? && HasEnum(t.allOf[i].tree.value)
  }

  /** Neither the schema nor anything below its allOf has an array or object in its enum. */
  predicate PlainEnums(t: Tree)
    decreases t
  {
    AllComparable(t.enum) && forall i | 0 <= i < |t.allOf| :: t.allOf[i].tree.Some? ==> PlainEnums(t.allOf[i].tree.value)
  }

  predicate PlainParts(t: Tree) {
    forall i | 0 <= i < |t.allOf| && t.allOf[i].tree.Some? :: PlainEnums(t.allOf[i].tree.value)
  }

  /**
   The i-th part fits the schema it is merged into: no items, the same type if any, no second enum, and no
   array or object in an enum that the part itself would have to merge.
   */
  predicate PartFits(t: Tree, i: nat)
    requires i < |t.allOf| && t.allOf[i].tree.Some?
  {
    var p := t.allOf[i].tree.value;
    && p.items.None?
    && (EffectiveTypes(p) == [] || EffectiveTypes(p) == EffectiveTypes(t))
    && (HasEnum(p) ==> FlatNames(p) == [] && t.enum == [])
    && PlainParts(p)
  }

  /**
   No property name is declared twice across the node and its parts, the declared types agree, no part has
   items, and at most one enum is declared, by the node or by a part without properties; if by a part of a
   part, one without arrays and objects.
   */
  predicate NodeBehaves(t: Tree) {
    && NoDuplicates(PartNames(t.allOf))
    && (forall name | name in PartNames(t.allOf) :: name !in Names(t.properties))
    && (forall i | 0 <= i < |t.allOf| && t.allOf[i].tree.Some? :: PartFits(t, i))
    && (forall i, k | 0 <= i < k < |t.allOf| && t.allOf[i].tree.Some? && t.allOf[k].tree.Some? ::
          !(HasEnum(t.allOf[i].tree.value) && HasEnum(t.allOf[k].tree.value)))
  }

  predicate WellBehaved(t: Tree)
    decreases t
  {
    && NodeBehaves(t)
    && (t.items.Some? && PrimaryType(Converted(t.types)) == "array" ==> WellBehaved(t.items.value))
    && (forall i | 0 <= i < |t.properties| :: t.properties[i].tree.Some? ==> WellBehaved(t.properties[i].tree.value))
    && (forall i | 0 <= i < |t.allOf| :: t.allOf[i].tree.Some? ==> WellBehaved(t.allOf[i].tree.value))
  }

  lemma {:induction false} PreparedTypes(t: Tree)
    ensures Prepared(t).types == EffectiveTypes(t)
    decreases t, 1
  {
    assert Converted([]) == [];
    assert t.types != [] ==> Converted(t.types) != [];
    PreparedPartTypes(t.allOf);
  }

  lemma {:induction false} PreparedPartTypes(parts: seq<Entry>)
    ensures FirstTypes(PreparedList(parts)) == PartTypes(parts)
    decreases parts, 0
  {
    if parts != [] {
      if parts[0].tree.Some? {
        PreparedTypes(parts[0].tree.value);
      }
      PreparedPartTypes(parts[1..]);
    }
  }

  /** Nothing is dropped when no name is taken. */
  lemma {:induction false} AdoptedAll(own: seq<Entry>, extra: seq<Entry>)
    requires NoDuplicates(Names(extra)) && forall name | name in Names(extra) :: name !in Names(own)
    ensures AdoptedEntries(own, extra) == own + extra
    decreases extra
  {
    if extra != [] {
      var e, rest, more := extra[0], extra[1..], own + [extra[0]];
      NamesSplit([e], rest);
      NamesSplit(own, [e]);
      assert extra == [e] + rest && Names([e]) == [e.name];
      assert forall p | p in own :: p.name in Names(own) by { NamesIn(own); }
      FreshNames(Names(own), e.name, Names(rest));
      AdoptedAll(more, rest);
      assert own + extra == more + rest;
    }
  }

  lemma FreshNames(own: seq<string>, name: string, rest: seq<string>)
    requires NoDuplicates([name] + rest) && forall n | n in [name] + rest :: n !in own
    ensures name !in own && NoDuplicates(rest) && forall n | n in rest :: n !in own + [name]
  {
    var all := [name] + rest;
    assert forall i | 0 <= i < |rest| :: rest[i] == all[i + 1];
    assert name in all && forall n | n in rest :: n in all && n != all[0];
  }

  lemma NamesSplit(a: seq<Entry>, b: seq<Entry>)
    ensures Names(a + b) == Names(a) + Names(b)
  {
  }

  lemma NamesIn(list: seq<Entry>)
    ensures forall e | e in list :: e.name in Names(list)
  {
    forall e | e in list ensures e.name in Names(list) {
      var i :| 0 <= i < |list| && list[i] == e;
      assert Names(list)[i] == e.name;
    }
  }

  lemma {:induction false} PreparedNames(t: Tree)
    requires WellBehaved(t)
    ensures Names(Prepared(t).properties) == FlatNames(t) && Names(FullProperties(t)) == FlatNames(t)
    decreases t, 1
  {
    PreparedPartNames(t.allOf);
    FullNames(t);
    MergedNames(t);
    PreparedShape(t);
  }

  lemma SameNames(list: seq<Entry>)
    ensures Names(PreparedList(list)) == Names(list)
  {
  }

  /** On a well-behaved node every property of every part is kept. */
  lemma FullNames(t: Tree)
    requires NodeBehaves(t) && Names(FullParts(t.allOf)) == PartNames(t.allOf)
    ensures Names(FullProperties(t)) == Names(t.properties) + PartNames(t.allOf)
    ensures FullProperties(t) == PreparedList(t.properties) + FullParts(t.allOf)
  {
    SameNames(t.properties);
    AdoptedAll(PreparedList(t.properties), FullParts(t.allOf));
    NamesSplit(PreparedList(t.properties), FullParts(t.allOf));
  }

  lemma MergedNames(t: Tree)
    requires NodeBehaves(t) && Names(GatherTrees(PreparedList(t.allOf)).properties) == PartNames(t.allOf)
    ensures Names(MergedList(t)) == Names(t.properties) + PartNames(t.allOf)
  {
    AdoptedAll(t.properties, GatherTrees(PreparedList(t.allOf)).properties);
    NamesSplit(t.properties, GatherTrees(PreparedList(t.allOf)).properties);
  }

  lemma {:induction false} PreparedPartNames(parts: seq<Entry>)
    requires forall i | 0 <= i < |parts| :: parts[i].tree.Some? ==> WellBehaved(parts[i].tree.value)
    ensures Names(GatherTrees(PreparedList(parts)).properties) == PartNames(parts)
    ensures Names(FullParts(parts)) == PartNames(parts)
    decreases parts, 0
  {
    if parts != [] {
      var init, last := parts[..|parts| - 1], parts[|parts| - 1];
      PreparedPartNames(init);
      if last.tree.Some? {
        PreparedNames(last.tree.value);
      }
      LastGathered(parts);
      LastFull(parts);
    }
  }

  lemma LastGathered(parts: seq<Entry>)
    requires parts != []
    ensures var init, last := parts[..|parts| - 1], parts[|parts| - 1].tree;
      Names(GatherTrees(PreparedList(parts)).properties) ==
        Names(GatherTrees(PreparedList(init)).properties) + (if last.Some? then Names(Prepared(last.value).properties) else [])
  {
    var init, last := parts[..|parts| - 1], parts[|parts| - 1].tree;
    assert PreparedList(parts)[..|parts| - 1] == PreparedList(init);
    if last.Some? {
      NamesSplit(GatherTrees(PreparedList(init)).properties, Prepared(last.value).properties);
    }
  }

  lemma LastFull(parts: seq<Entry>)
    requires parts != []
    ensures var init, last := parts[..|parts| - 1], parts[|parts| - 1].tree;
      Names(FullParts(parts)) == Names(FullParts(init)) + (if last.Some? then Names(FullProperties(last.value)) else [])
  {
    var init, last := parts[..|parts| - 1], parts[|parts| - 1].tree;
    if last.Some? {
      NamesSplit(FullParts(init), FullProperties(last.value));
    }
  }

  lemma {:induction false} PreparedEnum(t: Tree)
    requires Prepared(t).enum != []
    ensures HasEnum(t)
    decreases t
  {
    if t.enum == [] {
      var k := EnumGiver(t);
      PreparedEnum(t.allOf[k].tree.value);
    }
  }

  /** A schema without an enum of its own owes its prepared one to a part. */
  lemma EnumGiver(t: Tree) returns (k: nat)
    requires Prepared(t).enum != [] && t.enum == []
    ensures k < |t.allOf| && t.allOf[k].tree.Some? && Prepared(t.allOf[k].tree.value).enum != []
  {
    var parts := PreparedList(t.allOf);
    var g := GatherTrees(parts).enum;
    FirstSeenElements(t.enum + g, {});
    assert Prepared(t).enum[0] in g;
    GatheredFrom(parts);
    var q :| q in parts && q.tree.Some? && q.tree.value.properties == [] && Prepared(t).enum[0] in q.tree.value.enum;
    k :| 0 <= k < |parts| && parts[k] == q;
  }

  /** A merged enum value comes from the enum of a part, and that part has one. */
  lemma MergedEnumFrom(t: Tree, v: Json) returns (k: nat)
    requires v in GatherTrees(PreparedList(t.allOf)).enum
    ensures k < |t.allOf| && t.allOf[k].tree.Some? && HasEnum(t.allOf[k].tree.value)
    ensures v in Prepared(t.allOf[k].tree.value).enum
  {
    var parts := PreparedList(t.allOf);
    GatheredFrom(parts);
    var q :| q in parts && q.tree.Some? && q.tree.value.properties == [] && v in q.tree.value.enum;
    k :| 0 <= k < |parts| && parts[k] == q;
    PreparedEnum(t.allOf[k].tree.value);
  }

  /** The prepared enum comes from the schema and its parts. */
  lemma PreparedEnums(t: Tree)
    ensures var g, p := GatherTrees(PreparedList(t.allOf)), Prepared(t);
      && (forall v | v in p.enum :: v in t.enum || v in g.enum)
      && (!Cut(t) ==> forall v | v in t.enum || v in g.enum :: v in p.enum)
      && (Cut(t) ==> p.enum == t.enum)
  {
    FirstSeenElements(t.enum + GatherTrees(PreparedList(t.allOf)).enum, {});
  }

  /** So do the required names. */
  lemma PreparedRequired(t: Tree)
    ensures forall r | r in t.required || r in GatherTrees(PreparedList(t.allOf)).required :: r in Prepared(t).required
  {
    FirstSeenElements(t.required + GatherTrees(PreparedList(t.allOf)).required, {});
  }

  lemma {:induction false} PlainPrepared(t: Tree)
    requires PlainEnums(t)
    ensures AllComparable(Prepared(t).enum)
    decreases t, 1
  {
    PreparedEnums(t);
    PlainGathered(t);
  }

  lemma {:induction false} PlainGathered(t: Tree)
    requires PlainParts(t)
    ensures AllComparable(GatherTrees(PreparedList(t.allOf)).enum)
    decreases t, 0
  {
    forall v | v in GatherTrees(PreparedList(t.allOf)).enum ensures Comparable(v) {
      var k := MergedEnumFrom(t, v);
      PlainPrepared(t.allOf[k].tree.value);
    }
  }

  /** Where the merge goes through, it went through in every part. */
  lemma UncutPart(t: Tree, i: nat)
    requires NodeBehaves(t) && !Cut(t)
    requires i < |t.allOf| && t.allOf[i].tree.Some? && WellBehaved(t.allOf[i].tree.value)
    ensures !Cut(t.allOf[i].tree.value)
  {
    var p, parts := t.allOf[i].tree.value, PreparedList(t.allOf);
    assert PartFits(t, i);
    PlainGathered(p);
    if !AllComparable(p.enum) {
      PreparedNames(p);
      assert |Names(Prepared(p).properties)| == |Prepared(p).properties|;
      assert parts[i] in parts;
      GatheredAll(parts, parts[i]);
      PreparedEnums(p);
    }
  }

  lemma {:induction false} ListTightens(list: seq<Entry>, fields: map<string, Json>)
    requires forall k | k in fields :: IntegerNumbered(fields[k])
    requires forall i | 0 <= i < |list| :: list[i].tree.Some? ==> WellBehaved(list[i].tree.value)
    requires EntriesAccept(PreparedList(list), fields)
    ensures EntriesAccept(list, fields)
    decreases list, 0
  {
    if list != [] {
      var e := list[0];
      var prepared := PreparedList(list);
      assert prepared[0] in prepared && EntryAccepts(prepared[0], fields);
      if e.name in fields && e.tree.Some? {
        PreparationExact(e.tree.value, fields[e.name]);
      }
      assert forall x | x in prepared[1..] :: x in prepared;
      ListTightens(list[1..], fields);
    }
  }

  /** On a well-behaved schema, preparation gains no integer-numbered document. */
  lemma {:induction false} PreparationExact(t: Tree, j: Json)
    requires IntegerNumbered(j) && WellBehaved(t)
    requires Accepts(Prepared(t), j)
    ensures Accepts(t, j)
    decreases t, 1
  {
    ConvertedAccepts(t.types, j);
    assert t.types != [] ==> Converted(t.types) != [];
    PreparedOwn(t, j);
    if j.JArr? && t.items.Some? && PrimaryType(Converted(t.types)) == "array" {
      forall i | 0 <= i < |j.elems| ensures Accepts(t.items.value, j.elems[i]) {
        PreparationExact(t.items.value, j.elems[i]);
      }
    }
    if j.JObj? {
      if !Cut(t) {
        ListTightens(t.properties, j.fields);
      }
      AcceptsByEntries(t, j.fields);
    }
    forall i | 0 <= i < |t.allOf| && t.allOf[i].tree.Some? ensures Accepts(t.allOf[i].tree.value, j) {
      PreparedPart(t, j, i);
      PreparationExact(t.allOf[i].tree.value, j);
    }
  }

  /** What the prepared schema says about the schema's own keywords. */
  lemma PreparedOwn(t: Tree, j: Json)
    requires NodeBehaves(t) && Accepts(Prepared(t), j)
    ensures t.enum == [] || j in t.enum
    ensures j.JObj? ==>
      && (forall r | r in t.required :: r in j.fields)
      && EntriesAccept(if Cut(t) then t.properties else PreparedList(t.properties), j.fields)
  {
    PreparedOwnEnum(t, j);
    if j.JObj? {
      AcceptsByEntries(Prepared(t), j.fields);
      PreparedOwnObject(t, j.fields);
    }
  }

  lemma PreparedOwnEnum(t: Tree, j: Json)
    requires NodeBehaves(t) && (Prepared(t).enum == [] || j in Prepared(t).enum)
    ensures t.enum == [] || j in t.enum
  {
    if t.enum != [] {
      OwnEnumAlone(t);
      PreparedEnums(t);
      assert t.enum[0] in t.enum;
    }
  }

  lemma PreparedOwnObject(t: Tree, fields: map<string, Json>)
    requires EntriesAccept(Prepared(t).properties, fields) && forall r | r in Prepared(t).required :: r in fields
    ensures forall r | r in t.required :: r in fields
    ensures EntriesAccept(if Cut(t) then t.properties else PreparedList(t.properties), fields)
  {
    var g := GatherTrees(PreparedList(t.allOf));
    PreparedShape(t);
    FirstSeenElements(t.required + g.required, {});
    AdoptedFrom(PreparedList(t.properties), FullParts(t.allOf));
    AdoptedFrom(t.properties, g.properties);
  }

  lemma SecondEnum(t: Tree, k: nat)
    requires NodeBehaves(t) && k < |t.allOf| && t.allOf[k].tree.Some? && HasEnum(t.allOf[k].tree.value)
    ensures t.enum == []
  {
    assert PartFits(t, k);
  }

  lemma OwnEnumAlone(t: Tree)
    requires NodeBehaves(t) && t.enum != []
    ensures GatherTrees(PreparedList(t.allOf)).enum == []
  {
    var g := GatherTrees(PreparedList(t.allOf)).enum;
    if g != [] {
      assert g[0] in g;
      var k := MergedEnumFrom(t, g[0]);
      SecondEnum(t, k);
      assert false;
    }
  }

  /** What the prepared schema says about the i-th part: the merge carried all of it. */
  lemma PreparedPart(t: Tree, j: Json, i: nat)
    requires WellBehaved(t) && Accepts(Prepared(t), j)
    requires i < |t.allOf| && t.allOf[i].tree.Some?
    ensures Accepts(Prepared(t.allOf[i].tree.value), j)
  {
    PreparedShape(t);
    if Cut(t) {
      assert Prepared(t).allOf[i].tree.value == Prepared(t.allOf[i].tree.value);
    } else {
      PreparedUncutPart(t, j, i);
    }
  }

  lemma PreparedUncutPart(t: Tree, j: Json, i: nat)
    requires WellBehaved(t) && !Cut(t) && Accepts(Prepared(t), j)
    requires i < |t.allOf| && t.allOf[i].tree.Some?
    ensures Accepts(Prepared(t.allOf[i].tree.value), j)
  {
    var p := t.allOf[i].tree.value;
    assert PartFits(t, i);
    UncutPart(t, i);
    PreparedShape(p);
    PreparedTypes(t);
    PreparedTypes(p);
    PreparedPartEnum(t, j, i);
    if j.JObj? {
      AcceptsByEntries(Prepared(t), j.fields);
      PreparedPartObject(t, j.fields, i);
      AcceptsByEntries(Prepared(p), j.fields);
    }
  }

  lemma PreparedPartEnum(t: Tree, j: Json, i: nat)
    requires NodeBehaves(t) && !Cut(t) && i < |t.allOf| && t.allOf[i].tree.Some? && WellBehaved(t.allOf[i].tree.value)
    requires Prepared(t).enum == [] || j in Prepared(t).enum
    ensures var enum := Prepared(t.allOf[i].tree.value).enum; enum == [] || j in enum
  {
    if Prepared(t.allOf[i].tree.value).enum != [] {
      var g := GatherTrees(PreparedList(t.allOf)).enum;
      PartEnumAlone(t, i);
      PreparedEnums(t);
      assert g[0] in g;
    }
  }

  lemma PreparedPartObject(t: Tree, fields: map<string, Json>, i: nat)
    requires !Cut(t) && i < |t.allOf| && t.allOf[i].tree.Some? && !Cut(t.allOf[i].tree.value)
    requires WellBehaved(t)
    requires EntriesAccept(Prepared(t).properties, fields) && forall r | r in Prepared(t).required :: r in fields
    ensures var p := Prepared(t.allOf[i].tree.value);
      EntriesAccept(p.properties, fields) && forall r | r in p.required :: r in fields
  {
    PreparedShape(t);
    PreparedShape(t.allOf[i].tree.value);
    PreparedPartNames(t.allOf);
    FullNames(t);
    FullAll(t.allOf, i);
    PreparedRequired(t);
    GatheredAll(PreparedList(t.allOf), PreparedList(t.allOf)[i]);
  }

  lemma {:induction false} FullAll(parts: seq<Entry>, i: nat)
    requires i < |parts| && parts[i].tree.Some?
    ensures forall e | e in FullProperties(parts[i].tree.value) :: e in FullParts(parts)
  {
    if i < |parts| - 1 {
      FullAll(parts[..|parts| - 1], i);
    }
  }

  /** The one enum declared below allOf is the whole merged enum. */
  lemma PartEnumAlone(t: Tree, i: nat)
    requires NodeBehaves(t) && i < |t.allOf| && t.allOf[i].tree.Some? && WellBehaved(t.allOf[i].tree.value)
    requires Prepared(t.allOf[i].tree.value).enum != []
    ensures var g := GatherTrees(PreparedList(t.allOf)).enum;
      t.enum == [] && g != [] && forall v | v in g :: v in Prepared(t.allOf[i].tree.value).enum
  {
    var p, parts := t.allOf[i].tree.value, PreparedList(t.allOf);
    var g, enum := GatherTrees(parts).enum, Prepared(p).enum;
    PreparedEnum(p);
    assert PartFits(t, i);
    PreparedNames(p);
    assert |Names(Prepared(p).properties)| == |Prepared(p).properties|;
    assert parts[i] in parts;
    GatheredAll(parts, parts[i]);
    assert enum[0] in enum && enum[0] in g;
    forall v | v in g ensures v in enum {
      var k := MergedEnumFrom(t, v);
      assert k == i;
    }
  }

  /** The vendor's schema and the prepared one accept the same integer-numbered documents. */
  lemma PreparationPreservesAcceptance(t: Tree, j: Json)
    requires IntegerNumbered(j) && WellBehaved(t)
    ensures Accepts(Prepared(t), j) <==> Accepts(t, j)
  {
    if Accepts(t, j) {
      PreparationLoosens(t, j);
    } else if Accepts(Prepared(t), j) {
      PreparationExact(t, j);
    }
  }
}
