/** Tree-shaped schemas as values, and what CRD preparation makes of them. */
module SchemaTree {
  import opened Json
  import opened SchemaGraph

  /** A subschema: `name` is the property it belongs to, and "" for an allOf part. */
  datatype Entry = Entry(name: string, tree: Option<Tree>)

  /** A schema and everything below it; `id` is the object that holds it. */
  datatype Tree = Tree(
    id: Schema,
    types: seq<string>,
    properties: seq<Entry>,
    items: Option<Tree>,
    allOf: seq<Entry>,
    required: seq<string>,
    enum: seq<Json>)

  function Id(t: Option<Tree>): Schema? {
    match t
    case None => null
    case Some(tree) => tree.id
  }

  function EntryIds(list: seq<Entry>): seq<Schema?> {
    if list == [] then [] else [Id(list[0].tree)] + EntryIds(list[1..])
  }

  function PropertiesOf(list: seq<Entry>): seq<Property> {
    if list == [] then [] else [Property(list[0].name, Id(list[0].tree))] + PropertiesOf(list[1..])
  }

  function NodeOf(t: Tree): Node {
    Node(t.types, PropertiesOf(t.properties), Id(t.items), EntryIds(t.allOf), t.required, t.enum)
  }

  // ---- trees in a store -----------------------------------------------------------------------------

  function Ids(t: Tree): set<Schema>
    decreases t, 1
  {
    {t.id} + ListIds(t.properties) + (if t.items.Some? then Ids(t.items.value) else {}) + ListIds(t.allOf)
  }

  function ListIds(list: seq<Entry>): set<Schema>
    decreases list, 0
  {
    if list == [] then {}
    else (if list[0].tree.Some? then Ids(list[0].tree.value) else {}) + ListIds(list[1..])
  }

  /** The store holds the tree: each of its objects has exactly the content the tree says. */
  predicate Holds(h: Store, t: Tree)
    decreases t, 1
  {
    && t.id in h && h[t.id] == NodeOf(t)
    && ListHolds(h, t.properties)
    && (t.items.Some? ==> Holds(h, t.items.value))
    && ListHolds(h, t.allOf)
  }

  predicate ListHolds(h: Store, list: seq<Entry>)
    decreases list, 0
  {
    list != [] ==> (list[0].tree.Some? ==> Holds(h, list[0].tree.value)) && ListHolds(h, list[1..])
  }

  /** No object occurs twice in the tree. */
  predicate Unshared(t: Tree)
    decreases t, 1
  {
    && ListUnshared(t.properties) && ListUnshared(t.allOf)
    && t.id !in ListIds(t.properties) && t.id !in ListIds(t.allOf)
    && ListIds(t.properties) !! ListIds(t.allOf)
    && (t.items.Some? ==>
          && Unshared(t.items.value) && t.id !in Ids(t.items.value)
          && Ids(t.items.value) !! ListIds(t.properties) && Ids(t.items.value) !! ListIds(t.allOf))
  }

  predicate ListUnshared(list: seq<Entry>)
    decreases list, 0
  {
    list != [] ==>
      && ListUnshared(list[1..])
      && (list[0].tree.Some? ==> Unshared(list[0].tree.value) && Ids(list[0].tree.value) !! ListIds(list[1..]))
  }

  // ---- preparation of a tree ------------------------------------------------------------------------

  datatype GatheredTrees = GatheredTrees(properties: seq<Entry>, required: seq<string>, enum: seq<Json>)

  function GatherTrees(parts: seq<Entry>): GatheredTrees {
    if parts == [] then GatheredTrees([], [], []) else
      var g := GatherTrees(parts[..|parts| - 1]);
      match parts[|parts| - 1].tree
      case None => g
      case Some(p) =>
        GatheredTrees(g.properties + p.properties, g.required + p.required,
                      g.enum + if p.properties == [] then p.enum else [])
  }

  function AdoptedEntries(own: seq<Entry>, extra: seq<Entry>): seq<Entry>
    decreases extra
  {
    if extra == [] then own
    else if exists p :: p in own && p.name == extra[0].name then AdoptedEntries(own, extra[1..])
    else AdoptedEntries(own + [extra[0]], extra[1..])
  }

  function TypesOf(e: Entry): seq<string> {
    if e.tree.Some? then e.tree.value.types else []
  }

  /** The type a schema without one of its own inherits: the first one among the prepared parts. */
  function FirstTypes(parts: seq<Entry>): seq<string> {
    if parts == [] then [] else if TypesOf(parts[0]) != [] then TypesOf(parts[0]) else FirstTypes(parts[1..])
  }

  /** The merge at t is cut short: the list of enum values to be merged holds an array or an object. */
  predicate Cut(t: Tree)
    decreases t, 0
  {
    t.allOf != [] && !(AllComparable(t.enum) && AllComparable(GatherTrees(PreparedList(t.allOf)).enum))
  }

  /** The properties of a schema after its parts were merged into it. */
  function MergedList(t: Tree): seq<Entry>
    decreases t, 0
  {
    AdoptedEntries(t.properties, GatherTrees(PreparedList(t.allOf)).properties)
  }

  /** Where the merge is cut short, the parts stay and the schema's own properties are never entered. */
  function Prepared(t: Tree): Tree
    decreases t, 1
  {
    var types := Converted(t.types);
    var items := if PrimaryType(types) == "array" && t.items.Some? then Some(Prepared(t.items.value)) else t.items;
    if t.allOf == [] then Tree(t.id, types, FullProperties(t), items, [], t.required, t.enum) else
      var parts := PreparedList(t.allOf);
      var g := GatherTrees(parts);
      Tree(t.id, if types == [] then FirstTypes(parts) else types,
           if Cut(t) then MergedList(t) else FullProperties(t), items, if Cut(t) then parts else [],
           FirstSeen(t.required + g.required, {}), if Cut(t) then t.enum else FirstSeen(t.enum + g.enum, {}))
  }

  /** The properties of a schema and, through allOf, of its parts, all of them prepared. */
  function FullProperties(t: Tree): seq<Entry>
    decreases t, 0
  {
    AdoptedEntries(PreparedList(t.properties), FullParts(t.allOf))
  }

  function FullParts(parts: seq<Entry>): seq<Entry>
    decreases parts, 0
  {
    if parts == [] then [] else
      FullParts(parts[..|parts| - 1]) + (match parts[|parts| - 1].tree case None => [] case Some(p) => FullProperties(p))
  }

  function PreparedList(list: seq<Entry>): (r: seq<Entry>)
    ensures |r| == |list|
    ensures forall i | 0 <= i < |list| :: r[i].name == list[i].name
    ensures forall i | 0 <= i < |list| :: r[i].tree == if list[i].tree.Some? then Some(Prepared(list[i].tree.value)) else None
    decreases list, 0
  {
    if list == [] then []
    else [Entry(list[0].name, if list[0].tree.Some? then Some(Prepared(list[0].tree.value)) else None)] + PreparedList(list[1..])
  }

  /** What a prepared tree is made of. */
  lemma PreparedShape(t: Tree)
    ensures var p := Prepared(t);
      && p.id == t.id
      && p.items == (if PrimaryType(Converted(t.types)) == "array" && t.items.Some? then Some(Prepared(t.items.value)) else t.items)
      && p.properties == (if Cut(t) then MergedList(t) else FullProperties(t))
      && p.allOf == (if Cut(t) then PreparedList(t.allOf) else [])
  {
  }
}
