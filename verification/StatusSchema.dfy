/** Composing the status schema: each status field is resolved and added at its path. */
module StatusSchema {
  import opened Json
  import opened SchemaGraph
  import opened SchemaTree
  import opened IncludeTree

  predicate IsObject(e: Entry) {
    e.tree.Some? && PrimaryType(e.tree.value.types) == "object"
  }

  /**
   The property at a path. Below the last segment only objects are entered; a property of the right name
   that is no object is passed over.
   */
  function FoundIn(list: seq<Entry>, p: Path): Option<Entry>
    decreases list
  {
    if list == [] || p == [] then None
    else if list[0].name == p[0] && |p| == 1 then Some(list[0])
    else if list[0].name == p[0] && IsObject(list[0]) then FoundIn(list[0].tree.value.properties, p[1..])
    else FoundIn(list[1..], p)
  }

  /** How many objects have to be created on the way to a path. */
  function Missing(list: seq<Entry>, p: Path): nat
    requires p != []
    decreases list
  {
    if list == [] then |p| - 1
    else if list[0].name != p[0] then Missing(list[1..], p)
    else if |p| == 1 || !IsObject(list[0]) then 0
    else Missing(list[0].tree.value.properties, p[1..])
  }

  /**
   The properties after a leaf was added at a path. At each level the first property of the right name counts;
   a missing level becomes a new object, one of `made`; one that is there but is no object ends the attempt.
   */
  function Added(list: seq<Entry>, p: Path, leaf: Entry, made: seq<Schema>): seq<Entry>
    requires p != [] && |made| == Missing(list, p)
    decreases |p|, list
  {
    if list == [] then
      if |p| == 1 then [leaf] else [Entry(p[0], Some(NewObject(made[0], Added([], p[1..], leaf, made[1..]))))]
    else if list[0].name != p[0] then [list[0]] + Added(list[1..], p, leaf, made)
    else if |p| == 1 || !IsObject(list[0]) then list
    else [WithProperties(list[0], Added(list[0].tree.value.properties, p[1..], leaf, made))] + list[1..]
  }

  function NewObject(id: Schema, properties: seq<Entry>): Tree {
    Tree(id, ["object"], properties, None, [], [], [])
  }

  function WithProperties(e: Entry, properties: seq<Entry>): Entry
    requires e.tree.Some?
  {
    Entry(e.name, Some(e.tree.value.(properties := properties)))
  }

  /** The way to the path is barred: the first property at one of its proper prefixes is no object. */
  predicate Blocked(list: seq<Entry>, p: Path)
    decreases list
  {
    list != [] && p != [] &&
    if list[0].name != p[0] then Blocked(list[1..], p)
    else |p| > 1 && (!IsObject(list[0]) || Blocked(list[0].tree.value.properties, p[1..]))
  }

  // ---- one addition -----------------------------------------------------------------------------------

  /** What is found at the path afterwards: what was there, else the leaf, unless the way is barred. */
  lemma {:induction false} AddedFound(list: seq<Entry>, p: Path, leaf: Entry, made: seq<Schema>)
    requires p != [] && |made| == Missing(list, p) && leaf.name == p[|p| - 1]
    ensures FoundIn(Added(list, p, leaf, made), p) ==
      if FoundIn(list, p).Some? then FoundIn(list, p) else if Blocked(list, p) then None else Some(leaf)
    decreases |p|, list
  {
    if list == [] {
      if |p| > 1 {
        AddedFound([], p[1..], leaf, made[1..]);
        assert PrimaryType(["object"]) == "object";
      }
    } else if list[0].name != p[0] {
      AddedFound(list[1..], p, leaf, made);
      AddedHead(list, p, leaf, made);
    } else if |p| > 1 && IsObject(list[0]) {
      AddedFound(list[0].tree.value.properties, p[1..], leaf, made);
    }
  }

  lemma AddedHead(list: seq<Entry>, p: Path, leaf: Entry, made: seq<Schema>)
    requires p != [] && |made| == Missing(list, p) && list != [] && list[0].name != p[0]
    ensures var r := Added(list, p, leaf, made); r[0] == list[0] && r[1..] == Added(list[1..], p, leaf, made)
  {
  }

  /** An addition elsewhere at this level changes nothing about a path. */
  lemma {:induction false} AddedElsewhere(list: seq<Entry>, q: Path, leaf: Entry, made: seq<Schema>, p: Path)
    requires q != [] && |made| == Missing(list, q) && leaf.name == q[|q| - 1]
    requires p != [] && p[0] != q[0]
    ensures FoundIn(Added(list, q, leaf, made), p) == FoundIn(list, p)
    ensures Blocked(Added(list, q, leaf, made), p) == Blocked(list, p)
    decreases list
  {
    if list != [] && list[0].name != q[0] {
      AddedElsewhere(list[1..], q, leaf, made, p);
      AddedHead(list, q, leaf, made);
    }
  }

  /** An addition changes nothing at a path that is neither above nor below its own. */
  lemma {:induction false} AddedBeside(list: seq<Entry>, q: Path, leaf: Entry, made: seq<Schema>, p: Path)
    requires q != [] && |made| == Missing(list, q) && leaf.name == q[|q| - 1]
    requires p != [] && !Prefix(p, q) && !Prefix(q, p)
    ensures FoundIn(Added(list, q, leaf, made), p) == FoundIn(list, p)
    decreases |q|, list
  {
    if p[0] != q[0] {
      AddedElsewhere(list, q, leaf, made, p);
    } else {
      TailsApart(q, p);
      if list == [] {
        assert PrimaryType(["object"]) == "object";
        AddedBeside([], q[1..], leaf, made[1..], p[1..]);
      } else if list[0].name != q[0] {
        AddedHead(list, q, leaf, made);
        AddedBeside(list[1..], q, leaf, made, p);
      } else if IsObject(list[0]) {
        AddedBeside(list[0].tree.value.properties, q[1..], leaf, made, p[1..]);
        var rest := Added(list, q, leaf, made)[1..];
        assert rest == list[1..];
      }
    }
  }

  lemma TailsApart(q: Path, p: Path)
    requires q != [] && p != [] && q[0] == p[0] && !Prefix(p, q) && !Prefix(q, p)
    ensures |q| > 1 && |p| > 1 && !Prefix(p[1..], q[1..]) && !Prefix(q[1..], p[1..])
  {
    assert q == [q[0]] + q[1..] && p == [p[0]] + p[1..];
  }

  /** An object made on the way to a path: of type object, with the next segment as its one property. */
  predicate MadeObject(e: Entry, name: string, next: string) {
    && e.name == name && e.tree.Some?
    && var t := e.tree.value;
       && t == Tree(t.id, ["object"], t.properties, None, [], [], [])
       && |t.properties| == 1 && t.properties[0].name == next
  }

  /** What is missing on the way to a path that is not barred is made. */
  lemma {:induction false} AddedOnTheWay(list: seq<Entry>, p: Path, leaf: Entry, made: seq<Schema>, k: nat)
    requires p != [] && |made| == Missing(list, p) && leaf.name == p[|p| - 1]
    requires 0 < k < |p| && FoundIn(list, p[..k]).None? && !Blocked(list, p)
    ensures var found := FoundIn(Added(list, p, leaf, made), p[..k]); found.Some? && MadeObject(found.value, p[k - 1], p[k])
    decreases |p|, list
  {
    assert p[..k][0] == p[0] && p[..k][1..] == p[1..][..k - 1];
    assert PrimaryType(["object"]) == "object";
    if list == [] {
      FirstAdded(p[1..], leaf, made[1..]);
      if k > 1 {
        AddedOnTheWay([], p[1..], leaf, made[1..], k - 1);
      }
    } else if list[0].name != p[0] {
      AddedHead(list, p, leaf, made);
      AddedOnTheWay(list[1..], p, leaf, made, k);
    } else {
      AddedOnTheWay(list[0].tree.value.properties, p[1..], leaf, made, k - 1);
    }
  }

  lemma FirstAdded(p: Path, leaf: Entry, made: seq<Schema>)
    requires p != [] && |made| == |p| - 1 && leaf.name == p[|p| - 1]
    ensures var r := Added([], p, leaf, made); |r| == 1 && r[0].name == p[0]
  {
  }

  /** A barred path stays barred, and what is found there stays as it is. */
  lemma {:induction false} BlockedStays(list: seq<Entry>, q: Path, leaf: Entry, made: seq<Schema>, p: Path)
    requires q != [] && |made| == Missing(list, q) && leaf.name == q[|q| - 1]
    requires Blocked(list, p)
    ensures Blocked(Added(list, q, leaf, made), p)
    ensures FoundIn(Added(list, q, leaf, made), p).Some? == FoundIn(list, p).Some?
    decreases |q|, list
  {
    if p[0] != q[0] {
      AddedElsewhere(list, q, leaf, made, p);
    } else if list[0].name != q[0] {
      BlockedStays(list[1..], q, leaf, made, p);
      AddedHead(list, q, leaf, made);
    } else if |q| > 1 && IsObject(list[0]) {
      BlockedStays(list[0].tree.value.properties, q[1..], leaf, made, p[1..]);
    }
  }

  /** A path is barred after an addition only if it was before, or the added leaf bars it. */
  lemma {:induction false} BlockedBy(list: seq<Entry>, q: Path, leaf: Entry, made: seq<Schema>, p: Path)
    requires q != [] && |made| == Missing(list, q) && leaf.name == q[|q| - 1]
    requires Blocked(Added(list, q, leaf, made), p)
    ensures Blocked(list, p) || (Prefix(q, p) && |q| < |p| && Blocked([leaf], p[|q| - 1..]))
    decreases |q|, list
  {
    if p[0] != q[0] {
      AddedElsewhere(list, q, leaf, made, p);
    } else if list == [] {
      if |q| > 1 {
        assert PrimaryType(["object"]) == "object";
        BlockedBy([], q[1..], leaf, made[1..], p[1..]);
        Deeper(q, p);
      }
    } else if list[0].name != q[0] {
      AddedHead(list, q, leaf, made);
      BlockedBy(list[1..], q, leaf, made, p);
    } else if |q| > 1 && IsObject(list[0]) {
      BlockedBy(list[0].tree.value.properties, q[1..], leaf, made, p[1..]);
      Deeper(q, p);
    }
  }

  lemma Deeper(q: Path, p: Path)
    requires q != [] && p != [] && q[0] == p[0]
    ensures Prefix(q[1..], p[1..]) ==> Prefix(q, p)
    ensures 1 < |q| < |p| ==> p[1..][|q| - 2..] == p[|q| - 1..]
  {
    if Prefix(q[1..], p[1..]) {
      assert q == [q[0]] + q[1..] && p == [p[0]] + p[1..];
    }
  }

  // ---- growth -----------------------------------------------------------------------------------------

  /** Nothing is lost or reordered, no type changes; properties may have been added at the end of any level. */
  predicate Grows(list: seq<Entry>, list': seq<Entry>)
    decreases list
  {
    list != [] ==> list' != [] && GrowsEntry(list[0], list'[0]) && Grows(list[1..], list'[1..])
  }

  predicate GrowsEntry(e: Entry, e': Entry)
    decreases e
  {
    && e'.name == e.name
    && e'.tree.Some? == e.tree.Some?
    && (e.tree.Some? ==>
          var t, t' := e.tree.value, e'.tree.value;
          t' == t.(properties := t'.properties) && Grows(t.properties, t'.properties))
  }

  lemma {:induction false} GrowsSame(list: seq<Entry>)
    ensures Grows(list, list)
    decreases list
  {
    if list != [] {
      if list[0].tree.Some? {
        GrowsSame(list[0].tree.value.properties);
      }
      GrowsSame(list[1..]);
    }
  }

  lemma {:induction false} GrowsThen(a: seq<Entry>, b: seq<Entry>, c: seq<Entry>)
    requires Grows(a, b) && Grows(b, c)
    ensures Grows(a, c)
    decreases a
  {
    if a != [] {
      if a[0].tree.Some? {
        GrowsThen(a[0].tree.value.properties, b[0].tree.value.properties, c[0].tree.value.properties);
      }
      GrowsThen(a[1..], b[1..], c[1..]);
    }
  }

  lemma {:induction false} AddedGrows(list: seq<Entry>, p: Path, leaf: Entry, made: seq<Schema>)
    requires p != [] && |made| == Missing(list, p)
    ensures Grows(list, Added(list, p, leaf, made))
    decreases list
  {
    GrowsSame(list);
    if list != [] {
      GrowsSame(list[1..]);
      GrowsSame([list[0]]);
      if list[0].name != p[0] {
        AddedGrows(list[1..], p, leaf, made);
        AddedHead(list, p, leaf, made);
      } else if |p| > 1 && IsObject(list[0]) {
        AddedGrows(list[0].tree.value.properties, p[1..], leaf, made);
      }
    }
  }

  /** A field that was found stays found: the same property, at most with more inside. */
  lemma {:induction false} GrowthKeeps(list: seq<Entry>, list': seq<Entry>, p: Path)
    requires Grows(list, list') && FoundIn(list, p).Some?
    ensures FoundIn(list', p).Some? && GrowsEntry(FoundIn(list, p).value, FoundIn(list', p).value)
    decreases list
  {
    if list[0].name == p[0] && |p| == 1 {
    } else if list[0].name == p[0] && IsObject(list[0]) {
      GrowthKeeps(list[0].tree.value.properties, list'[0].tree.value.properties, p[1..]);
    } else {
      GrowthKeeps(list[1..], list'[1..], p);
    }
  }

  // ---- what is added for a field ----------------------------------------------------------------------

  /** A response field mapping: the kind of value mapping, and the source path unless it cannot be parsed. */
  datatype Mapping = Mapping(kind: string, source: Option<Path>)

  lemma {:induction false} FoundNamed(list: seq<Entry>, p: Path)
    requires FoundIn(list, p).Some?
    ensures FoundIn(list, p).value.name == p[|p| - 1]
    decreases list
  {
    if list[0].name == p[0] && |p| == 1 {
    } else if list[0].name == p[0] && IsObject(list[0]) {
      FoundNamed(list[0].tree.value.properties, p[1..]);
    } else {
      FoundNamed(list[1..], p);
    }
  }

  /**
   The property a field stands for. A mapped field takes its schema from the mapping's source; a jq or alias
   mapping, and anything that is not found, makes it a string.
   */
  function Resolved(response: seq<Entry>, mapping: Option<Mapping>, p: Path, text: Tree): (leaf: Entry)
    requires p != []
    ensures leaf.name == p[|p| - 1]
  {
    var name := p[|p| - 1];
    match mapping
    case Some(m) =>
      if m.kind != "jq" && m.source.Some? && FoundIn(response, m.source.value).Some? && m.kind != "alias"
      then Entry(name, FoundIn(response, m.source.value).value.tree)
      else Entry(name, Some(text))
    case None =>
      if FoundIn(response, p).Some? then
        FoundNamed(response, p);
        FoundIn(response, p).value
      else Entry(name, Some(text))
  }

  // ---- a whole list of fields -------------------------------------------------------------------------

  /** One addition: the field's path, the property it stands for, and the objects created on the way. */
  datatype Addition = Addition(path: Path, leaf: Entry, made: seq<Schema>)

  ghost predicate Adds(before: seq<Entry>, a: Addition, after: seq<Entry>) {
    && a.path != [] && a.leaf.name == a.path[|a.path| - 1]
    && |a.made| == Missing(before, a.path)
    && after == Added(before, a.path, a.leaf, a.made)
  }

  /** states[i] are the status properties after the first i fields; composition starts from no properties. */
  ghost predicate Composition(fields: seq<Addition>, states: seq<seq<Entry>>) {
    && |states| == |fields| + 1 && states[0] == []
    && forall i {:trigger fields[i]} | 0 <= i < |fields| :: Adds(states[i], fields[i], states[i + 1])
  }

  lemma {:induction false} CompositionGrows(fields: seq<Addition>, states: seq<seq<Entry>>, i: nat, k: nat)
    requires Composition(fields, states) && i <= k <= |fields|
    ensures Grows(states[i], states[k])
    decreases k
  {
    if i == k {
      GrowsSame(states[i]);
    } else {
      CompositionGrows(fields, states, i, k - 1);
      var a := fields[k - 1];
      AddedGrows(states[k - 1], a.path, a.leaf, a.made);
      GrowsThen(states[i], states[k - 1], states[k]);
    }
  }

  lemma {:induction false} StaysBlocked(fields: seq<Addition>, states: seq<seq<Entry>>, i: nat, k: nat, p: Path)
    requires Composition(fields, states) && i <= k <= |fields|
    requires Blocked(states[i], p) && FoundIn(states[i], p).None?
    ensures Blocked(states[k], p) && FoundIn(states[k], p).None?
    decreases k
  {
    if i < k {
      StaysBlocked(fields, states, i, k - 1, p);
      var a := fields[k - 1];
      BlockedStays(states[k - 1], a.path, a.leaf, a.made, p);
    }
  }

  /** Field k put something at a proper prefix of p through which p cannot be reached. */
  ghost predicate Bars(a: Addition, p: Path) {
    a.path != [] && Prefix(a.path, p) && |a.path| < |p| && Blocked([a.leaf], p[|a.path| - 1..])
  }

  /** Whatever bars a path was put there by one of the fields added before. */
  lemma {:induction false} BarredByField(fields: seq<Addition>, states: seq<seq<Entry>>, i: nat, p: Path) returns (k: nat)
    requires Composition(fields, states) && i <= |fields| && Blocked(states[i], p)
    ensures k < i && Bars(fields[k], p)
    decreases i
  {
    var a := fields[i - 1];
    BlockedBy(states[i - 1], a.path, a.leaf, a.made, p);
    if Blocked(states[i - 1], p) {
      k := BarredByField(fields, states, i - 1, p);
    } else {
      k := i - 1;
    }
  }

  /**
   Composition is complete up to barred paths: at the end a field is found at its path iff it was there before
   its turn or its way was not barred then; and what bars a way is a property of an earlier field.
   */
  lemma CompositionComplete(fields: seq<Addition>, states: seq<seq<Entry>>, i: nat)
    requires Composition(fields, states) && i < |fields|
    ensures var p, final := fields[i].path, states[|fields|];
      && (FoundIn(final, p).Some? <==> FoundIn(states[i], p).Some? || !Blocked(states[i], p))
      && (FoundIn(final, p).None? ==> exists k :: 0 <= k < i && Bars(fields[k], p))
      && (FoundIn(states[i], p).None? && !Blocked(states[i], p) ==> GrowsEntry(fields[i].leaf, FoundIn(final, p).value))
  {
    var a, p := fields[i], fields[i].path;
    AddedFound(states[i], p, a.leaf, a.made);
    if Blocked(states[i], p) && FoundIn(states[i], p).None? {
      StaysBlocked(fields, states, i, |fields|, p);
      var k := BarredByField(fields, states, i, p);
    } else {
      CompositionGrows(fields, states, i + 1, |fields|);
      GrowthKeeps(states[i + 1], states[|fields|], p);
    }
  }

  /** The added property is a copy of what the field resolves to. */
  predicate Copies(leaf: Entry, resolved: Entry) {
    && leaf.name == resolved.name && leaf.tree.Some? == resolved.tree.Some?
    && (leaf.tree.Some? ==> leaf.tree.value.types == resolved.tree.value.types)
  }

  /**
   The type a placed field ends with: that of its path in the response, or of the mapping's source path, and a
   string when that is not found, or when the mapping's outcome cannot be told from the response.
   */
  lemma StatusTypes(fields: seq<Addition>, states: seq<seq<Entry>>, i: nat, response: seq<Entry>, mapping: Option<Mapping>, text: Tree)
    requires Composition(fields, states) && i < |fields| && fields[i].path != [] && text.types == ["string"]
    requires Copies(fields[i].leaf, Resolved(response, mapping, fields[i].path, text))
    requires FoundIn(states[i], fields[i].path).None? && !Blocked(states[i], fields[i].path)
    ensures var found := FoundIn(states[|fields|], fields[i].path);
      var source := if mapping.None? then Some(fields[i].path) else if mapping.value.kind in {"jq", "alias"} then None else mapping.value.source;
      var told := if source.None? then None else FoundIn(response, source.value);
      && found.Some?
      && (told.None? ==> found.value.tree.Some? && found.value.tree.value.types == ["string"])
      && (told.Some? ==> found.value.tree.Some? == told.value.tree.Some?)
      && (told.Some? && told.value.tree.Some? ==> found.value.tree.value.types == told.value.tree.value.types)
  {
    CompositionComplete(fields, states, i);
  }
}
