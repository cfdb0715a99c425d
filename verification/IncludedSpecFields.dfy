/** Pruning a spec schema down to its declared fields. */
module IncludedSpecFields {
  import opened Json
  import opened Lists
  import opened SchemaTree
  import opened SchemaAcceptance
  import opened IncludeTree

  /** The root-level fields no allowlist may drop. */
  datatype AlwaysKept = AlwaysKept(requiredParameters: set<string>, identifierSelectors: set<string>, configurationRef: bool) {
    predicate Keeps(name: string) {
      (configurationRef && name == "configurationRef") || name in requiredParameters || name in identifierSelectors
    }
  }

  // ---- pruning, on trees ------------------------------------------------------------------------------

  predicate Present(list: seq<Entry>, name: string) {
    exists e :: e in list && e.name == name
  }

  function Retained(names: seq<string>, list: seq<Entry>): seq<string> {
    if names == [] then []
    else (if Present(list, names[0]) then [names[0]] else []) + Retained(names[1..], list)
  }

  function Pruned(t: Tree, marks: map<Path, bool>, at: Path, kept: AlwaysKept): Tree
    decreases t, 1
  {
    var surviving := PrunedList(t.properties, marks, at, kept);
    t.(properties := surviving, required := Retained(t.required, surviving))
  }

  function PrunedList(list: seq<Entry>, marks: map<Path, bool>, at: Path, kept: AlwaysKept): seq<Entry>
    decreases list, 0
  {
    if list == [] then []
    else PrunedEntry(list[0], marks, at, kept) + PrunedList(list[1..], marks, at, kept)
  }

  /** What is left of one property: nothing, or the property with its schema pruned unless it is kept whole. */
  function PrunedEntry(e: Entry, marks: map<Path, bool>, at: Path, kept: AlwaysKept): seq<Entry>
    decreases e, 2
  {
    var child := at + [e.name];
    if at == [] && kept.Keeps(e.name) then [e]
    else if child !in marks then []
    else if marks[child] || e.tree.None? then [e]
    else [Entry(e.name, Some(Pruned(e.tree.value, marks, child, kept)))]
  }

  /** Some chain of properties spells the path. */
  predicate HasPath(t: Tree, p: Path) {
    ListHasPath(t.properties, p)
  }

  predicate ListHasPath(list: seq<Entry>, p: Path)
    decreases list, 0
  {
    list != [] && (EntryHasPath(list[0], p) || ListHasPath(list[1..], p))
  }

  predicate EntryHasPath(e: Entry, p: Path)
    decreases e, 1
  {
    p != [] && e.name == p[0] && (|p| == 1 || (e.tree.Some? && ListHasPath(e.tree.value.properties, p[1..])))
  }

  /** A declared path leads to p, or through p. */
  ghost predicate Declares(declared: set<Path>, p: Path) {
    exists d :: d in declared && (Prefix(d, p) || Prefix(p, d))
  }

  /** No declared path ends at or above `at`. */
  ghost predicate Open(declared: set<Path>, at: Path) {
    forall d | d in declared :: !Prefix(d, at)
  }

  lemma ShortPrefix(d: Path, at: Path, more: Path)
    ensures Prefix(d, at + more) && |d| <= |at| ==> Prefix(d, at)
    ensures Prefix(at + more, d) ==> Prefix(at, d)
  {
    if Prefix(d, at + more) && |d| <= |at| {
      assert d == (at + more)[..|d|] == at[..|d|];
    }
    if Prefix(at + more, d) {
      assert at == (at + more)[..|at|] == d[..|at|];
    }
  }

  lemma OpenStep(declared: set<Path>, at: Path, name: string)
    requires Open(declared, at) && at + [name] !in declared
    ensures Open(declared, at + [name])
  {
    forall d | d in declared ensures !Prefix(d, at + [name]) {
      ShortPrefix(d, at, [name]);
      assert Prefix(d, at + [name]) && |d| == |at + [name]| ==> d == at + [name];
    }
  }

  /** Below an open level, a path is declared about only through the node of its first segment. */
  lemma DeclaredThrough(marks: map<Path, bool>, declared: set<Path>, at: Path, p: Path)
    requires Spells(marks, declared) && Open(declared, at) && p != []
    ensures Declares(declared, at + p) ==> at + [p[0]] in marks
    ensures at + [p[0]] in marks && (|p| == 1 || marks[at + [p[0]]]) ==> Declares(declared, at + p)
  {
    var child, all := at + [p[0]], at + p;
    assert all == child + p[1..];
    if d :| d in declared && (Prefix(d, all) || Prefix(all, d)) {
      ShortPrefix(d, at, p);
      assert Prefix(d, all) ==> child == d[..|at| + 1];
      ShortPrefix(d, child, p[1..]);
      assert Prefix(child, d);
    }
    if child in marks && marks[child] {
      assert Prefix(child, all);
    }
    if child in marks && |p| == 1 {
      assert all == child;
    }
  }

  lemma {:induction false} PrunedListPaths(list: seq<Entry>, marks: map<Path, bool>, declared: set<Path>, at: Path, kept: AlwaysKept, p: Path)
    requires Spells(marks, declared) && Open(declared, at) && p != []
    ensures ListHasPath(PrunedList(list, marks, at, kept), p) <==>
      ListHasPath(list, p) && ((at == [] && kept.Keeps(p[0])) || Declares(declared, at + p))
    decreases list, 0
  {
    if list != [] {
      var first, rest := PrunedEntry(list[0], marks, at, kept), PrunedList(list[1..], marks, at, kept);
      PrunedEntryPaths(list[0], marks, declared, at, kept, p);
      PrunedListPaths(list[1..], marks, declared, at, kept, p);
      assert if first == [] then first + rest == rest else (first + rest)[0] == first[0] && (first + rest)[1..] == rest;
    }
  }

  /** What survives of one property at one level of the tree. */
  lemma {:induction false} PrunedEntryPaths(e: Entry, marks: map<Path, bool>, declared: set<Path>, at: Path, kept: AlwaysKept, p: Path)
    requires Spells(marks, declared) && Open(declared, at) && p != []
    ensures (var left := PrunedEntry(e, marks, at, kept); left != [] && EntryHasPath(left[0], p)) <==>
      EntryHasPath(e, p) && ((at == [] && kept.Keeps(p[0])) || Declares(declared, at + p))
    decreases e, 2
  {
    var child := at + [e.name];
    if e.name == p[0] {
      DeclaredThrough(marks, declared, at, p);
      if child in marks && !marks[child] && e.tree.Some? && |p| > 1 {
        OpenStep(declared, at, e.name);
        PrunedListPaths(e.tree.value.properties, marks, declared, child, kept, p[1..]);
        assert child + p[1..] == at + p;
      }
    }
  }

  /** A property path survives iff its root is always kept or a declared path leads to it or through it. */
  lemma PrunedPaths(t: Tree, marks: map<Path, bool>, declared: set<Path>, kept: AlwaysKept, p: Path)
    requires Spells(marks, declared) && [] !in declared && p != []
    ensures HasPath(Pruned(t, marks, [], kept), p) <==> HasPath(t, p) && (kept.Keeps(p[0]) || Declares(declared, p))
  {
    assert Open(declared, []);
    PrunedListPaths(t.properties, marks, declared, [], kept, p);
    assert [] + p == p;
  }

  // ---- the required lists -----------------------------------------------------------------------------

  /** The required names that survive are the old ones that still name a property, each as often as before. */
  lemma {:induction false} RetainedNames(names: seq<string>, list: seq<Entry>)
    ensures forall r :: multiset(Retained(names, list))[r] == if Present(list, r) then multiset(names)[r] else 0
  {
    if names != [] {
      RetainedNames(names[1..], list);
      assert names == [names[0]] + names[1..];
    }
  }

  /** Wherever pruning rewrote a level, that level requires only properties it still has. */
  predicate RequiresPresent(t: Tree, marks: map<Path, bool>, at: Path, kept: AlwaysKept)
    decreases t, 1
  {
    && (forall r | r in t.required :: Present(t.properties, r))
    && ListRequiresPresent(t.properties, marks, at, kept)
  }

  predicate ListRequiresPresent(list: seq<Entry>, marks: map<Path, bool>, at: Path, kept: AlwaysKept)
    decreases list, 0
  {
    list != [] ==>
      && ListRequiresPresent(list[1..], marks, at, kept)
      && var e, child := list[0], at + [list[0].name];
         ((at == [] && kept.Keeps(e.name)) || child !in marks || marks[child] || e.tree.None?
          || RequiresPresent(e.tree.value, marks, child, kept))
  }

  lemma {:induction false} PrunedRequires(t: Tree, marks: map<Path, bool>, at: Path, kept: AlwaysKept)
    ensures RequiresPresent(Pruned(t, marks, at, kept), marks, at, kept)
    decreases t, 1
  {
    var left := Pruned(t, marks, at, kept);
    RetainedNames(t.required, left.properties);
    forall r | r in left.required ensures Present(left.properties, r) {
      assert multiset(left.required)[r] > 0;
    }
    PrunedListRequires(t.properties, marks, at, kept);
  }

  lemma {:induction false} PrunedListRequires(list: seq<Entry>, marks: map<Path, bool>, at: Path, kept: AlwaysKept)
    ensures ListRequiresPresent(PrunedList(list, marks, at, kept), marks, at, kept)
    decreases list, 0
  {
    if list != [] {
      var e := list[0];
      var first, rest := PrunedEntry(e, marks, at, kept), PrunedList(list[1..], marks, at, kept);
      PrunedListRequires(list[1..], marks, at, kept);
      if e.tree.Some? {
        PrunedRequires(e.tree.value, marks, at + [e.name], kept);
      }
      assert if first == [] then first + rest == rest else (first + rest)[0] == first[0] && (first + rest)[1..] == rest;
    }
  }

  /** The required names that survive keep their order. */
  lemma {:induction false} RetainedSelects(names: seq<string>, list: seq<Entry>)
    ensures Retained(names, list) == Select(names, set k: nat | k < |names| && Present(list, names[k]))
  {
    if names != [] {
      RetainedSelects(names[1..], list);
      SelectBefore(names[0], names[1..], set k: nat | k < |names| - 1 && Present(list, names[1..][k]),
        set k: nat | k < |names| && Present(list, names[k]));
      assert [names[0]] + names[1..] == names;
    }
  }

  // ---- one level of what is left ----------------------------------------------------------------------

  /** A property that no level may drop, or that a declared path leads to or through. */
  ghost predicate Survives(declared: set<Path>, at: Path, kept: AlwaysKept, name: string) {
    (at == [] && kept.Keeps(name)) || Declares(declared, at + [name])
  }

  /** A property that is kept as it is: always kept, or a declared path ends at it or above it. */
  ghost predicate Whole(declared: set<Path>, at: Path, kept: AlwaysKept, name: string) {
    (at == [] && kept.Keeps(name)) || !Open(declared, at + [name])
  }

  ghost function Surviving(list: seq<Entry>, declared: set<Path>, at: Path, kept: AlwaysKept): set<nat> {
    set k: nat | k < |list| && Survives(declared, at, kept, list[k].name)
  }

  /** A property as pruning leaves it. */
  ghost function Left(e: Entry, marks: map<Path, bool>, declared: set<Path>, at: Path, kept: AlwaysKept): Entry {
    if Whole(declared, at, kept, e.name) || e.tree.None? then e
    else Entry(e.name, Some(Pruned(e.tree.value, marks, at + [e.name], kept)))
  }

  ghost function EachLeft(list: seq<Entry>, marks: map<Path, bool>, declared: set<Path>, at: Path, kept: AlwaysKept): (r: seq<Entry>)
    ensures |r| == |list|
  {
    seq(|list|, i requires 0 <= i < |list| => Left(list[i], marks, declared, at, kept))
  }

  lemma NodeSurvives(marks: map<Path, bool>, declared: set<Path>, at: Path, name: string)
    requires Spells(marks, declared) && Open(declared, at)
    ensures at + [name] in marks <==> Declares(declared, at + [name])
    ensures at + [name] in marks ==> (marks[at + [name]] <==> !Open(declared, at + [name]))
  {
    DeclaredThrough(marks, declared, at, [name]);
    if at + [name] in marks && !marks[at + [name]] {
      OpenStep(declared, at, name);
    }
  }

  lemma {:induction false} ListLeft(list: seq<Entry>, marks: map<Path, bool>, declared: set<Path>, at: Path, kept: AlwaysKept)
    requires Spells(marks, declared) && Open(declared, at)
    ensures PrunedList(list, marks, at, kept) ==
      Select(EachLeft(list, marks, declared, at, kept), Surviving(list, declared, at, kept))
  {
    if list != [] {
      ListLeft(list[1..], marks, declared, at, kept);
      NodeSurvives(marks, declared, at, list[0].name);
      var all, rest := EachLeft(list, marks, declared, at, kept), EachLeft(list[1..], marks, declared, at, kept);
      SelectBefore(all[0], rest, Surviving(list[1..], declared, at, kept), Surviving(list, declared, at, kept));
      assert [all[0]] + rest == all;
    }
  }

  /**
   One level of a pruned schema: the surviving properties in their order, each whole or pruned in turn, the required
   names that still name one in theirs, and everything else unchanged.
   */
  lemma PrunedLevel(t: Tree, marks: map<Path, bool>, declared: set<Path>, at: Path, kept: AlwaysKept)
    requires Spells(marks, declared) && Open(declared, at)
    ensures var left := Pruned(t, marks, at, kept);
      && left == t.(properties := left.properties, required := left.required)
      && left.properties ==
         Select(EachLeft(t.properties, marks, declared, at, kept), Surviving(t.properties, declared, at, kept))
      && left.required == Select(t.required, set k: nat | k < |t.required| && Present(left.properties, t.required[k]))
  {
    ListLeft(t.properties, marks, declared, at, kept);
    RetainedSelects(t.required, PrunedList(t.properties, marks, at, kept));
  }

  // ---- what pruning does to acceptance ----------------------------------------------------------------

  /** Pruning only loosens: what satisfied the schema satisfies what is left of it. */
  lemma {:induction false} PruningLoosens(t: Tree, marks: map<Path, bool>, at: Path, kept: AlwaysKept, j: Json)
    requires Accepts(t, j)
    ensures Accepts(Pruned(t, marks, at, kept), j)
    decreases t, 1
  {
    if j.JObj? {
      var left := Pruned(t, marks, at, kept);
      RetainedNames(t.required, left.properties);
      forall r | r in left.required ensures r in j.fields {
        assert multiset(left.required)[r] > 0 && multiset(t.required)[r] > 0;
      }
      AcceptsByEntries(t, j.fields);
      PruningLoosensList(t.properties, marks, at, kept, j.fields);
      AcceptsByEntries(left, j.fields);
    }
  }

  lemma {:induction false} PruningLoosensList(list: seq<Entry>, marks: map<Path, bool>, at: Path, kept: AlwaysKept, fields: map<string, Json>)
    requires EntriesAccept(list, fields)
    ensures EntriesAccept(PrunedList(list, marks, at, kept), fields)
    decreases list, 0
  {
    if list != [] {
      var e := list[0];
      assert e in list && EntryAccepts(e, fields);
      if e.tree.Some? && e.name in fields {
        PruningLoosens(e.tree.value, marks, at + [e.name], kept, fields[e.name]);
      }
      PruningLoosensList(list[1..], marks, at, kept, fields);
    }
  }
}
