/** The include tree that the declared spec field paths are built into. */
module IncludeTree {
  import opened Json

  /** A field path, as its segments. */
  type Path = seq<string>

  predicate Prefix(p: Path, q: Path) {
    p <= q
  }

  /** What one level of the include tree holds. */
  datatype Level = Level(terminal: bool, children: map<string, IncludeNode>)

  /** Every node of an include tree, by its path. */
  type Nodes = map<Path, IncludeNode>

  /** One level of the include tree; `path` leads to it from the root. */
  class IncludeNode {
    var terminal: bool
    var children: map<string, IncludeNode>
    ghost const path: Path

    constructor (ghost path: Path)
      ensures View() == Level(false, map[]) && this.path == path
    {
      terminal, children := false, map[];
      this.path := path;
    }

    function View(): Level
      reads this
    {
      Level(terminal, children)
    }

    /** Adds one declared path to the tree that starts here. */
    method Insert(segments: Path, ghost at: Nodes) returns (ghost at': Nodes)
      requires Linked(this, at, Levels(at))
      modifies at.Values
      ensures fresh(at'.Values - at.Values)
      ensures Linked(this, at', Levels(at')) && Marks(Levels(at')) == Marked(old(Marks(Levels(at))), segments)
    {
      at' := at;
      var cur := this;
      for i := 0 to |segments|
        invariant fresh(at'.Values - at.Values)
        invariant segments[..i] in at' && at'[segments[..i]] == cur
        invariant Linked(this, at', Levels(at')) && Marks(Levels(at')) == Reached(old(Marks(Levels(at))), segments, i)
      {
        Take(segments, i);
        cur, at' := cur.Descend(this, at', segments[..i], segments[i]);
      }
      assert segments[..|segments|] == segments;
      cur.Terminate(this, at', segments);
    }

    method Terminate(root: IncludeNode, ghost at: Nodes, ghost here: Path)
      requires Linked(root, at, Levels(at)) && here in at && at[here] == this
      modifies this
      ensures Linked(root, at, Levels(at)) && Marks(Levels(at)) == old(Marks(Levels(at)))[here := true]
    {
      ghost var before := Levels(at);
      Distinct(root, at, before, here);
      Terminated(root, at, before, here);
      terminal := true;
      assert Levels(at) == before[here := before[here].(terminal := true)];
    }

    /** The child for one segment, created when it is missing. */
    method Descend(root: IncludeNode, ghost at: Nodes, ghost here: Path, segment: string)
      returns (child: IncludeNode, ghost at': Nodes)
      requires Linked(root, at, Levels(at)) && here in at && at[here] == this
      modifies this
      ensures fresh(at'.Values - at.Values)
      ensures here + [segment] in at' && at'[here + [segment]] == child
      ensures Linked(root, at', Levels(at'))
      ensures Marks(Levels(at')) == Extended(old(Marks(Levels(at))), here + [segment])
    {
      ghost var before := Levels(at);
      assert LinkedAt(at, before, here) && before[here] == View();
      if segment in children {
        return children[segment], at;
      }
      child := new IncludeNode(here + [segment]);
      at' := Hang(root, at, here, segment, child);
    }

    method Hang(root: IncludeNode, ghost at: Nodes, ghost here: Path, segment: string, child: IncludeNode)
      returns (ghost at': Nodes)
      requires Linked(root, at, Levels(at)) && here in at && at[here] == this && here + [segment] !in at
      requires child !in at.Values && child.View() == Level(false, map[]) && child.path == here + [segment]
      modifies this
      ensures at' == at[here + [segment] := child] && Linked(root, at', Levels(at'))
      ensures Marks(Levels(at')) == old(Marks(Levels(at)))[here + [segment] := false]
    {
      ghost var before := Levels(at);
      Distinct(root, at, before, here);
      Attached(root, at, before, here, segment, child);
      children := children[segment := child];
      at' := at[here + [segment] := child];
      assert Levels(at') == WithChild(before, here, segment, child);
    }
  }

  ghost function Levels(at: Nodes): map<Path, Level>
    reads at.Values
  {
    map p | p in at :: at[p].View()
  }

  ghost predicate LinkedAt(at: Nodes, levels: map<Path, Level>, p: Path)
    requires p in at && p in levels
  {
    && at[p].path == p
    && (p != [] ==> p[..|p| - 1] in at)
    && (forall segment :: segment in levels[p].children <==> p + [segment] in at)
    && (forall segment | segment in levels[p].children ::
          p + [segment] in at && levels[p].children[segment] == at[p + [segment]])
  }

  /** The nodes form one tree under `root`: a node's children are the nodes one segment further. */
  ghost predicate Linked(root: IncludeNode, at: Nodes, levels: map<Path, Level>) {
    && levels.Keys == at.Keys
    && [] in at && at[[]] == root
    && forall p {:trigger LinkedAt(at, levels, p)} | p in at :: LinkedAt(at, levels, p)
  }

  ghost function WithChild(levels: map<Path, Level>, here: Path, segment: string, child: IncludeNode): map<Path, Level>
    requires here in levels
  {
    levels[here := levels[here].(children := levels[here].children[segment := child])][here + [segment] := Level(false, map[])]
  }

  lemma Distinct(root: IncludeNode, at: Nodes, levels: map<Path, Level>, p: Path)
    requires Linked(root, at, levels) && p in at
    ensures forall q | q in at && at[q] == at[p] :: q == p
  {
    assert LinkedAt(at, levels, p);
    assert forall q | q in at :: LinkedAt(at, levels, q) && at[q].path == q;
  }

  lemma NoOrphan(root: IncludeNode, at: Nodes, levels: map<Path, Level>, p: Path)
    requires Linked(root, at, levels)
    ensures p !in at ==> forall segment :: p + [segment] !in at
  {
    forall s ensures p + [s] in at ==> p in at {
      if p + [s] in at {
        assert LinkedAt(at, levels, p + [s]) && (p + [s])[..|p|] == p;
      }
    }
  }

  lemma Take(p: Path, i: nat)
    requires i < |p|
    ensures p[..i] + [p[i]] == p[..i + 1]
  {
  }

  lemma StepInjective(p: Path, s: string, q: Path, t: string)
    requires p + [s] == q + [t]
    ensures p == q && s == t
  {
    assert |p| == |q| && p == (p + [s])[..|p|] && q == (q + [t])[..|q|];
    assert (p + [s])[|p|] == s && (q + [t])[|q|] == t;
  }

  lemma Attached(root: IncludeNode, at: Nodes, levels: map<Path, Level>, here: Path, segment: string, child: IncludeNode)
    requires Linked(root, at, levels) && here in at && here + [segment] !in at && child.path == here + [segment]
    ensures Linked(root, at[here + [segment] := child], WithChild(levels, here, segment, child))
    ensures Marks(WithChild(levels, here, segment, child)) == Marks(levels)[here + [segment] := false]
  {
    var q, at', levels' := here + [segment], at[here + [segment] := child], WithChild(levels, here, segment, child);
    forall p | p in at' ensures LinkedAt(at', levels', p) {
      if p == q {
        assert q[..|q| - 1] == here;
        NoOrphan(root, at, levels, q);
      } else {
        AttachedAt(at, levels, here, segment, child, p);
      }
    }
    AttachedMarks(levels, here, segment, child);
  }

  lemma AttachedMarks(levels: map<Path, Level>, here: Path, segment: string, child: IncludeNode)
    requires here in levels && here + [segment] !in levels
    ensures Marks(WithChild(levels, here, segment, child)) == Marks(levels)[here + [segment] := false]
  {
  }

  lemma AttachedAt(at: Nodes, levels: map<Path, Level>, here: Path, segment: string, child: IncludeNode, p: Path)
    requires levels.Keys == at.Keys && p in at && here in at && here + [segment] !in at && LinkedAt(at, levels, p)
    ensures LinkedAt(at[here + [segment] := child], WithChild(levels, here, segment, child), p)
  {
    forall s | p + [s] == here + [segment] ensures p == here && s == segment {
      StepInjective(p, s, here, segment);
    }
  }

  lemma Terminated(root: IncludeNode, at: Nodes, levels: map<Path, Level>, p: Path)
    requires Linked(root, at, levels) && p in at
    ensures var levels' := levels[p := levels[p].(terminal := true)];
      Linked(root, at, levels') && Marks(levels') == Marks(levels)[p := true]
  {
    var levels' := levels[p := levels[p].(terminal := true)];
    forall q | q in at ensures LinkedAt(at, levels', q) {
      assert LinkedAt(at, levels, q);
    }
  }

  /** What an include tree says: the paths that have a node, and whether a declared path ends there. */
  ghost function Marks(levels: map<Path, Level>): map<Path, bool> {
    map p | p in levels :: levels[p].terminal
  }

  function Extended(marks: map<Path, bool>, p: Path): map<Path, bool> {
    if p in marks then marks else marks[p := false]
  }

  /** The tree after the first i segments of a path have been walked, adding the nodes that were missing. */
  function Reached(marks: map<Path, bool>, segments: Path, i: nat): map<Path, bool>
    requires i <= |segments|
  {
    if i == 0 then marks else Extended(Reached(marks, segments, i - 1), segments[..i])
  }

  function Marked(marks: map<Path, bool>, segments: Path): map<Path, bool> {
    Reached(marks, segments, |segments|)[segments := true]
  }

  /** The paths that lead to, or through, a declared path, each marked with whether it is one itself. */
  ghost predicate Spells(marks: map<Path, bool>, declared: set<Path>) {
    && (forall p :: p in marks <==> p == [] || exists d :: d in declared && Prefix(p, d))
    && (forall p | p in marks :: marks[p] <==> p in declared)
  }

  // ---- what the tree of a list of paths says ----------------------------------------------------------

  lemma {:induction false} ReachedSpells(marks: map<Path, bool>, segments: Path, i: nat)
    requires i <= |segments| && [] in marks
    ensures forall p :: p in Reached(marks, segments, i) <==> p in marks || Prefix(p, segments[..i])
    ensures forall p | p in Reached(marks, segments, i) :: Reached(marks, segments, i)[p] == (p in marks && marks[p])
  {
    if i > 0 {
      ReachedSpells(marks, segments, i - 1);
      forall p ensures Prefix(p, segments[..i]) <==> Prefix(p, segments[..i - 1]) || p == segments[..i] {
        PrefixStep(p, segments, i);
      }
    } else {
      assert forall p | Prefix(p, segments[..0]) :: p == [];
    }
  }

  lemma PrefixStep(p: Path, segments: Path, i: nat)
    requires 0 < i <= |segments|
    ensures Prefix(p, segments[..i]) <==> Prefix(p, segments[..i - 1]) || p == segments[..i]
  {
    if Prefix(p, segments[..i]) && |p| < i {
      assert p == segments[..i][..|p|] == segments[..i - 1][..|p|];
    }
    if Prefix(p, segments[..i - 1]) {
      assert p == segments[..i - 1][..|p|] == segments[..i][..|p|];
    }
  }

  /** Inserting a path adds it to the declared ones and changes nothing else the tree says. */
  lemma InsertSpells(marks: map<Path, bool>, declared: set<Path>, segments: Path)
    requires Spells(marks, declared)
    ensures Spells(Marked(marks, segments), declared + {segments})
  {
    ReachedSpells(marks, segments, |segments|);
    assert segments[..|segments|] == segments && Prefix(segments, segments);
    var more := declared + {segments};
    forall p ensures p in Marked(marks, segments) <==> p == [] || exists d :: d in more && Prefix(p, d) {
      if p in marks && p != [] {
        var d :| d in declared && Prefix(p, d);
        assert d in more;
      }
      assert segments in more;
    }
  }

  /** One set of declared paths has one tree: neither their order nor a repetition shows in it. */
  lemma OneTree(marks: map<Path, bool>, marks': map<Path, bool>, declared: set<Path>)
    requires Spells(marks, declared) && Spells(marks', declared)
    ensures marks == marks'
  {
    forall p ensures p in marks <==> p in marks' {
      assert p in marks <==> p == [] || exists d :: d in declared && Prefix(p, d);
    }
    assert marks.Keys == marks'.Keys;
  }

  /** A declared field: its path, or nothing when the text could not be parsed. */
  type Declared = Option<Path>

  function PathSet(fields: seq<Declared>): set<Path> {
    set i | 0 <= i < |fields| && fields[i].Some? :: fields[i].value
  }

  datatype Refusal = InvalidPath(index: nat) | NoFieldPath(index: nat) | FieldNotFound(index: nat)

  datatype Result<T> = Ok(value: T) | Refused(why: Refusal)

  predicate Parsed(f: Declared) {
    f.Some? && f.value != []
  }

  /** The nodes linked under `root` are the include tree of exactly these declared paths. */
  ghost predicate Represents(root: IncludeNode, at: Nodes, declared: set<Path>)
    reads at.Values
  {
    Linked(root, at, Levels(at)) && Spells(Marks(Levels(at)), declared)
  }

  lemma RootAlone(root: IncludeNode)
    requires root.View() == Level(false, map[]) && root.path == []
    ensures Represents(root, map[[] := root], {})
  {
    var at := map[[] := root];
    assert LinkedAt(at, Levels(at), []);
  }

  method Declare(root: IncludeNode, ghost at: Nodes, segments: Path, ghost declared: set<Path>) returns (ghost at': Nodes)
    requires Represents(root, at, declared)
    modifies at.Values
    ensures fresh(at'.Values - at.Values) && Represents(root, at', declared + {segments})
  {
    InsertSpells(Marks(Levels(at)), declared, segments);
    at' := root.Insert(segments, at);
  }

  predicate ParsedUpTo(fields: seq<Declared>, n: nat)
    requires n <= |fields|
  {
    forall i | 0 <= i < n :: Parsed(fields[i])
  }

  /** Builds the tree, or refuses the first field that names no path. */
  method BuildIncludeTree(fields: seq<Declared>) returns (r: Result<IncludeNode>, ghost at: Nodes)
    ensures r.Ok? <==> ParsedUpTo(fields, |fields|)
    ensures r.Ok? ==> fresh(at.Values) && Represents(r.value, at, PathSet(fields))
    ensures r.Refused? ==> r.why.index < |fields| && ParsedUpTo(fields, r.why.index)
    ensures r.Refused? ==> r.why == if fields[r.why.index].None? then InvalidPath(r.why.index) else NoFieldPath(r.why.index)
  {
    var root := new IncludeNode([]);
    at := map[[] := root];
    RootAlone(root);
    for i := 0 to |fields|
      invariant fresh(at.Values) && Represents(root, at, PathSet(fields[..i]))
      invariant ParsedUpTo(fields, i)
    {
      if fields[i].None? {
        return Refused(InvalidPath(i)), at;
      }
      if |fields[i].value| == 0 {
        return Refused(NoFieldPath(i)), at;
      }
      PathSetStep(fields, i);
      at := Declare(root, at, fields[i].value, PathSet(fields[..i]));
    }
    assert fields[..|fields|] == fields;
    r := Ok(root);
  }

  lemma PathSetStep(fields: seq<Declared>, i: nat)
    requires i < |fields| && fields[i].Some?
    ensures PathSet(fields[..i + 1]) == PathSet(fields[..i]) + {fields[i].value}
  {
    var all, init := fields[..i + 1], fields[..i];
    assert forall k | 0 <= k < i :: all[k] == init[k];
    forall p ensures p in PathSet(all) <==> p in PathSet(init) || p == fields[i].value {
      if p in PathSet(all) {
        var k :| 0 <= k < |all| && all[k].Some? && all[k].value == p;
        if k < i { assert init[k].value == p; }
      }
      if p in PathSet(init) {
        var k :| 0 <= k < |init| && init[k].Some? && init[k].value == p;
        assert all[k].value == p;
      }
      assert all[i].value == fields[i].value;
    }
  }
}
