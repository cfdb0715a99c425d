/** Comparing the response schemas of two verbs: a walk over pairs of schemas of two possibly cyclic graphs. */
module SchemaComparison {
  import opened Json
  import opened SchemaGraph

  type Path = seq<string>

  datatype Pair = Pair(first: Schema?, second: Schema?)

  datatype Code = FirstNil | SecondNil | TypeMismatch | PropertyMismatch | MissingArrayItems

  datatype Report = Report(path: Path, code: Code)

  // ---- what the walk reports --------------------------------------------------------------------------

  /** The property of a name: the last one wins. */
  function Matched(list: seq<Property>, name: string): Option<Property> {
    if list == [] then None
    else if list[|list| - 1].name == name then Some(list[|list| - 1])
    else Matched(list[..|list| - 1], name)
  }

  /** What is wrong with two properties of one name, not looking further down. */
  function LocalReports(h: Store, path: Path, p1: Property, p2: Property): seq<Report>
    requires p1.schema != null ==> p1.schema in h
    requires p2.schema != null ==> p2.schema in h
  {
    if p1.schema == null || p2.schema == null then
      if p1.schema != p2.schema then [Report(path, PropertyMismatch)] else []
    else
      var n1, n2 := h[p1.schema], h[p2.schema];
      if !TypesCompatible(n1.types, n2.types) then [Report(path, TypeMismatch)]
      else if PrimaryType(n1.types) == "array" && (n1.items == null) != (n2.items == null) then [Report(path, MissingArrayItems)]
      else []
  }

  /** The pair two properties lead on to: their schemas when they are objects, their items when they are arrays. */
  function Next(h: Store, p1: Property, p2: Property): Option<Pair>
    requires p1.schema != null ==> p1.schema in h
    requires p2.schema != null ==> p2.schema in h
  {
    if p1.schema == null || p2.schema == null then None
    else
      var n1, n2 := h[p1.schema], h[p2.schema];
      if !TypesCompatible(n1.types, n2.types) then None
      else if PrimaryType(n1.types) == "object" then Some(Pair(p1.schema, p2.schema))
      else if PrimaryType(n1.types) == "array" && n1.items != null && n2.items != null then Some(Pair(n1.items, n2.items))
      else None
  }

  ghost predicate PairWithin(h: Store, pair: Pair) {
    (pair.first != null ==> pair.first in h) && (pair.second != null ==> pair.second in h)
  }

  ghost function Pairs(h: Store): set<Pair> {
    set a, b | a in h && b in h :: Pair(a, b)
  }

  lemma MatchedWithin(h: Store, list: seq<Property>, name: string)
    requires PropertiesWithin(list, h.Keys)
    ensures Matched(list, name).Some? ==>
      var p := Matched(list, name).value; p in list && p.name == name && (p.schema != null ==> p.schema in h)
  {
    if list != [] && list[|list| - 1].name != name {
      MatchedWithin(h, list[..|list| - 1], name);
    }
  }

  /** What one pair says by itself, before its properties are looked at; None when they have to be. */
  function PairReports(h: Store, path: Path, pair: Pair): Option<seq<Report>>
    requires PairWithin(h, pair)
  {
    if pair.first == null && pair.second == null then Some([])
    else if pair.first == null then Some([Report(path, FirstNil)])
    else if pair.second == null then Some([Report(path, SecondNil)])
    else
      var n1, n2 := h[pair.first], h[pair.second];
      if n1.properties == [] && n2.properties == [] then
        Some(if TypesCompatible(n1.types, n2.types) then [] else [Report(path, TypeMismatch)])
      else if (n1.properties == []) != (n2.properties == []) then Some([Report(path, PropertyMismatch)])
      else None
  }

  lemma PairOpen(h: Store, path: Path, pair: Pair)
    requires Closed(h) && PairWithin(h, pair) && PairReports(h, path, pair).None?
    ensures pair in Pairs(h)
    ensures PropertiesWithin(h[pair.first].properties, h.Keys) && PropertiesWithin(h[pair.second].properties, h.Keys)
  {
    assert NodeWithin(h[pair.first], h.Keys) && NodeWithin(h[pair.second], h.Keys);
  }

  /** Everything the walk reports from a pair on, when it has to leave out the pairs in `visited`. */
  ghost function Reports(h: Store, path: Path, pair: Pair, visited: set<Pair>): seq<Report>
    requires Closed(h) && PairWithin(h, pair)
    decreases Pairs(h) - visited, 1, 0
  {
    if pair in visited then []
    else if PairReports(h, path, pair).Some? then PairReports(h, path, pair).value
    else
      PairOpen(h, path, pair);
      assert pair in Pairs(h) - visited && pair !in Pairs(h) - (visited + {pair});
      ListReports(h, path, h[pair.first].properties, h[pair.second].properties, visited + {pair})
  }

  ghost function ListReports(h: Store, path: Path, list: seq<Property>, others: seq<Property>, visited: set<Pair>): seq<Report>
    requires Closed(h) && PropertiesWithin(list, h.Keys) && PropertiesWithin(others, h.Keys)
    decreases Pairs(h) - visited, 2, |list|
  {
    if list == [] then []
    else
      PropertyReports(h, path, list[0], others, visited) + ListReports(h, path, list[1..], others, visited)
  }

  ghost function PropertyReports(h: Store, path: Path, p: Property, others: seq<Property>, visited: set<Pair>): seq<Report>
    requires Closed(h) && (p.schema != null ==> p.schema in h) && PropertiesWithin(others, h.Keys)
    decreases Pairs(h) - visited, 2, 0
  {
    MatchedWithin(h, others, p.name);
    match Matched(others, p.name)
    case None => []
    case Some(q) =>
      LocalReports(h, path + [p.name], p, q) + (
        NextWithin(h, p, q);
        match Next(h, p, q)
        case None => []
        case Some(next) => Reports(h, path + [p.name], next, visited))
  }

  lemma NextWithin(h: Store, p1: Property, p2: Property)
    requires Closed(h) && (p1.schema != null ==> p1.schema in h) && (p2.schema != null ==> p2.schema in h)
    ensures Next(h, p1, p2).Some? ==> PairWithin(h, Next(h, p1, p2).value)
  {
    if p1.schema != null && p2.schema != null {
      assert NodeWithin(h[p1.schema], h.Keys) && NodeWithin(h[p2.schema], h.Keys);
    }
  }

  // ---- what there is to report ------------------------------------------------------------------------

  /** q is the last property of its name. */
  ghost predicate LastOfName(list: seq<Property>, older q: Property) {
    exists k :: 0 <= k < |list| && list[k] == q && forall j | k < j < |list| :: list[j].name != q.name
  }

  /** A property of the first schema, and the property of the second that it is compared with. */
  ghost predicate Matching(h: Store, pair: Pair, older p: Property, older q: Property) {
    && pair.first != null && pair.second != null && pair.first in h && pair.second in h
    && p in h[pair.first].properties && LastOfName(h[pair.second].properties, q) && p.name == q.name
  }

  /** What is wrong with a pair by itself. */
  ghost predicate PairFault(h: Store, pair: Pair, code: Code)
    requires PairWithin(h, pair)
  {
    match code
    case FirstNil => pair.first == null && pair.second != null
    case SecondNil => pair.first != null && pair.second == null
    case TypeMismatch =>
      && pair.first != null && pair.second != null
      && h[pair.first].properties == [] && h[pair.second].properties == []
      && PrimaryType(h[pair.first].types) != PrimaryType(h[pair.second].types)
    case PropertyMismatch =>
      && pair.first != null && pair.second != null
      && ((h[pair.first].properties == [] && h[pair.second].properties != [])
          || (h[pair.first].properties != [] && h[pair.second].properties == []))
    case MissingArrayItems => false
  }

  /** The primary type of both schemas. */
  ghost predicate BothOf(h: Store, s1: Schema?, s2: Schema?, name: string) {
    s1 != null && s2 != null && s1 in h && s2 in h && PrimaryType(h[s1].types) == name && PrimaryType(h[s2].types) == name
  }

  /** What is wrong with two matched properties by themselves. */
  ghost predicate PropertyFault(h: Store, p: Property, q: Property, code: Code) {
    match code
    case PropertyMismatch => (p.schema == null && q.schema != null) || (p.schema != null && q.schema == null)
    case TypeMismatch =>
      && p.schema != null && q.schema != null && p.schema in h && q.schema in h
      && PrimaryType(h[p.schema].types) != PrimaryType(h[q.schema].types)
    case MissingArrayItems =>
      && BothOf(h, p.schema, q.schema, "array")
      && ((h[p.schema].items == null && h[q.schema].items != null) || (h[p.schema].items != null && h[q.schema].items == null))
    case _ => false
  }

  /** Matched objects lead on to their schemas, matched arrays to their items. */
  ghost predicate LeadsOn(h: Store, p: Property, q: Property, next: Pair) {
    || (BothOf(h, p.schema, q.schema, "object") && next == Pair(p.schema, q.schema))
    || (BothOf(h, p.schema, q.schema, "array") && h[p.schema].items != null && h[q.schema].items != null
        && next == Pair(h[p.schema].items, h[q.schema].items))
  }

  ghost predicate Step(h: Store, a: Pair, b: Pair, name: string) {
    exists p, q :: Matching(h, a, p, q) && p.name == name && LeadsOn(h, p, q, b)
  }

  /** A fault of the pair itself, or of two of its matched properties, whose name is the path below it. */
  ghost predicate FaultAt(h: Store, pair: Pair, below: Path, code: Code)
    requires PairWithin(h, pair)
  {
    || (below == [] && PairFault(h, pair, code))
    || exists p, q :: Matching(h, pair, p, q) && below == [p.name] && PropertyFault(h, p, q, code)
  }

  /** Pairs that lead on from one to the next, by the properties named. */
  ghost predicate Way(h: Store, chain: seq<Pair>, names: Path) {
    && |chain| == |names| + 1 && PairWithin(h, chain[0])
    && forall i {:trigger chain[i]} | 0 < i < |chain| :: Step(h, chain[i - 1], chain[i], names[i - 1])
  }

  lemma WayWithin(h: Store, chain: seq<Pair>, names: Path, i: nat)
    requires Closed(h) && Way(h, chain, names) && i < |chain|
    ensures PairWithin(h, chain[i])
  {
    if i > 0 {
      assert Step(h, chain[i - 1], chain[i], names[i - 1]);
      var p, q :| Matching(h, chain[i - 1], p, q) && p.name == names[i - 1] && LeadsOn(h, p, q, chain[i]);
      assert NodeWithin(h[p.schema], h.Keys) && NodeWithin(h[q.schema], h.Keys);
    }
  }

  /** A way from a pair to a fault. It is reported at the names on the way, and the one below if any. */
  ghost predicate LeadsTo(h: Store, chain: seq<Pair>, names: Path, from: Pair, below: Path, code: Code)
    requires Closed(h)
  {
    && Way(h, chain, names) && chain[0] == from
    && (WayWithin(h, chain, names, |chain| - 1); FaultAt(h, chain[|chain| - 1], below, code))
  }

  ghost predicate Avoids(chain: seq<Pair>, visited: set<Pair>) {
    forall i {:trigger chain[i]} | 0 <= i < |chain| :: chain[i] !in visited
  }

  // ---- the reporting functions in these terms -----------------------------------------------------------

  lemma {:induction false} MatchedLast(list: seq<Property>, name: string, q: Property)
    ensures Matched(list, name) == Some(q) <==> LastOfName(list, q) && q.name == name
  {
    if list != [] {
      var init, last := list[..|list| - 1], list[|list| - 1];
      assert list == init + [last];
      if last.name != name {
        MatchedLast(init, name, q);
        if q.name == name {
          LastAppended(init, last, q);
        }
      } else if q == last {
        assert list[|list| - 1] == q;
      }
    }
  }

  lemma LastAppended(init: seq<Property>, last: Property, q: Property)
    requires last.name != q.name
    ensures LastOfName(init + [last], q) <==> LastOfName(init, q)
  {
    var list := init + [last];
    if k :| 0 <= k < |init| && init[k] == q && forall j | k < j < |init| :: init[j].name != q.name {
      assert list[k] == q && forall j | k < j < |list| :: list[j].name != q.name;
    }
    if k :| 0 <= k < |list| && list[k] == q && forall j | k < j < |list| :: list[j].name != q.name {
      assert init[k] == q && forall j | k < j < |init| :: init[j].name != q.name by {
        assert forall j | k < j < |init| :: list[j] == init[j];
      }
    }
  }

  lemma PairReportsFaults(h: Store, path: Path, pair: Pair)
    requires PairWithin(h, pair)
    ensures PairReports(h, path, pair).None? <==>
      pair.first != null && pair.second != null && h[pair.first].properties != [] && h[pair.second].properties != []
    ensures PairReports(h, path, pair).Some? ==>
      forall r :: r in PairReports(h, path, pair).value <==> r.path == path && PairFault(h, pair, r.code)
    ensures PairReports(h, path, pair).None? ==> forall code :: !PairFault(h, pair, code)
  {
  }

  lemma LocalReportsFaults(h: Store, path: Path, p: Property, q: Property)
    requires (p.schema != null ==> p.schema in h) && (q.schema != null ==> q.schema in h)
    ensures forall r :: r in LocalReports(h, path, p, q) <==> r.path == path && PropertyFault(h, p, q, r.code)
    ensures forall next :: Next(h, p, q) == Some(next) <==> LeadsOn(h, p, q, next)
  {
    assert "array"[0] != "object"[0];
  }

  /** What one property contributes, in these terms. */
  lemma PropertyReportsFrom(h: Store, path: Path, pair: Pair, p: Property, q: Property, visited: set<Pair>, r: Report)
    requires Closed(h) && PairWithin(h, pair) && Matching(h, pair, p, q)
    ensures PropertiesWithin(h[pair.second].properties, h.Keys) && (p.schema != null ==> p.schema in h)
    ensures forall next | LeadsOn(h, p, q, next) :: PairWithin(h, next)
    ensures r in PropertyReports(h, path, p, h[pair.second].properties, visited) <==>
      || (r.path == path + [p.name] && PropertyFault(h, p, q, r.code))
      || exists next :: LeadsOn(h, p, q, next) && PairWithin(h, next) && r in Reports(h, path + [p.name], next, visited)
  {
    var others := h[pair.second].properties;
    assert NodeWithin(h[pair.first], h.Keys) && NodeWithin(h[pair.second], h.Keys);
    MatchedLast(others, p.name, q);
    MatchedWithin(h, others, p.name);
    LocalReportsFaults(h, path + [p.name], p, q);
    NextWithin(h, p, q);
    assert Matched(others, p.name) == Some(q);
    if Next(h, p, q).Some? {
      assert LeadsOn(h, p, q, Next(h, p, q).value);
    }
  }

  lemma {:induction false} ListReportsFrom(h: Store, path: Path, list: seq<Property>, others: seq<Property>, visited: set<Pair>, r: Report)
    requires Closed(h) && PropertiesWithin(list, h.Keys) && PropertiesWithin(others, h.Keys)
    ensures r in ListReports(h, path, list, others, visited) <==>
      exists p :: p in list && (p.schema != null ==> p.schema in h) && r in PropertyReports(h, path, p, others, visited)
    decreases |list|
  {
    if list != [] {
      assert list[0] in list;
      ListReportsFrom(h, path, list[1..], others, visited, r);
      if p :| p in list[1..] && (p.schema != null ==> p.schema in h) && r in PropertyReports(h, path, p, others, visited) {
        assert p in list;
      }
    }
  }

  /** An unmatched property contributes nothing. */
  lemma SomeMatch(h: Store, path: Path, pair: Pair, p: Property, visited: set<Pair>, r: Report) returns (q: Property)
    requires Closed(h) && PairWithin(h, pair) && PairReports(h, path, pair).None? && p in h[pair.first].properties
    requires (p.schema != null ==> p.schema in h) && PropertiesWithin(h[pair.second].properties, h.Keys)
    requires r in PropertyReports(h, path, p, h[pair.second].properties, visited)
    ensures Matching(h, pair, p, q)
  {
    var others := h[pair.second].properties;
    q := Matched(others, p.name).value;
    MatchedLast(others, p.name, q);
  }

  // ---- the walk reports exactly that ------------------------------------------------------------------

  /** A report is that of a fault, on a way that passes no visited pair and no pair twice. */
  lemma {:induction false} ReportedFrom(h: Store, path: Path, pair: Pair, visited: set<Pair>, r: Report)
    returns (chain: seq<Pair>, names: Path, below: Path)
    requires Closed(h) && PairWithin(h, pair) && r in Reports(h, path, pair, visited)
    ensures LeadsTo(h, chain, names, pair, below, r.code) && r.path == path + (names + below)
    ensures Avoids(chain, visited) && NoDuplicates(chain)
    decreases Pairs(h) - visited
  {
    chain, names, below := [pair], [], [];
    PairReportsFaults(h, path, pair);
    if PairReports(h, path, pair).None? {
      var p, q := ReportedProperty(h, path, pair, visited, r);
      if r.path == path + [p.name] && PropertyFault(h, p, q, r.code) {
        below := [p.name];
        assert names + below == below;
      } else {
        PropertyReportsFrom(h, path, pair, p, q, visited + {pair}, r);
        var next :| LeadsOn(h, p, q, next) && PairWithin(h, next) && r in Reports(h, path + [p.name], next, visited + {pair});
        PairOpen(h, path, pair);
        assert pair in Pairs(h) - visited && pair !in Pairs(h) - (visited + {pair});
        chain, names, below := ReportedFrom(h, path + [p.name], next, visited + {pair}, r);
        assert Step(h, pair, next, p.name);
        LongerWay(h, pair, p.name, chain, names, below, r.code);
        chain, names := [pair] + chain, [p.name] + names;
        LongerPath(path, names, below);
      }
    }
  }

  lemma LongerPath(path: Path, names: Path, below: Path)
    requires names != []
    ensures path + [names[0]] + (names[1..] + below) == path + (names + below)
  {
    assert [names[0]] + names[1..] == names;
  }

  /** The matched properties a report of an open pair comes from. */
  lemma ReportedProperty(h: Store, path: Path, pair: Pair, visited: set<Pair>, r: Report) returns (p: Property, q: Property)
    requires Closed(h) && PairWithin(h, pair) && PairReports(h, path, pair).None? && r in Reports(h, path, pair, visited)
    ensures PropertiesWithin(h[pair.second].properties, h.Keys) && (p.schema != null ==> p.schema in h)
    ensures Matching(h, pair, p, q) && r in PropertyReports(h, path, p, h[pair.second].properties, visited + {pair})
  {
    PairOpen(h, path, pair);
    var list, others, more := h[pair.first].properties, h[pair.second].properties, visited + {pair};
    ListReportsFrom(h, path, list, others, more, r);
    p :| p in list && (p.schema != null ==> p.schema in h) && r in PropertyReports(h, path, p, others, more);
    q := SomeMatch(h, path, pair, p, more, r);
  }

  lemma LongerWay(h: Store, pair: Pair, name: string, rest: seq<Pair>, names: Path, below: Path, code: Code)
    requires Closed(h) && PairWithin(h, pair) && rest != [] && LeadsTo(h, rest, names, rest[0], below, code) && Step(h, pair, rest[0], name)
    ensures LeadsTo(h, [pair] + rest, [name] + names, pair, below, code)
  {
    var chain, more := [pair] + rest, [name] + names;
    forall i | 0 < i < |chain| ensures Step(h, chain[i - 1], chain[i], more[i - 1]) {
      if i > 1 { assert rest[i - 1] == chain[i]; }
    }
    assert Way(h, chain, more) && chain[|chain| - 1] == rest[|rest| - 1];
  }

  lemma ShorterWay(h: Store, chain: seq<Pair>, names: Path, below: Path, code: Code, j: nat)
    requires Closed(h) && 0 < j < |chain| && LeadsTo(h, chain, names, chain[0], below, code)
    ensures LeadsTo(h, chain[j..], names[j..], chain[j], below, code)
  {
    var rest, fewer := chain[j..], names[j..];
    WayWithin(h, chain, names, j);
    forall i | 0 < i < |rest| ensures Step(h, rest[i - 1], rest[i], fewer[i - 1]) {
      assert rest[i] == chain[j + i] && rest[i - 1] == chain[j + i - 1] && fewer[i - 1] == names[j + i - 1];
      assert Step(h, chain[j + i - 1], chain[j + i], names[j + i - 1]);
    }
    assert Way(h, rest, fewer) && rest[|rest| - 1] == chain[|chain| - 1];
  }

  /** Every fault on such a way is reported, with its code and path. */
  lemma {:induction false} ChainReported(h: Store, path: Path, chain: seq<Pair>, names: Path, visited: set<Pair>, below: Path, code: Code)
    requires Closed(h) && chain != [] && LeadsTo(h, chain, names, chain[0], below, code) && Avoids(chain, visited) && NoDuplicates(chain)
    ensures PairWithin(h, chain[0]) && Report(path + (names + below), code) in Reports(h, path, chain[0], visited)
    decreases |chain|
  {
    var pair := chain[0];
    if |chain| == 1 {
      assert names + below == below;
      FaultReported(h, path, pair, visited, below, code);
    } else {
      var p, q := FirstStep(h, chain, names, below, code);
      AvoidsRest(chain, visited);
      ChainReported(h, path + [p.name], chain[1..], names[1..], visited + {pair}, below, code);
      LongerPath(path, names, below);
      WayWithin(h, chain, names, 1);
      StepReported(h, path, pair, p, q, chain[1], visited, Report(path + (names + below), code));
    }
  }

  lemma FirstStep(h: Store, chain: seq<Pair>, names: Path, below: Path, code: Code) returns (p: Property, q: Property)
    requires Closed(h) && |chain| > 1 && LeadsTo(h, chain, names, chain[0], below, code)
    ensures Matching(h, chain[0], p, q) && |names| > 0 && p.name == names[0] && LeadsOn(h, p, q, chain[1])
    ensures LeadsTo(h, chain[1..], names[1..], chain[1], below, code)
  {
    assert Step(h, chain[0], chain[1], names[0]);
    p, q :| Matching(h, chain[0], p, q) && p.name == names[0] && LeadsOn(h, p, q, chain[1]);
    ShorterWay(h, chain, names, below, code, 1);
  }

  lemma AvoidsRest(chain: seq<Pair>, visited: set<Pair>)
    requires |chain| > 1 && Avoids(chain, visited) && NoDuplicates(chain)
    ensures Avoids(chain[1..], visited + {chain[0]}) && NoDuplicates(chain[1..])
  {
  }

  lemma StepReported(h: Store, path: Path, pair: Pair, p: Property, q: Property, next: Pair, visited: set<Pair>, r: Report)
    requires Closed(h) && PairWithin(h, pair) && PairWithin(h, next) && Matching(h, pair, p, q) && LeadsOn(h, p, q, next)
    requires pair !in visited && r in Reports(h, path + [p.name], next, visited + {pair})
    ensures r in Reports(h, path, pair, visited)
  {
    HasProperties(h, path, pair, p, q);
    PropertyReportsFrom(h, path, pair, p, q, visited + {pair}, r);
    ListReportsFrom(h, path, h[pair.first].properties, h[pair.second].properties, visited + {pair}, r);
  }

  lemma HasProperties(h: Store, path: Path, pair: Pair, p: Property, q: Property)
    requires Closed(h) && PairWithin(h, pair) && Matching(h, pair, p, q)
    ensures PairReports(h, path, pair).None?
    ensures PropertiesWithin(h[pair.first].properties, h.Keys) && PropertiesWithin(h[pair.second].properties, h.Keys)
  {
    PairReportsFaults(h, path, pair);
    PairOpen(h, path, pair);
  }

  lemma FaultReported(h: Store, path: Path, pair: Pair, visited: set<Pair>, below: Path, code: Code)
    requires Closed(h) && PairWithin(h, pair) && FaultAt(h, pair, below, code) && pair !in visited
    ensures Report(path + below, code) in Reports(h, path, pair, visited)
  {
    PairReportsFaults(h, path, pair);
    var seen := Report(path + below, code);
    if below == [] && PairFault(h, pair, code) {
      assert path + [] == path;
    } else {
      var p, q :| Matching(h, pair, p, q) && below == [p.name] && PropertyFault(h, p, q, code);
      HasProperties(h, path, pair, p, q);
      PropertyReportsFrom(h, path, pair, p, q, visited + {pair}, seen);
      ListReportsFrom(h, path, h[pair.first].properties, h[pair.second].properties, visited + {pair}, seen);
    }
  }

  /**
   On any two graphs, cyclic or not: what is reported, code and path, is exactly what is at fault on the ways from
   the two schemas that pass no pair twice.
   */
  lemma ReportsExactly(h: Store, path: Path, pair: Pair, tail: Path, code: Code)
    requires Closed(h) && PairWithin(h, pair)
    ensures Report(path + tail, code) in Reports(h, path, pair, {}) <==>
      exists chain, names, below :: LeadsTo(h, chain, names, pair, below, code) && NoDuplicates(chain) && tail == names + below
  {
    var seen := Report(path + tail, code);
    if seen in Reports(h, path, pair, {}) {
      var chain, names, below := ReportedFrom(h, path, pair, {}, seen);
      assert tail == (path + tail)[|path|..] && names + below == (path + (names + below))[|path|..];
    }
    if chain, names, below :| LeadsTo(h, chain, names, pair, below, code) && NoDuplicates(chain) && tail == names + below {
      assert Avoids(chain, {});
      ChainReported(h, path, chain, names, {}, below, code);
    }
  }

  lemma PartOfChain(chain: seq<Pair>, rest: seq<Pair>, j: nat)
    requires j <= |chain| && forall c | c in rest :: c in chain[j..]
    ensures forall c | c in rest :: c in chain
  {
  }

  lemma Prepended(chain: seq<Pair>, rest: seq<Pair>)
    requires chain != [] && (forall j | 0 < j < |chain| :: chain[j] != chain[0])
    requires NoDuplicates(rest) && forall c | c in rest :: c in chain[1..]
    ensures NoDuplicates([chain[0]] + rest) && forall c | c in [chain[0]] + rest :: c in chain
  {
    PartOfChain(chain, rest, 1);
    assert chain[0] !in rest;
  }

  /** A way to a fault has a part without detours that leads to the same fault. */
  lemma {:induction false} WithoutDetours(h: Store, chain: seq<Pair>, names: Path, below: Path, code: Code) returns (chain': seq<Pair>, names': Path)
    requires Closed(h) && chain != [] && LeadsTo(h, chain, names, chain[0], below, code)
    ensures LeadsTo(h, chain', names', chain[0], below, code) && NoDuplicates(chain')
    ensures forall c | c in chain' :: c in chain
    decreases |chain|
  {
    if |chain| == 1 {
      chain', names' := chain, names;
    } else if j :| 0 < j < |chain| && chain[j] == chain[0] {
      ShorterWay(h, chain, names, below, code, j);
      chain', names' := WithoutDetours(h, chain[j..], names[j..], below, code);
      PartOfChain(chain, chain', j);
    } else {
      assert Step(h, chain[0], chain[1], names[0]);
      ShorterWay(h, chain, names, below, code, 1);
      var rest, fewer := WithoutDetours(h, chain[1..], names[1..], below, code);
      Prepended(chain, rest);
      LongerWay(h, chain[0], names[0], rest, fewer, below, code);
      chain', names' := [chain[0]] + rest, [names[0]] + fewer;
    }
  }

  /** The comparison reports nothing iff no fault can be reached on any way, however long. */
  lemma ComparisonExact(h: Store, path: Path, pair: Pair)
    requires Closed(h) && PairWithin(h, pair)
    ensures Reports(h, path, pair, {}) == [] <==> !exists chain, names, below, code :: LeadsTo(h, chain, names, pair, below, code)
  {
    var reports := Reports(h, path, pair, {});
    if reports != [] {
      var chain, names, below := ReportedFrom(h, path, pair, {}, reports[0]);
    }
    if chain, names, below, code :| LeadsTo(h, chain, names, pair, below, code) {
      var chain', names' := WithoutDetours(h, chain, names, below, code);
      assert Avoids(chain', {});
      ChainReported(h, path, chain', names', {}, below, code);
    }
  }

  // ---- symmetry ---------------------------------------------------------------------------------------

  predicate Unique(list: seq<Property>) {
    forall i, j | 0 <= i < j < |list| :: list[i].name != list[j].name
  }

  ghost predicate UniqueNames(h: Store) {
    forall s | s in h :: Unique(h[s].properties)
  }

  function Swapped(pair: Pair): Pair {
    Pair(pair.second, pair.first)
  }

  function SwappedCode(code: Code): Code {
    match code
    case FirstNil => SecondNil
    case SecondNil => FirstNil
    case _ => code
  }

  lemma LastUnique(list: seq<Property>, p: Property)
    requires Unique(list) && p in list
    ensures LastOfName(list, p)
  {
    var i :| 0 <= i < |list| && list[i] == p;
    assert forall j | i < j < |list| :: list[j].name != p.name;
  }

  /** With unique names, a match seen from the second schema is the same two properties. */
  lemma MatchingSwapped(h: Store, pair: Pair, p: Property, q: Property)
    requires UniqueNames(h) && Matching(h, pair, p, q)
    ensures Matching(h, Swapped(pair), q, p)
  {
    assert Unique(h[pair.first].properties);
    LastUnique(h[pair.first].properties, p);
  }

  lemma StepSwapped(h: Store, a: Pair, b: Pair, name: string)
    requires UniqueNames(h) && Step(h, a, b, name)
    ensures Step(h, Swapped(a), Swapped(b), name)
  {
    var p, q :| Matching(h, a, p, q) && p.name == name && LeadsOn(h, p, q, b);
    MatchingSwapped(h, a, p, q);
    assert LeadsOn(h, q, p, Swapped(b));
  }

  lemma FaultSwapped(h: Store, pair: Pair, below: Path, code: Code)
    requires UniqueNames(h) && PairWithin(h, pair) && FaultAt(h, pair, below, code)
    ensures FaultAt(h, Swapped(pair), below, SwappedCode(code))
  {
    if !(below == [] && PairFault(h, pair, code)) {
      var p, q :| Matching(h, pair, p, q) && below == [p.name] && PropertyFault(h, p, q, code);
      MatchingSwapped(h, pair, p, q);
      assert PropertyFault(h, q, p, SwappedCode(code));
    }
  }

  function AllSwapped(chain: seq<Pair>): seq<Pair> {
    seq(|chain|, i requires 0 <= i < |chain| => Swapped(chain[i]))
  }

  lemma WaySwapped(h: Store, chain: seq<Pair>, names: Path)
    requires UniqueNames(h) && Way(h, chain, names)
    ensures Way(h, AllSwapped(chain), names)
  {
    var swapped := AllSwapped(chain);
    forall i | 0 < i < |swapped| ensures Step(h, swapped[i - 1], swapped[i], names[i - 1]) {
      assert Step(h, chain[i - 1], chain[i], names[i - 1]);
      StepSwapped(h, chain[i - 1], chain[i], names[i - 1]);
    }
  }

  lemma LeadSwapped(h: Store, chain: seq<Pair>, names: Path, from: Pair, below: Path, code: Code)
    requires Closed(h) && UniqueNames(h) && LeadsTo(h, chain, names, from, below, code)
    ensures LeadsTo(h, AllSwapped(chain), names, Swapped(from), below, SwappedCode(code))
    ensures NoDuplicates(chain) ==> NoDuplicates(AllSwapped(chain))
  {
    WaySwapped(h, chain, names);
    WayWithin(h, chain, names, |chain| - 1);
    FaultSwapped(h, chain[|chain| - 1], below, code);
  }

  /** With unique property names, what comparing a with b reports, comparing b with a reports at the same path. */
  lemma ReportsSwapped(h: Store, path: Path, path': Path, a: Schema?, b: Schema?, tail: Path, code: Code)
    requires Closed(h) && UniqueNames(h) && PairWithin(h, Pair(a, b))
    requires Report(path + tail, code) in Reports(h, path, Pair(a, b), {})
    ensures Report(path' + tail, SwappedCode(code)) in Reports(h, path', Pair(b, a), {})
  {
    ReportsExactly(h, path, Pair(a, b), tail, code);
    var chain, names, below :| LeadsTo(h, chain, names, Pair(a, b), below, code) && NoDuplicates(chain) && tail == names + below;
    LeadSwapped(h, chain, names, Pair(a, b), below, code);
    ReportsExactly(h, path', Pair(b, a), tail, SwappedCode(code));
  }

  /** So comparing a with b reports nothing iff comparing b with a reports nothing. */
  lemma ComparisonSymmetric(h: Store, path: Path, path': Path, a: Schema?, b: Schema?)
    requires Closed(h) && UniqueNames(h) && PairWithin(h, Pair(a, b))
    ensures Reports(h, path, Pair(a, b), {}) == [] <==> Reports(h, path', Pair(b, a), {}) == []
  {
    ComparisonExact(h, path, Pair(a, b));
    ComparisonExact(h, path', Pair(b, a));
    if chain, names, below, code :| LeadsTo(h, chain, names, Pair(a, b), below, code) {
      LeadSwapped(h, chain, names, Pair(a, b), below, code);
    }
    if chain, names, below, code :| LeadsTo(h, chain, names, Pair(b, a), below, code) {
      LeadSwapped(h, chain, names, Pair(b, a), below, code);
    }
  }

  /** A repeated property name breaks the symmetry: only the last property of a name is ever matched. */
  lemma RepeatedName(a: Schema, b: Schema, text: Schema, flag: Schema)
    requires NoDuplicates([a, b, text, flag])
    ensures var h: Store := map[
        a := Node([], [Property("x", text), Property("x", flag)], null, [], [], []),
        b := Node([], [Property("x", flag)], null, [], [], []),
        text := Node(["string"], [], null, [], [], []),
        flag := Node(["boolean"], [], null, [], [], [])];
      Closed(h) && Reports(h, [], Pair(a, b), {}) != [] && Reports(h, [], Pair(b, a), {}) == []
  {
    var px, py := Property("x", text), Property("x", flag);
    var h: Store := map[
        a := Node([], [px, py], null, [], [], []),
        b := Node([], [py], null, [], [], []),
        text := Node(["string"], [], null, [], [], []),
        flag := Node(["boolean"], [], null, [], [], [])];
    var all := [a, b, text, flag];
    assert all[0] != all[1] && all[0] != all[2] && all[0] != all[3] && all[1] != all[2] && all[1] != all[3] && all[2] != all[3];
    assert Closed(h);
    assert h[a].properties == [px, py] && h[b].properties == [py];
    assert h[text].types == ["string"] && h[flag].types == ["boolean"];
    assert PrimaryType(["string"]) == "string" && PrimaryType(["boolean"]) == "boolean";
    assert "string" != "boolean" by { assert "string"[0] != "boolean"[0]; }
    assert Matched([py], "x") == Some(py) && Matched([px, py], "x") == Some(py);
    assert h[b].properties[0] == py && LastOfName(h[b].properties, py) && Matching(h, Pair(a, b), px, py);
    assert PropertyFault(h, px, py, TypeMismatch) && FaultAt(h, Pair(a, b), ["x"], TypeMismatch);
    FaultReported(h, [], Pair(a, b), {}, ["x"], TypeMismatch);
    assert PropertyReports(h, [], py, [px, py], {} + {Pair(b, a)}) == [];
    assert [py][1..] == [];
    assert ListReports(h, [], [py], [px, py], {} + {Pair(b, a)}) == [];
  }

  // ---- the walk itself --------------------------------------------------------------------------------

  /** One comparison run: the pairs on the way down from where it started. */
  class Comparison {
    var visited: set<Pair>

    constructor ()
      ensures visited == {}
    {
      visited := {};
    }

    /** Compares two schemas. The pair is remembered on the way down only, so that siblings compare it again. */
    method Compare(path: Path, schema1: Schema?, schema2: Schema?, ghost u: set<Schema>) returns (errors: seq<Report>)
      requires Closed(Snapshot(u)) && PairWithin(Snapshot(u), Pair(schema1, schema2))
      modifies this
      ensures visited == old(visited)
      ensures errors == Reports(Snapshot(u), path, Pair(schema1, schema2), old(visited))
      decreases Pairs(Snapshot(u)) - visited, 1, 0
    {
      var pair := Pair(schema1, schema2);
      if pair in visited {
        return [];
      }
      ghost var before := visited;
      visited := visited + {pair};
      errors := ComparePair(path, schema1, schema2, u, before);
      visited := visited - {pair};
    }

    method ComparePair(path: Path, schema1: Schema?, schema2: Schema?, ghost u: set<Schema>, ghost before: set<Pair>)
      returns (errors: seq<Report>)
      requires Closed(Snapshot(u)) && PairWithin(Snapshot(u), Pair(schema1, schema2))
      requires Pair(schema1, schema2) !in before && visited == before + {Pair(schema1, schema2)}
      modifies this
      ensures visited == old(visited)
      ensures errors == Reports(Snapshot(u), path, Pair(schema1, schema2), before)
      decreases Pairs(Snapshot(u)) - before, 0, 0
    {
      ghost var h := Snapshot(u);
      if schema1 == null && schema2 == null {
        return [];
      }
      if schema1 == null {
        return [Report(path, FirstNil)];
      }
      if schema2 == null {
        return [Report(path, SecondNil)];
      }
      assert h[schema1] == schema1.View() && h[schema2] == schema2.View();
      var schema1HasProps, schema2HasProps := |schema1.properties| > 0, |schema2.properties| > 0;
      if !schema1HasProps && !schema2HasProps {
        if TypesCompatible(schema1.types, schema2.types) {
          return [];
        }
        return [Report(path, TypeMismatch)];
      }
      if schema1HasProps != schema2HasProps {
        return [Report(path, PropertyMismatch)];
      }
      PairOpen(h, path, Pair(schema1, schema2));
      assert Pair(schema1, schema2) in Pairs(h) - before && Pair(schema1, schema2) !in Pairs(h) - visited;
      errors := CompareProperties(path, schema1.properties, schema2.properties, u);
    }

    method CompareProperties(path: Path, properties: seq<Property>, others: seq<Property>, ghost u: set<Schema>)
      returns (errors: seq<Report>)
      requires Closed(Snapshot(u)) && PropertiesWithin(properties, u) && PropertiesWithin(others, u)
      modifies this
      ensures visited == old(visited)
      ensures errors == ListReports(Snapshot(u), path, properties, others, old(visited))
      decreases Pairs(Snapshot(u)) - visited, 4, 0
    {
      ghost var h, reports := Snapshot(u), ListReports(Snapshot(u), path, properties, others, visited);
      var props2 := ByName(others);
      errors := [];
      for i := 0 to |properties|
        invariant visited == old(visited) && Snapshot(u) == h
        invariant reports == errors + ListReports(h, path, properties[i..], others, visited)
      {
        ListReportsNext(h, path, properties, i, others, visited);
        var more := CompareProperty(path, properties[i], props2, u, others);
        errors := errors + more;
      }
    }

    method CompareProperty(path: Path, prop1: Property, props2: map<string, Property>, ghost u: set<Schema>, ghost others: seq<Property>)
      returns (errors: seq<Report>)
      requires Closed(Snapshot(u)) && PropertiesWithin(others, u) && (prop1.schema != null ==> prop1.schema in u)
      requires Indexes(props2, others)
      modifies this
      ensures visited == old(visited)
      ensures errors == PropertyReports(Snapshot(u), path, prop1, others, old(visited))
      decreases Pairs(Snapshot(u)) - visited, 3, 0
    {
      ghost var h := Snapshot(u);
      MatchedWithin(h, others, prop1.name);
      if prop1.name !in props2 {
        return [];
      }
      var prop2, currentPath := props2[prop1.name], path + [prop1.name];
      if prop1.schema == null || prop2.schema == null {
        return if prop1.schema != prop2.schema then [Report(currentPath, PropertyMismatch)] else [];
      }
      var s1, s2 := prop1.schema, prop2.schema;
      assert h[s1] == s1.View() && h[s2] == s2.View();
      if !TypesCompatible(s1.types, s2.types) {
        return [Report(currentPath, TypeMismatch)];
      }
      NextWithin(h, prop1, prop2);
      if PrimaryType(s1.types) == "object" {
        errors := Compare(currentPath, s1, s2, u);
      } else if PrimaryType(s1.types) == "array" {
        if s1.items != null && s2.items != null {
          errors := Compare(currentPath, s1.items, s2.items, u);
        } else {
          errors := if s1.items != s2.items then [Report(currentPath, MissingArrayItems)] else [];
        }
      } else {
        errors := [];
      }
    }
  }

  lemma ListReportsNext(h: Store, path: Path, list: seq<Property>, i: nat, others: seq<Property>, visited: set<Pair>)
    requires Closed(h) && PropertiesWithin(list, h.Keys) && PropertiesWithin(others, h.Keys) && i < |list|
    ensures list[i].schema != null ==> list[i].schema in h
    ensures ListReports(h, path, list[i..], others, visited) ==
      PropertyReports(h, path, list[i], others, visited) + ListReports(h, path, list[i + 1..], others, visited)
  {
    assert list[i] in list && list[i..][0] == list[i] && list[i..][1..] == list[i + 1..];
  }

  ghost predicate Indexes(index: map<string, Property>, list: seq<Property>) {
    forall name :: if name in index then Matched(list, name) == Some(index[name]) else Matched(list, name).None?
  }

  /** The properties by name; a later one of the same name replaces an earlier one. */
  method ByName(list: seq<Property>) returns (index: map<string, Property>)
    ensures Indexes(index, list)
  {
    index := map[];
    for i := 0 to |list|
      invariant Indexes(index, list[..i])
    {
      assert list[..i + 1][..i] == list[..i];
      index := index[list[i].name := list[i]];
    }
    assert list[..|list|] == list;
  }
}
