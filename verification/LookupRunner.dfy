/** Dependent lookups: which of them a call needs, and running them in declaration order. */
module LookupRunner {
  import opened Json
  import opened Lists

  /** A parameter reads an earlier lookup, or, when that name is empty, a field of the custom resource. */
  datatype Parameter = Parameter(fromLookup: string, field: Option<string>)

  datatype Lookup = Lookup(name: string, parameters: seq<Parameter>)

  /** A resolver's guard: the value is already there, it is not, or the guard itself cannot be read. */
  datatype Guard = Supplied | NotSupplied | Broken

  datatype Resolver = Resolver(lookup: string, guard: Guard)

  predicate Reads(l: Lookup, name: string) {
    name != "" && exists i | 0 <= i < |l.parameters| :: l.parameters[i].fromLookup == name
  }

  predicate Declared(lookups: seq<Lookup>, name: string) {
    exists i | 0 <= i < |lookups| :: lookups[i].name == name
  }

  predicate UniqueNames(lookups: seq<Lookup>) {
    forall i, k | 0 <= i < k < |lookups| :: lookups[i].name != lookups[k].name
  }

  /** What admission enforces: a parameter reads only lookups declared before. */
  predicate EarlierOnly(lookups: seq<Lookup>) {
    forall i, k | 0 <= i < |lookups| && 0 <= k < |lookups| && Reads(lookups[i], lookups[k].name) :: k < i
  }

  predicate ReadsDeclared(lookups: seq<Lookup>) {
    forall i, p | 0 <= i < |lookups| && p in lookups[i].parameters && p.fromLookup != "" :: Declared(lookups, p.fromLookup)
  }

  // ---- what is needed ---------------------------------------------------------------------------------

  /** The names that resolvers ask for. */
  predicate Asked(resolvers: seq<Resolver>, name: string) {
    exists i | 0 <= i < |resolvers| :: resolvers[i].lookup == name && resolvers[i].guard == NotSupplied
  }

  /** A chain of lookups, each read by the one before it, from one that a resolver asks for to one that reads `name`. */
  ghost predicate ReachedBy(lookups: seq<Lookup>, roots: set<string>, chain: seq<nat>, name: string) {
    if chain == [] then name in roots
    else
      var last := chain[|chain| - 1];
      last < |lookups| && Reads(lookups[last], name) && ReachedBy(lookups, roots, chain[..|chain| - 1], lookups[last].name)
  }

  ghost predicate From(chain: seq<nat>, k: nat) {
    forall i | 0 <= i < |chain| :: chain[i] >= k
  }

  ghost predicate ReachedFrom(lookups: seq<Lookup>, roots: set<string>, k: nat, name: string) {
    exists chain :: From(chain, k) && ReachedBy(lookups, roots, chain, name)
  }

  /** Needed, however indirectly. */
  ghost predicate Reachable(lookups: seq<Lookup>, roots: set<string>, name: string) {
    ReachedFrom(lookups, roots, 0, name)
  }

  lemma {:induction false} ChainDescends(lookups: seq<Lookup>, roots: set<string>, chain: seq<nat>, name: string)
    requires UniqueNames(lookups) && EarlierOnly(lookups) && ReachedBy(lookups, roots, chain, name)
    ensures forall i | 0 <= i < |chain| - 1 :: chain[i] > chain[|chain| - 1]
    ensures forall i | 0 <= i < |chain| :: chain[i] < |lookups|
  {
    if chain != [] {
      var init, last := chain[..|chain| - 1], chain[|chain| - 1];
      ChainDescends(lookups, roots, init, lookups[last].name);
      if init != [] {
        assert Reads(lookups[init[|init| - 1]], lookups[last].name);
      }
    }
  }

  /** One turn of the reverse pass. */
  lemma ReachedStep(lookups: seq<Lookup>, roots: set<string>, k: nat, name: string)
    requires UniqueNames(lookups) && EarlierOnly(lookups) && k < |lookups|
    ensures ReachedFrom(lookups, roots, k, name) <==>
      ReachedFrom(lookups, roots, k + 1, name) || (Reads(lookups[k], name) && ReachedFrom(lookups, roots, k + 1, lookups[k].name))
  {
    if ReachedFrom(lookups, roots, k, name) {
      var chain :| From(chain, k) && ReachedBy(lookups, roots, chain, name);
      ReachedSplit(lookups, roots, k, chain, name);
    }
    if ReachedFrom(lookups, roots, k + 1, name) {
      var chain :| From(chain, k + 1) && ReachedBy(lookups, roots, chain, name);
      assert From(chain, k);
    }
    if Reads(lookups[k], name) && ReachedFrom(lookups, roots, k + 1, lookups[k].name) {
      var chain :| From(chain, k + 1) && ReachedBy(lookups, roots, chain, lookups[k].name);
      assert From(chain, k);
      ReachedLonger(lookups, roots, chain, k, name, k);
    }
  }

  /** A chain through k ends there: what comes after k was declared before it. */
  lemma ReachedSplit(lookups: seq<Lookup>, roots: set<string>, k: nat, chain: seq<nat>, name: string)
    requires UniqueNames(lookups) && EarlierOnly(lookups) && k < |lookups|
    requires From(chain, k) && ReachedBy(lookups, roots, chain, name)
    ensures ReachedFrom(lookups, roots, k + 1, name) || (Reads(lookups[k], name) && ReachedFrom(lookups, roots, k + 1, lookups[k].name))
  {
    ChainDescends(lookups, roots, chain, name);
    if chain != [] && chain[|chain| - 1] == k {
      assert From(chain[..|chain| - 1], k + 1);
    } else {
      assert From(chain, k + 1);
    }
  }

  lemma ReachedLonger(lookups: seq<Lookup>, roots: set<string>, chain: seq<nat>, k: nat, name: string, bound: nat)
    requires k < |lookups| && ReachedBy(lookups, roots, chain, lookups[k].name) && Reads(lookups[k], name)
    ensures From(chain, bound) && bound <= k ==> From(chain + [k], bound)
    ensures ReachedBy(lookups, roots, chain + [k], name)
  {
    var longer := chain + [k];
    assert longer[..|longer| - 1] == chain && longer[|longer| - 1] == k;
  }

  lemma ReachedEnd(lookups: seq<Lookup>, roots: set<string>, name: string)
    ensures ReachedFrom(lookups, roots, |lookups|, name) <==> name in roots
  {
    assert From([], |lookups|);
    assert ReachedBy(lookups, roots, [], name) <==> name in roots;
    if ReachedFrom(lookups, roots, |lookups|, name) {
      var chain :| From(chain, |lookups|) && ReachedBy(lookups, roots, chain, name);
      assert chain == [];
    }
  }

  /** The names of the declared lookups that are in the set, in declaration order. */
  function InOrder(lookups: seq<Lookup>, needed: set<string>): seq<string> {
    if lookups == [] then []
    else (if lookups[0].name in needed then [lookups[0].name] else []) + InOrder(lookups[1..], needed)
  }

  lemma {:induction false} InOrderNames(lookups: seq<Lookup>, needed: set<string>, name: string)
    ensures name in InOrder(lookups, needed) <==> Declared(lookups, name) && name in needed
  {
    if lookups != [] {
      InOrderNames(lookups[1..], needed, name);
      if Declared(lookups[1..], name) {
        var i :| 0 <= i < |lookups| - 1 && lookups[1..][i].name == name;
        assert lookups[i + 1].name == name;
      }
      if Declared(lookups, name) && lookups[0].name != name {
        var i :| 0 <= i < |lookups| && lookups[i].name == name;
        assert lookups[1..][i - 1].name == name;
      }
    }
  }

  lemma {:induction false} InOrderSelects(lookups: seq<Lookup>, needed: set<string>)
    ensures InOrder(lookups, needed) == Select(NamesOf(lookups), set i: nat | i < |lookups| && lookups[i].name in needed)
  {
    if lookups != [] {
      InOrderSelects(lookups[1..], needed);
      SelectBefore(lookups[0].name, NamesOf(lookups[1..]), set i: nat | i < |lookups| - 1 && lookups[1..][i].name in needed,
        set i: nat | i < |lookups| && lookups[i].name in needed);
      assert [lookups[0].name] + NamesOf(lookups[1..]) == NamesOf(lookups);
    }
  }

  function NamesOf(lookups: seq<Lookup>): (r: seq<string>)
    ensures |r| == |lookups|
  {
    seq(|lookups|, i requires 0 <= i < |lookups| => lookups[i].name)
  }

  method AskedNames(resolvers: seq<Resolver>) returns (r: Option<set<string>>)
    ensures r.None? <==> exists i | 0 <= i < |resolvers| :: resolvers[i].guard == Broken
    ensures r.Some? ==> forall name :: name in r.value <==> Asked(resolvers, name)
  {
    var needed: set<string> := {};
    for i := 0 to |resolvers|
      invariant forall k | 0 <= k < i :: resolvers[k].guard != Broken
      invariant forall name :: name in needed <==> Asked(resolvers[..i], name)
    {
      AskedUpTo(resolvers, i);
      if resolvers[i].guard == Broken {
        return None;
      }
      if resolvers[i].guard == Supplied {
        continue;
      }
      needed := needed + {resolvers[i].lookup};
    }
    assert resolvers[..|resolvers|] == resolvers;
    r := Some(needed);
  }

  lemma AskedUpTo(resolvers: seq<Resolver>, i: nat)
    requires i < |resolvers|
    ensures forall name :: Asked(resolvers[..i + 1], name) <==>
      Asked(resolvers[..i], name) || (name == resolvers[i].lookup && resolvers[i].guard == NotSupplied)
  {
    var more, init := resolvers[..i + 1], resolvers[..i];
    forall name ensures Asked(more, name) <==> Asked(init, name) || (name == resolvers[i].lookup && resolvers[i].guard == NotSupplied) {
      assert more[i] == resolvers[i];
      if k :| 0 <= k < |init| && init[k].lookup == name && init[k].guard == NotSupplied {
        assert more[k].lookup == name;
      }
      if k :| 0 <= k < |more| && more[k].lookup == name && more[k].guard == NotSupplied {
        assert k < i ==> init[k].lookup == name;
      }
    }
  }

  /** The reverse pass: one sweep closes the set. */
  method NeededLookupNames(lookups: seq<Lookup>, resolvers: seq<Resolver>, ghost roots: set<string>)
    returns (r: Option<seq<string>>, ghost needed: set<string>)
    requires UniqueNames(lookups) && EarlierOnly(lookups)
    requires forall name :: name in roots <==> Asked(resolvers, name)
    ensures r.None? <==> exists i | 0 <= i < |resolvers| :: resolvers[i].guard == Broken
    ensures r.Some? ==> r.value == InOrder(lookups, needed)
    ensures r.Some? ==> forall name :: name in needed <==> Reachable(lookups, roots, name)
  {
    var asked := AskedNames(resolvers);
    needed := {};
    if asked.None? {
      return None, needed;
    }
    var closed := asked.value;
    forall name ensures name in closed <==> ReachedFrom(lookups, roots, |lookups|, name) {
      ReachedEnd(lookups, roots, name);
    }
    for i := |lookups| downto 0
      invariant forall name :: name in closed <==> ReachedFrom(lookups, roots, i, name)
    {
      forall name {
        ReachedStep(lookups, roots, i, name);
      }
      if lookups[i].name !in closed {
        continue;
      }
      closed := AddRead(lookups[i], closed);
    }
    needed := closed;
    var names := ListNeeded(lookups, closed);
    r := Some(names);
  }

  method AddRead(l: Lookup, needed: set<string>) returns (more: set<string>)
    ensures forall name :: name in more <==> name in needed || Reads(l, name)
  {
    more := needed;
    for i := 0 to |l.parameters|
      invariant forall name :: name in more <==> name in needed || (name != "" && exists k | 0 <= k < i :: l.parameters[k].fromLookup == name)
    {
      if l.parameters[i].fromLookup != "" {
        more := more + {l.parameters[i].fromLookup};
      }
    }
  }

  method ListNeeded(lookups: seq<Lookup>, needed: set<string>) returns (names: seq<string>)
    ensures names == InOrder(lookups, needed)
  {
    names := [];
    for i := 0 to |lookups|
      invariant InOrder(lookups, needed) == names + InOrder(lookups[i..], needed)
    {
      assert lookups[i..][0] == lookups[i] && lookups[i..][1..] == lookups[i + 1..];
      if lookups[i].name in needed {
        names := names + [lookups[i].name];
      }
    }
  }

  // ---- running them -----------------------------------------------------------------------------------

  datatype Failure = NotResolved(lookup: string, wanted: string) | MissingField(lookup: string) | ReadFailed(lookup: string) | BrokenGuard

  datatype Result<T> = Ok(value: T) | Err(failure: Failure)

  /** What each lookup answers; a lookup that is not listed fails. */
  type Answers = map<string, string>

  /** The value of a parameter is the earlier lookup's, or the field's. */
  predicate Binds(p: Parameter, earlier: map<string, string>, value: string) {
    if p.fromLookup != "" then p.fromLookup in earlier && earlier[p.fromLookup] == value else p.field == Some(value)
  }

  predicate Bindable(p: Parameter, earlier: map<string, string>) {
    if p.fromLookup != "" then p.fromLookup in earlier else p.field.Some?
  }

  /** The parameter that fails is the first without a value. */
  predicate FailsAt(l: Lookup, earlier: map<string, string>, i: nat, failure: Failure) {
    && i < |l.parameters| && !Bindable(l.parameters[i], earlier) && (forall k | 0 <= k < i :: Bindable(l.parameters[k], earlier))
    && failure == if l.parameters[i].fromLookup != "" then NotResolved(l.name, l.parameters[i].fromLookup) else MissingField(l.name)
  }

  method BindLookupParameters(l: Lookup, earlier: map<string, string>) returns (r: Result<seq<string>>)
    ensures r.Err? && r.failure.NotResolved? ==> Reads(l, r.failure.wanted) && r.failure.wanted !in earlier
    ensures r.Ok? ==> forall name | Reads(l, name) :: name in earlier
    ensures r.Ok? ==> |r.value| == |l.parameters| && forall i | 0 <= i < |l.parameters| :: Binds(l.parameters[i], earlier, r.value[i])
    ensures r.Err? ==> exists i :: 0 <= i < |l.parameters| && FailsAt(l, earlier, i, r.failure)
  {
    var bound: seq<string> := [];
    for i := 0 to |l.parameters|
      invariant |bound| == i
      invariant forall k | 0 <= k < i :: Binds(l.parameters[k], earlier, bound[k]) && Bindable(l.parameters[k], earlier)
      invariant forall k | 0 <= k < i && l.parameters[k].fromLookup != "" :: l.parameters[k].fromLookup in earlier
    {
      var p := l.parameters[i];
      if p.fromLookup != "" {
        if p.fromLookup !in earlier {
          assert FailsAt(l, earlier, i, NotResolved(l.name, p.fromLookup));
          return Err(NotResolved(l.name, p.fromLookup));
        }
        bound := bound + [earlier[p.fromLookup]];
      } else {
        if p.field.None? {
          assert FailsAt(l, earlier, i, MissingField(l.name));
          return Err(MissingField(l.name));
        }
        bound := bound + [p.field.value];
      }
    }
    r := Ok(bound);
  }

  lemma NeededIsClosed(lookups: seq<Lookup>, roots: set<string>, i: nat, name: string)
    requires UniqueNames(lookups) && EarlierOnly(lookups) && i < |lookups|
    requires Reachable(lookups, roots, lookups[i].name) && Reads(lookups[i], name)
    ensures Reachable(lookups, roots, name)
  {
    var chain :| From(chain, 0) && ReachedBy(lookups, roots, chain, lookups[i].name);
    ReachedLonger(lookups, roots, chain, i, name, 0);
  }

  /** The lookups among the first i that are needed have run. */
  ghost predicate Ran(lookups: seq<Lookup>, i: nat, needed: set<string>, answers: Answers, out: map<string, string>)
    requires i <= |lookups|
  {
    && (forall name :: name in out <==> Declared(lookups[..i], name) && name in needed)
    && (forall name | name in out :: name in answers && out[name] == answers[name])
  }

  /** The lookup answers, and the fields it reads are there. */
  predicate Runs(l: Lookup, answers: Answers) {
    l.name in answers && forall i | 0 <= i < |l.parameters| && l.parameters[i].fromLookup == "" :: l.parameters[i].field.Some?
  }

  /** Every guard can be read, and each lookup that a resolver needs runs. */
  ghost predicate AllRun(lookups: seq<Lookup>, resolvers: seq<Resolver>, answers: Answers, roots: set<string>) {
    && (forall i | 0 <= i < |resolvers| :: resolvers[i].guard != Broken)
    && forall i | 0 <= i < |lookups| && Reachable(lookups, roots, lookups[i].name) :: Runs(lookups[i], answers)
  }

  /** Runs the needed lookups in declaration order. A parameter that reads an unresolved lookup never comes up. */
  method RunDependentLookups(lookups: seq<Lookup>, resolvers: seq<Resolver>, answers: Answers, ghost roots: set<string>)
    returns (r: Result<map<string, string>>)
    requires UniqueNames(lookups) && EarlierOnly(lookups) && ReadsDeclared(lookups)
    requires forall name :: name in roots <==> Asked(resolvers, name)
    ensures !(r.Err? && r.failure.NotResolved?)
    ensures r.Ok? <==> lookups == [] || AllRun(lookups, resolvers, answers, roots)
    ensures r.Ok? ==> forall name :: name in r.value <==> Declared(lookups, name) && Reachable(lookups, roots, name)
    ensures r.Ok? ==> forall name | name in r.value :: name in answers && r.value[name] == answers[name]
  {
    if |lookups| == 0 {
      return Ok(map[]);
    }
    var names, needed := NeededLookupNames(lookups, resolvers, roots);
    if names.None? {
      return Err(BrokenGuard);
    }
    var out: map<string, string> := map[];
    for i := 0 to |lookups|
      invariant Ran(lookups, i, needed, answers, out)
      invariant forall k | 0 <= k < i && lookups[k].name in needed :: Runs(lookups[k], answers)
    {
      InOrderNames(lookups, needed, lookups[i].name);
      DeclaredUpTo(lookups, i);
      assert lookups[i].name in names.value <==> lookups[i].name in needed by { assert Declared(lookups, lookups[i].name); }
      if lookups[i].name in names.value {
        ReadsAreThere(lookups, roots, needed, i);
        var v := RunOneLookup(lookups[i], answers, out);
        if v.Err? {
          return Err(v.failure);
        }
        out := out[lookups[i].name := v.value];
      }
    }
    assert lookups[..|lookups|] == lookups;
    r := Ok(out);
  }

  method RunOneLookup(l: Lookup, answers: Answers, earlier: map<string, string>) returns (r: Result<string>)
    requires forall name | Reads(l, name) :: name in earlier
    ensures !(r.Err? && r.failure.NotResolved?)
    ensures r.Ok? <==> Runs(l, answers)
    ensures r.Ok? ==> l.name in answers && r.value == answers[l.name]
  {
    var bound := BindLookupParameters(l, earlier);
    assert forall i | 0 <= i < |l.parameters| && l.parameters[i].fromLookup != "" :: Reads(l, l.parameters[i].fromLookup);
    if bound.Err? {
      return Err(bound.failure);
    }
    if l.name !in answers {
      return Err(ReadFailed(l.name));
    }
    r := Ok(answers[l.name]);
  }

  lemma DeclaredUpTo(lookups: seq<Lookup>, i: nat)
    requires i < |lookups|
    ensures forall name :: Declared(lookups[..i + 1], name) <==> Declared(lookups[..i], name) || name == lookups[i].name
  {
    var more, init := lookups[..i + 1], lookups[..i];
    forall name ensures Declared(more, name) <==> Declared(init, name) || name == lookups[i].name {
      assert more[i] == lookups[i];
      if k :| 0 <= k < |init| && init[k].name == name {
        assert more[k].name == name;
      }
      if k :| 0 <= k < |more| && more[k].name == name {
        assert k < i ==> init[k].name == name;
      }
    }
  }

  /** What a needed lookup reads is needed, and declared before it. */
  lemma ReadsAreThere(lookups: seq<Lookup>, roots: set<string>, needed: set<string>, i: nat)
    requires UniqueNames(lookups) && EarlierOnly(lookups) && ReadsDeclared(lookups) && i < |lookups| && lookups[i].name in needed
    requires forall name :: name in needed <==> Reachable(lookups, roots, name)
    ensures forall name | Reads(lookups[i], name) :: name in needed && Declared(lookups[..i], name)
  {
    forall name | Reads(lookups[i], name) ensures name in needed && Declared(lookups[..i], name) {
      NeededIsClosed(lookups, roots, i, name);
      var p :| 0 <= p < |lookups[i].parameters| && lookups[i].parameters[p].fromLookup == name;
      assert lookups[i].parameters[p] in lookups[i].parameters;
      var k :| 0 <= k < |lookups| && lookups[k].name == name;
      assert lookups[..i][k].name == name;
    }
  }

  /** A reference to a later lookup is found needed, and still not resolved when its turn to be read comes. */
  lemma LaterReferenceUnresolved(a: string, b: string)
    requires a != b && b != ""
    ensures var lookups := [Lookup(a, [Parameter(b, None)]), Lookup(b, [])];
      && UniqueNames(lookups) && ReadsDeclared(lookups) && !EarlierOnly(lookups)
      && Reachable(lookups, {a}, a) && Reachable(lookups, {a}, b) && Reads(lookups[0], b) && !Declared(lookups[..0], b)
  {
    var lookups := [Lookup(a, [Parameter(b, None)]), Lookup(b, [])];
    assert lookups[0].parameters[0].fromLookup == b && lookups[1].name == b;
    assert Reads(lookups[0], lookups[1].name);
    assert From([], 0) && ReachedBy(lookups, {a}, [], a);
    var chain: seq<nat> := [0];
    assert From(chain, 0) && chain[..0] == [] && ReachedBy(lookups, {a}, chain, b);
  }
}
