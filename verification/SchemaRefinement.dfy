/**
 On a tree-shaped schema the walk over the object graph computes the tree function: the store afterwards
 holds exactly the prepared tree.
 */
module SchemaRefinement {
  import opened Json
  import opened SchemaGraph
  import opened PrepareSchema
  import opened SchemaTree

  ghost predicate EntriesIn(list: seq<Entry>, done: set<Schema>) {
    forall e | e in list && e.tree.Some? :: e.tree.value.id in done
  }

  /** No object occurs below two of the listed trees. */
  predicate Apart(list: seq<Entry>) {
    list != [] ==> Apart(list[1..]) && (list[0].tree.Some? ==> Ids(list[0].tree.value) !! ListIds(list[1..]))
  }

  /** A property as it stands and as it will be: the same if the walk has been there, else prepared and still untouched. */
  ghost predicate Due(e: Entry, target: Entry, done: set<Schema>) {
    && target.name == e.name
    && (e.tree.None? ==> target.tree.None?)
    && (e.tree.Some? ==>
          if e.tree.value.id in done then target == e
          else target.tree == Some(Prepared(e.tree.value)) && Unshared(e.tree.value) && Ids(e.tree.value) !! done)
  }

  ghost predicate Offers(list: seq<Entry>, targets: seq<Entry>, done: set<Schema>) {
    |list| == |targets| && Apart(list) && forall i | 0 <= i < |list| :: Due(list[i], targets[i], done)
  }

  /** The properties of every tree prepared since `visited`, as they stand and as they would be. */
  ghost predicate PartsOffer(list: seq<Entry>, visited: set<Schema>, done: set<Schema>) {
    forall e | e in list && e.tree.Some? && e.tree.value.id !in visited ::
      Offers(Prepared(e.tree.value).properties, FullProperties(e.tree.value), done)
  }

  // ---- lists ----------------------------------------------------------------------------------------

  lemma {:induction false} SchemasOfEntries(list: seq<Entry>)
    ensures Schemas(PropertiesOf(list)) == EntryIds(list)
  {
    if list != [] {
      SchemasOfEntries(list[1..]);
      assert PropertiesOf(list)[1..] == PropertiesOf(list[1..]);
    }
  }

  lemma {:induction false} IdsSplit(a: seq<Entry>, b: seq<Entry>)
    ensures EntryIds(a + b) == EntryIds(a) + EntryIds(b)
    ensures PropertiesOf(a + b) == PropertiesOf(a) + PropertiesOf(b)
  {
    if a == [] {
      assert a + b == b;
    } else {
      assert (a + b)[1..] == a[1..] + b;
      IdsSplit(a[1..], b);
    }
  }

  lemma {:induction false} IdsIn(list: seq<Entry>, done: set<Schema>)
    requires EntriesIn(list, done)
    ensures Within(EntryIds(list), done)
  {
    if list != [] {
      assert list[0] in list;
      IdsIn(list[1..], done);
    }
  }

  lemma {:induction false} HeldIds(h: Store, list: seq<Entry>)
    requires ListHolds(h, list)
    ensures EntriesIn(list, h.Keys)
  {
    if list != [] {
      HeldIds(h, list[1..]);
    }
  }

  lemma {:induction false} ListHoldsSplit(h: Store, a: seq<Entry>, b: seq<Entry>)
    ensures ListHolds(h, a + b) <==> ListHolds(h, a) && ListHolds(h, b)
  {
    if a == [] {
      assert a + b == b;
    } else {
      assert (a + b)[1..] == a[1..] + b;
      ListHoldsSplit(h, a[1..], b);
    }
  }

  // ---- what a tree says depends on its own objects only -----------------------------------------------

  ghost predicate Agree(h: Store, h': Store, some: set<Schema>) {
    forall v {:trigger h'[v]} | v in some && v in h :: v in h' && h'[v] == h[v]
  }

  lemma {:induction false} HoldsKept(h: Store, h': Store, t: Tree)
    requires Holds(h, t) && Agree(h, h', Ids(t)) && h'.Keys == h.Keys
    ensures Holds(h', t)
    decreases t, 1
  {
    ListHoldsKept(h, h', t.properties);
    ListHoldsKept(h, h', t.allOf);
    if t.items.Some? {
      HoldsKept(h, h', t.items.value);
    }
    assert h'[t.id] == h[t.id];
  }

  lemma {:induction false} ListHoldsKept(h: Store, h': Store, list: seq<Entry>)
    requires ListHolds(h, list) && Agree(h, h', ListIds(list)) && h'.Keys == h.Keys
    ensures ListHolds(h', list)
    decreases list, 0
  {
    if list != [] {
      if list[0].tree.Some? {
        HoldsKept(h, h', list[0].tree.value);
      }
      ListHoldsKept(h, h', list[1..]);
    }
  }

  // ---- the objects of a prepared tree -----------------------------------------------------------------

  lemma {:induction false} ListIdsSplit(a: seq<Entry>, b: seq<Entry>)
    ensures ListIds(a + b) == ListIds(a) + ListIds(b)
  {
    if a == [] {
      assert a + b == b;
    } else {
      assert (a + b)[1..] == a[1..] + b;
      ListIdsSplit(a[1..], b);
    }
  }

  lemma {:induction false} GatheredIds(parts: seq<Entry>)
    ensures ListIds(GatherTrees(parts).properties) <= ListIds(parts)
  {
    if parts != [] {
      var init, last := parts[..|parts| - 1], parts[|parts| - 1];
      GatheredIds(init);
      assert parts == init + [last];
      ListIdsSplit(init, [last]);
      assert [last][1..] == [];
      if last.tree.Some? {
        ListIdsSplit(GatherTrees(init).properties, last.tree.value.properties);
      }
    }
  }

  lemma {:induction false} AdoptedIds(own: seq<Entry>, extra: seq<Entry>)
    ensures ListIds(AdoptedEntries(own, extra)) <= ListIds(own) + ListIds(extra)
    decreases extra
  {
    if extra != [] {
      if !exists p :: p in own && p.name == extra[0].name {
        ListIdsSplit(own, [extra[0]]);
        assert [extra[0]][1..] == [];
        AdoptedIds(own + [extra[0]], extra[1..]);
      } else {
        AdoptedIds(own, extra[1..]);
      }
    }
  }

  lemma One(e: Entry)
    ensures Apart([e]) && ListIds([e]) == if e.tree.Some? then Ids(e.tree.value) else {}
  {
    assert [e][1..] == [];
  }

  lemma {:induction false} PreparedIds(t: Tree)
    ensures Ids(Prepared(t)) <= Ids(t)
    decreases t, 1
  {
    PreparedShape(t);
    FullIds(t);
    MergedIds(t);
    PreparedListIds(t.allOf);
    if t.items.Some? {
      PreparedIds(t.items.value);
    }
  }

  lemma {:induction false} MergedIds(t: Tree)
    ensures ListIds(MergedList(t)) <= ListIds(t.properties) + ListIds(t.allOf)
    decreases t, 0
  {
    PreparedListIds(t.allOf);
    GatheredIds(PreparedList(t.allOf));
    AdoptedIds(t.properties, GatherTrees(PreparedList(t.allOf)).properties);
  }

  lemma {:induction false} FullIds(t: Tree)
    ensures ListIds(FullProperties(t)) <= ListIds(t.properties) + ListIds(t.allOf)
    decreases t, 0
  {
    PreparedListIds(t.properties);
    FullPartsIds(t.allOf);
    AdoptedIds(PreparedList(t.properties), FullParts(t.allOf));
  }

  lemma {:induction false} PreparedListIds(list: seq<Entry>)
    ensures ListIds(PreparedList(list)) <= ListIds(list)
    decreases list, 0
  {
    if list != [] {
      if list[0].tree.Some? {
        PreparedIds(list[0].tree.value);
      }
      PreparedListIds(list[1..]);
      assert PreparedList(list)[1..] == PreparedList(list[1..]);
    }
  }

  lemma {:induction false} FullPartsIds(parts: seq<Entry>)
    ensures ListIds(FullParts(parts)) <= ListIds(parts)
    decreases parts, 0
  {
    if parts != [] {
      var init, last := parts[..|parts| - 1], parts[|parts| - 1];
      FullPartsIds(init);
      assert parts == init + [last];
      ListIdsSplit(init, [last]);
      One(last);
      assert FullParts(init) + [] == FullParts(init);
      if last.tree.Some? {
        FullIds(last.tree.value);
        assert ListIds(FullProperties(last.tree.value)) <= Ids(last.tree.value);
        ListIdsSplit(FullParts(init), FullProperties(last.tree.value));
      }
    }
  }

  lemma {:induction false} MemberIds(list: seq<Entry>, i: nat)
    requires i < |list| && list[i].tree.Some?
    ensures Ids(list[i].tree.value) <= ListIds(list)
  {
    if i > 0 {
      MemberIds(list[1..], i - 1);
    }
  }

  // ---- properties on offer ------------------------------------------------------------------------------

  lemma {:induction false} ApartSplit(a: seq<Entry>, b: seq<Entry>)
    requires Apart(a) && Apart(b) && ListIds(a) !! ListIds(b)
    ensures Apart(a + b)
  {
    if a == [] {
      assert a + b == b;
    } else {
      assert (a + b)[1..] == a[1..] + b;
      ListIdsSplit(a[1..], b);
      ApartSplit(a[1..], b);
    }
  }

  lemma {:induction false} UnsharedApart(list: seq<Entry>)
    requires ListUnshared(list)
    ensures Apart(list) && forall e | e in list && e.tree.Some? :: Unshared(e.tree.value)
  {
    if list != [] {
      UnsharedApart(list[1..]);
    }
  }

  /** Targets hold no more objects than what they are made of. */
  lemma {:induction false} TargetIds(list: seq<Entry>, targets: seq<Entry>, done: set<Schema>)
    requires Offers(list, targets, done)
    ensures ListIds(targets) <= ListIds(list) && Apart(targets) && PropertiesOf(targets) == PropertiesOf(list)
  {
    if list != [] {
      assert Due(list[0], targets[0], done);
      if list[0].tree.Some? {
        PreparedIds(list[0].tree.value);
      }
      RestOffers(list, targets, done);
      TargetIds(list[1..], targets[1..], done);
    }
  }

  lemma RestOffers(list: seq<Entry>, targets: seq<Entry>, done: set<Schema>)
    requires Offers(list, targets, done) && list != []
    ensures Offers(list[1..], targets[1..], done)
  {
    forall i | 0 <= i < |list| - 1 ensures Due(list[1..][i], targets[1..][i], done) {
      assert Due(list[i + 1], targets[i + 1], done);
    }
  }

  lemma JoinedOffers(a: seq<Entry>, b: seq<Entry>, x: seq<Entry>, y: seq<Entry>, done: set<Schema>)
    requires Offers(a, b, done) && Offers(x, y, done) && ListIds(a) !! ListIds(x)
    ensures Offers(a + x, b + y, done)
  {
    ApartSplit(a, x);
    forall i | 0 <= i < |a + x| ensures Due((a + x)[i], (b + y)[i], done) {
      if i < |a| {
        assert Due(a[i], b[i], done);
      } else {
        assert Due(x[i - |a|], y[i - |a|], done);
      }
    }
  }

  lemma {:induction false} AdoptedOffers(a: seq<Entry>, b: seq<Entry>, x: seq<Entry>, y: seq<Entry>, done: set<Schema>)
    requires Offers(a, b, done) && Offers(x, y, done) && ListIds(a) !! ListIds(x)
    ensures Offers(AdoptedEntries(a, x), AdoptedEntries(b, y), done)
    decreases x
  {
    if x != [] {
      RestOffers(x, y, done);
      assert Due(x[0], y[0], done);
      TakenAlike(a, b, x[0].name, done);
      if exists p :: p in a && p.name == x[0].name {
        AdoptedOffers(a, b, x[1..], y[1..], done);
      } else {
        One(x[0]);
        assert Offers([x[0]], [y[0]], done);
        JoinedOffers(a, b, [x[0]], [y[0]], done);
        ListIdsSplit(a, [x[0]]);
        AdoptedOffers(a + [x[0]], b + [y[0]], x[1..], y[1..], done);
      }
    }
  }

  lemma TakenAlike(a: seq<Entry>, b: seq<Entry>, name: string, done: set<Schema>)
    requires Offers(a, b, done)
    ensures (exists p :: p in a && p.name == name) <==> exists p :: p in b && p.name == name
  {
    if p :| p in a && p.name == name {
      var i :| 0 <= i < |a| && a[i] == p;
      assert Due(a[i], b[i], done) && b[i] in b;
    }
    if p :| p in b && p.name == name {
      var i :| 0 <= i < |b| && b[i] == p;
      assert Due(a[i], b[i], done) && a[i] in a;
    }
  }

  /** What was visited elsewhere does not matter. */
  lemma OffersKept(list: seq<Entry>, targets: seq<Entry>, done: set<Schema>, done': set<Schema>, more: set<Schema>)
    requires Offers(list, targets, done) && done <= done' <= done + more && ListIds(list) !! more
    ensures Offers(list, targets, done')
  {
    forall i | 0 <= i < |list| ensures Due(list[i], targets[i], done') {
      assert Due(list[i], targets[i], done);
      if list[i].tree.Some? {
        MemberIds(list, i);
      }
    }
  }

  /** Properties nobody has been at yet. */
  lemma FreshOffers(list: seq<Entry>, done: set<Schema>)
    requires ListUnshared(list) && ListIds(list) !! done
    ensures Offers(list, PreparedList(list), done)
  {
    UnsharedApart(list);
    forall i | 0 <= i < |list| ensures Due(list[i], PreparedList(list)[i], done) {
      assert list[i] in list;
      if list[i].tree.Some? {
        MemberIds(list, i);
      }
    }
  }

  lemma DoneOffers(list: seq<Entry>, done: set<Schema>)
    requires Apart(list) && EntriesIn(list, done)
    ensures Offers(list, list, done)
  {
    forall i | 0 <= i < |list| ensures Due(list[i], list[i], done) {
      assert list[i] in list;
    }
  }

  lemma {:induction false} GatheredOffers(parts: seq<Entry>, visited: set<Schema>, done: set<Schema>)
    requires ListUnshared(parts) && PartsOffer(parts, visited, done) && ListIds(parts) !! visited
    ensures Offers(GatherTrees(PreparedList(parts)).properties, FullParts(parts), done)
  {
    if parts != [] {
      var init, last := parts[..|parts| - 1], parts[|parts| - 1];
      assert parts == init + [last] && last in parts && forall e | e in init :: e in parts;
      UnsharedSplit(init, [last]);
      ListIdsSplit(init, [last]);
      One(last);
      GatheredOffers(init, visited, done);
      LastOffers(init, last, done);
    }
  }

  lemma LastOffers(init: seq<Entry>, last: Entry, done: set<Schema>)
    requires Offers(GatherTrees(PreparedList(init)).properties, FullParts(init), done)
    requires last.tree.Some? ==>
      && Ids(last.tree.value) !! ListIds(init)
      && Offers(Prepared(last.tree.value).properties, FullProperties(last.tree.value), done)
    ensures Offers(GatherTrees(PreparedList(init + [last])).properties, FullParts(init + [last]), done)
  {
    var parts := init + [last];
    assert parts[..|parts| - 1] == init && PreparedList(parts)[..|parts| - 1] == PreparedList(init);
    if last.tree.Some? {
      GatheredIds(PreparedList(init));
      PreparedListIds(init);
      PreparedIds(last.tree.value);
      JoinedOffers(GatherTrees(PreparedList(init)).properties, FullParts(init),
                   Prepared(last.tree.value).properties, FullProperties(last.tree.value), done);
    }
  }

  lemma {:induction false} UnsharedSplit(a: seq<Entry>, b: seq<Entry>)
    requires ListUnshared(a + b)
    ensures ListUnshared(a) && ListUnshared(b) && ListIds(a) !! ListIds(b)
  {
    if a == [] {
      assert a + b == b;
    } else {
      assert (a + b)[1..] == a[1..] + b;
      UnsharedSplit(a[1..], b);
      ListIdsSplit(a[1..], b);
    }
  }

  // ---- merging ----------------------------------------------------------------------------------------

  lemma {:induction false} GatherMatches(h: Store, parts: seq<Entry>)
    requires ListHolds(h, parts) && Within(EntryIds(parts), h.Keys)
    ensures var g, gt := Gather(h, EntryIds(parts)), GatherTrees(parts);
      g == Gathered(PropertiesOf(gt.properties), gt.required, gt.enum)
  {
    if parts != [] {
      var init, last := parts[..|parts| - 1], parts[|parts| - 1];
      assert parts == init + [last];
      IdsSplit(init, [last]);
      assert [last][1..] == [] && EntryIds([last]) == [Id(last.tree)];
      assert EntryIds(parts)[..|EntryIds(parts)| - 1] == EntryIds(init);
      ListHoldsSplit(h, init, [last]);
      GatherMatches(h, init);
      if last.tree.Some? {
        IdsSplit(GatherTrees(init).properties, last.tree.value.properties);
      }
    }
  }

  lemma {:induction false} AdoptedMatches(own: seq<Entry>, extra: seq<Entry>)
    ensures Adopted(PropertiesOf(own), PropertiesOf(extra)) == PropertiesOf(AdoptedEntries(own, extra))
    decreases extra
  {
    if extra != [] {
      var name := extra[0].name;
      NamesMatch(own, name);
      assert PropertiesOf(extra)[1..] == PropertiesOf(extra[1..]);
      if exists p :: p in own && p.name == name {
        AdoptedMatches(own, extra[1..]);
      } else {
        IdsSplit(own, [extra[0]]);
        assert [extra[0]][1..] == [] && PropertiesOf([extra[0]]) == [PropertiesOf(extra)[0]];
        AdoptedMatches(own + [extra[0]], extra[1..]);
      }
    }
  }

  lemma {:induction false} NamesMatch(list: seq<Entry>, name: string)
    ensures (exists p :: p in PropertiesOf(list) && p.name == name) <==> exists e :: e in list && e.name == name
  {
    if list != [] {
      NamesMatch(list[1..], name);
      assert PropertiesOf(list) == [PropertiesOf(list)[0]] + PropertiesOf(list[1..]) && list == [list[0]] + list[1..];
    }
  }

  lemma {:induction false} GatheredHold(h: Store, parts: seq<Entry>)
    requires ListHolds(h, parts)
    ensures ListHolds(h, GatherTrees(parts).properties)
  {
    if parts != [] {
      var init, last := parts[..|parts| - 1], parts[|parts| - 1];
      assert parts == init + [last];
      ListHoldsSplit(h, init, [last]);
      GatheredHold(h, init);
      if last.tree.Some? {
        ListHoldsSplit(h, GatherTrees(init).properties, last.tree.value.properties);
      }
    }
  }

  lemma {:induction false} AdoptedHold(h: Store, own: seq<Entry>, extra: seq<Entry>)
    requires ListHolds(h, own) && ListHolds(h, extra)
    ensures ListHolds(h, AdoptedEntries(own, extra))
    decreases extra
  {
    if extra != [] {
      if exists p :: p in own && p.name == extra[0].name {
        AdoptedHold(h, own, extra[1..]);
      } else {
        assert [extra[0]][1..] == [];
        ListHoldsSplit(h, own, [extra[0]]);
        AdoptedHold(h, own + [extra[0]], extra[1..]);
      }
    }
  }

  lemma {:induction false} PreparedSameIds(list: seq<Entry>)
    ensures PropertiesOf(PreparedList(list)) == PropertiesOf(list)
    ensures EntryIds(PreparedList(list)) == EntryIds(list)
  {
    if list != [] {
      PreparedSameIds(list[1..]);
      assert PreparedList(list)[1..] == PreparedList(list[1..]);
    }
  }

  // ---- the walk ---------------------------------------------------------------------------------------

  /** A stretch of the walk inside `inside` leaves everything else alone. */
  lemma StepKeeps(h: Store, r: Walk, visited: set<Schema>, heir: Schema?, inside: set<Schema>, other: set<Schema>)
    requires visited <= r.visited <= visited + inside && r.h.Keys == h.Keys
    requires forall v {:trigger r.h[v]} | v in visited && v in h && v != heir :: r.h[v] == h[v]
    requires forall v {:trigger r.h[v]} | v in h.Keys - r.visited :: r.h[v] == h[v]
    requires other !! inside && heir !in other
    ensures Agree(h, r.h, other)
  {
  }

  ghost predicate Ready(h: Store, visited: set<Schema>) {
    Closed(h) && visited <= h.Keys
  }

  /** The tree is prepared in place, and whoever merges its properties finds them as they should be. */
  ghost predicate Refined(r: Walk, t: Tree, visited: set<Schema>) {
    && Holds(r.h, Prepared(t)) && r.visited <= visited + Ids(t)
    && Offers(Prepared(t).properties, FullProperties(t), r.visited)
  }

  /** A list of which the walk may have seen some elements before: those stay, the others are prepared. */
  lemma {:induction false} ListRefines(h: Store, heir: Schema?, list: seq<Entry>, targets: seq<Entry>, visited: set<Schema>)
    requires Ready(h, visited) && (heir != null ==> heir in visited) && heir !in ListIds(list)
    requires ListHolds(h, list) && Offers(list, targets, visited) && Within(EntryIds(list), h.Keys)
    ensures var r := PrepareList(h, heir, EntryIds(list), visited);
      && ListHolds(r.h, targets) && r.visited <= visited + ListIds(list)
      && PartsOffer(list, visited, r.visited)
      && (heir != null ==> r.h[heir].types == if h[heir].types == [] then FirstTypes(targets) else h[heir].types)
    decreases ListIds(list), 4, |list|
  {
    if list != [] {
      var first, rest := list[0], list[1..];
      assert EntryIds(list)[0] == Id(first.tree) && EntryIds(list)[1..] == EntryIds(rest) && Id(first.tree) in EntryIds(list);
      assert Within(EntryIds(rest), h.Keys);
      assert Due(first, targets[0], visited);
      RestOffers(list, targets, visited);
      if first.tree.Some? && first.tree.value.id !in visited {
        PrepareRefines(h, first.tree.value, visited);
      }
      ListStep(h, heir, list, targets, visited);
      var w := Prepare(h, Id(first.tree), visited);
      var h1 := Inherited(w.h, heir, Id(first.tree));
      ListRefines(h1, heir, rest, targets[1..], w.visited);
      ListThen(h1, heir, list, targets, PrepareList(h1, heir, EntryIds(rest), w.visited), visited, w.visited);
    }
  }

  /** The rest of the list leaves the first element as it was prepared. */
  lemma ListThen(h: Store, heir: Schema?, list: seq<Entry>, targets: seq<Entry>, r: Walk, before: set<Schema>, visited: set<Schema>)
    requires Ready(h, visited) && (heir != null ==> heir in visited) && list != [] && Apart(list) && |targets| == |list|
    requires heir !in ListIds(list) && before <= visited
    requires Within(EntryIds(list[1..]), h.Keys) && r == PrepareList(h, heir, EntryIds(list[1..]), visited)
    requires ListHolds(r.h, targets[1..]) && r.visited <= visited + ListIds(list[1..])
    requires PartsOffer(list[1..], visited, r.visited) && Due(list[0], targets[0], before)
    requires visited <= before + if list[0].tree.Some? then Ids(list[0].tree.value) else {}
    requires list[0].tree.Some? ==> Holds(h, targets[0].tree.value)
    requires list[0].tree.Some? && list[0].tree.value.id !in before ==>
      Offers(Prepared(list[0].tree.value).properties, FullProperties(list[0].tree.value), visited)
    ensures ListHolds(r.h, targets) && PartsOffer(list, before, r.visited)
  {
    if list[0].tree.Some? {
      var t := list[0].tree.value;
      PreparedIds(t);
      StepKeeps(h, r, visited, heir, ListIds(list[1..]), Ids(t));
      HoldsKept(h, r.h, targets[0].tree.value);
      if t.id !in before {
        OffersKept(Prepared(t).properties, FullProperties(t), visited, r.visited, ListIds(list[1..]));
      }
    }
    RestFresh(list, before, visited, r.visited);
  }

  /** What was not visited before the first element was, was not visited by it either. */
  lemma RestFresh(list: seq<Entry>, before: set<Schema>, visited: set<Schema>, done: set<Schema>)
    requires list != [] && Apart(list) && PartsOffer(list[1..], visited, done)
    requires visited <= before + if list[0].tree.Some? then Ids(list[0].tree.value) else {}
    requires list[0].tree.Some? && list[0].tree.value.id !in before ==>
      Offers(Prepared(list[0].tree.value).properties, FullProperties(list[0].tree.value), done)
    ensures PartsOffer(list, before, done)
  {
    forall e | e in list && e.tree.Some? && e.tree.value.id !in before
      ensures Offers(Prepared(e.tree.value).properties, FullProperties(e.tree.value), done) {
      if e != list[0] {
        var i :| 0 <= i < |list[1..]| && list[1..][i] == e;
        MemberIds(list[1..], i);
        assert e in list[1..] && e.tree.value.id in Ids(e.tree.value);
      }
    }
  }

  /** One list element: what is left of the list still stands, and the element's type is there to inherit. */
  lemma ListStep(h: Store, heir: Schema?, list: seq<Entry>, targets: seq<Entry>, visited: set<Schema>)
    requires Ready(h, visited) && (heir != null ==> heir in visited) && heir !in ListIds(list)
    requires list != [] && ListHolds(h, list) && Offers(list, targets, visited) && Due(list[0], targets[0], visited)
    requires Offers(list[1..], targets[1..], visited)
    requires Id(list[0].tree) != null ==> Id(list[0].tree) in h
    requires list[0].tree.Some? && list[0].tree.value.id !in visited ==>
      Refined(Prepare(h, list[0].tree.value.id, visited), list[0].tree.value, visited)
    ensures var w := Prepare(h, Id(list[0].tree), visited); var h1 := Inherited(w.h, heir, Id(list[0].tree));
      && ListHolds(h1, list[1..]) && Offers(list[1..], targets[1..], w.visited)
      && w.visited <= visited + (if list[0].tree.Some? then Ids(list[0].tree.value) else {})
      && (list[0].tree.Some? ==> Holds(h1, targets[0].tree.value))
      && (heir != null ==> h1[heir].types == if h[heir].types == [] then TypesOf(targets[0]) else h[heir].types)
  {
    var w := Prepare(h, Id(list[0].tree), visited);
    var h1 := Inherited(w.h, heir, Id(list[0].tree));
    var rest := list[1..];
    if list[0].tree.Some? {
      var t := list[0].tree.value;
      PreparedIds(t);
      StepKeeps(h, w, visited, null, Ids(t), ListIds(rest));
      ListHoldsKept(h, w.h, rest);
      OffersKept(rest, targets[1..], visited, w.visited, Ids(t));
      HoldsKept(w.h, h1, targets[0].tree.value);
      assert w.h[t.id] == NodeOf(targets[0].tree.value);
    }
    ListHoldsKept(w.h, h1, rest);
  }

  /** An item schema that stays where it is: held, and apart from the objects the merge touches. */
  ghost predicate ItemKept(h: Store, t: Tree, item: Option<Tree>) {
    && Id(item) == Id(t.items)
    && (item.Some? ==> Holds(h, item.value) && t.id !in Ids(item.value)
                       && Ids(item.value) !! ListIds(t.properties) && Ids(item.value) !! ListIds(t.allOf))
  }

  /** The node after its parts were merged into it, before its own properties are prepared. */
  function MergedNode(t: Tree): Tree {
    Prepared(t).(properties := MergedList(t))
  }

  lemma MergedNodeOf(t: Tree)
    ensures var g, types := GatherTrees(PreparedList(t.allOf)), Converted(t.types);
      var own := NodeOf(t).(types := if types == [] then FirstTypes(PreparedList(t.allOf)) else types);
      NodeOf(MergedNode(t)) ==
        if t.allOf == [] then own else Merged(own, Gathered(PropertiesOf(g.properties), g.required, g.enum))
  {
    PreparedShape(t);
    PreparedSameIds(t.allOf);
    AdoptedMatches(t.properties, GatherTrees(PreparedList(t.allOf)).properties);
    assert Id(Prepared(t).items) == Id(t.items);
  }

  lemma MergeMatches(h: Store, w: Walk, t: Tree, visited: set<Schema>)
    requires Ready(h, visited) && t.id in visited
    requires h[t.id] == NodeOf(t).(types := Converted(t.types)) && Within(EntryIds(t.allOf), h.Keys)
    requires w == PrepareList(h, t.id, EntryIds(t.allOf), visited)
    requires ListHolds(w.h, PreparedList(t.allOf))
    requires w.h[t.id].types == if Converted(t.types) == [] then FirstTypes(PreparedList(t.allOf)) else Converted(t.types)
    ensures PartsMerged(w.h, t.id)[t.id] == NodeOf(MergedNode(t))
    ensures PartsMerged(w.h, t.id)[t.id].allOf == [] <==> !Cut(t)
  {
    var parts := PreparedList(t.allOf);
    PreparedSameIds(t.allOf);
    HeldIds(w.h, parts);
    IdsIn(parts, w.h.Keys);
    GatherMatches(w.h, parts);
    MergedNodeOf(t);
    assert EntryIds(t.allOf) == [] <==> t.allOf == [];
  }

  /** The allOf loop and the merge: the parts are prepared, the own properties still as they were. */
  lemma {:induction false} PartsRefine(h: Store, t: Tree, visited: set<Schema>)
    requires Ready(h, visited) && t.id in visited
    requires h[t.id] == NodeOf(t).(types := Converted(t.types)) && Within(EntryIds(t.allOf), h.Keys)
    requires ListHolds(h, t.properties) && ListHolds(h, t.allOf) && Unshared(t)
    requires ListIds(t.properties) !! visited && ListIds(t.allOf) !! visited
    ensures var w := PrepareList(h, t.id, EntryIds(t.allOf), visited); var merged := PartsMerged(w.h, t.id);
      && merged[t.id] == NodeOf(MergedNode(t)) && (merged[t.id].allOf == [] <==> !Cut(t))
      && ListHolds(merged, MergedList(t)) && ListHolds(merged, PreparedList(t.allOf))
      && Offers(MergedList(t), FullProperties(t), w.visited)
      && ListIds(MergedList(t)) <= ListIds(t.properties) + ListIds(t.allOf)
      && w.visited <= visited + ListIds(t.allOf)
    decreases Ids(t), 1
  {
    var own, parts := t.properties, GatherTrees(PreparedList(t.allOf)).properties;
    FreshOffers(t.allOf, visited);
    ListRefines(h, t.id, t.allOf, PreparedList(t.allOf), visited);
    var w := PrepareList(h, t.id, EntryIds(t.allOf), visited);
    MergeMatches(h, w, t, visited);
    StepKeeps(h, w, visited, t.id, ListIds(t.allOf), ListIds(own));
    ListHoldsKept(h, w.h, own);
    GatheredIds(PreparedList(t.allOf));
    PreparedListIds(t.allOf);
    AdoptedIds(own, parts);
    GatheredHold(w.h, PreparedList(t.allOf));
    AdoptedHold(w.h, own, parts);
    ListHoldsKept(w.h, PartsMerged(w.h, t.id), MergedList(t));
    ListHoldsKept(w.h, PartsMerged(w.h, t.id), PreparedList(t.allOf));
    FreshOffers(own, w.visited);
    GatheredOffers(t.allOf, visited, w.visited);
    AdoptedOffers(own, PreparedList(own), parts, FullParts(t.allOf), w.visited);
  }

  /** The second half of the walk at one node. */
  lemma {:induction false} MergePartsRefines(h: Store, t: Tree, visited: set<Schema>)
    requires Ready(h, visited) && t.id in visited && Unshared(t)
    requires h[t.id] == NodeOf(t).(types := Converted(t.types))
    requires ListHolds(h, t.properties) && ListHolds(h, t.allOf) && ItemKept(h, t, Prepared(t).items)
    requires ListIds(t.properties) !! visited && ListIds(t.allOf) !! visited
    ensures var r := MergeParts(h, t.id, visited);
      && Holds(r.h, Prepared(t)) && r.visited <= visited + ListIds(t.properties) + ListIds(t.allOf)
      && Offers(Prepared(t).properties, FullProperties(t), r.visited)
    decreases Ids(t), 2
  {
    HeldIds(h, t.allOf);
    IdsIn(t.allOf, h.Keys);
    PartsRefine(h, t, visited);
    PreparedShape(t);
    var r := MergeParts(h, t.id, visited);
    if !Cut(t) {
      var w := PrepareList(h, t.id, EntryIds(t.allOf), visited);
      PropertiesRefine(PartsMerged(w.h, t.id), t, w.visited);
    }
    if Prepared(t).items.Some? {
      var item := Prepared(t).items.value;
      StepKeeps(h, r, visited, t.id, ListIds(t.properties) + ListIds(t.allOf), Ids(item));
      HoldsKept(h, r.h, item);
    }
  }

  /** The last loop: what was merged from a part is prepared if its part did not get to it. */
  lemma {:induction false} PropertiesRefine(h: Store, t: Tree, visited: set<Schema>)
    requires Ready(h, visited) && t.id in visited && Unshared(t) && !Cut(t)
    requires h[t.id] == NodeOf(MergedNode(t)) && ListHolds(h, MergedList(t)) && Within(Schemas(h[t.id].properties), h.Keys)
    requires Offers(MergedList(t), FullProperties(t), visited)
    requires ListIds(MergedList(t)) <= ListIds(t.properties) + ListIds(t.allOf)
    ensures var r := PrepareList(h, null, Schemas(h[t.id].properties), visited);
      && r.h[t.id] == NodeOf(Prepared(t)) && ListHolds(r.h, FullProperties(t))
      && r.visited <= visited + ListIds(t.properties) + ListIds(t.allOf)
      && Offers(FullProperties(t), FullProperties(t), r.visited)
    decreases Ids(t), 1
  {
    var list := MergedList(t);
    SchemasOfEntries(list);
    HeldIds(h, list);
    IdsIn(list, h.Keys);
    ListRefines(h, null, list, FullProperties(t), visited);
    TargetIds(list, FullProperties(t), visited);
    SchemasOfEntries(FullProperties(t));
    var r := PrepareList(h, null, EntryIds(list), visited);
    InIds(FullProperties(t), r.visited);
    DoneOffers(FullProperties(t), r.visited);
  }

  lemma {:induction false} InIds(list: seq<Entry>, done: set<Schema>)
    requires Within(EntryIds(list), done)
    ensures EntriesIn(list, done)
  {
    if list != [] {
      assert EntryIds(list)[0] in EntryIds(list) && EntryIds(list)[1..] == EntryIds(list[1..]);
      InIds(list[1..], done);
    }
  }

  /**
   The walk refines the tree function: started on an object that holds an unshared tree, with none of its
   objects visited yet, it leaves the prepared tree in place, and stays within the tree.
   */
  lemma {:induction false} PrepareRefines(h: Store, t: Tree, visited: set<Schema>)
    requires Ready(h, visited)
    requires Holds(h, t) && Unshared(t) && Ids(t) !! visited
    ensures Refined(Prepare(h, t.id, visited), t, visited)
    decreases Ids(t), 3
  {
    var h1, v1 := Entered(h, t.id), visited + {t.id};
    ListHoldsKept(h, h1, t.properties);
    ListHoldsKept(h, h1, t.allOf);
    if t.items.Some? {
      HoldsKept(h, h1, t.items.value);
    }
    var w := ItemsPrepared(h1, t.id, v1);
    ItemsRefine(h1, t, v1);
    MergePartsRefines(w.h, t, w.visited);
  }

  lemma {:induction false} ItemsRefine(h: Store, t: Tree, visited: set<Schema>)
    requires Ready(h, visited) && t.id in visited && Unshared(t)
    requires h[t.id] == NodeOf(t).(types := Converted(t.types))
    requires ListHolds(h, t.properties) && ListHolds(h, t.allOf) && (t.items.Some? ==> Holds(h, t.items.value))
    requires ListIds(t.properties) !! visited && ListIds(t.allOf) !! visited
    requires t.items.Some? ==> Ids(t.items.value) !! visited
    ensures var w := ItemsPrepared(h, t.id, visited);
      && ItemKept(w.h, t, Prepared(t).items)
      && ListHolds(w.h, t.properties) && ListHolds(w.h, t.allOf)
      && w.visited <= visited + (if t.items.Some? then Ids(t.items.value) else {})
    decreases Ids(t), 2
  {
    PreparedShape(t);
    if t.items.Some? {
      var item := t.items.value;
      PreparedIds(item);
      if PrimaryType(Converted(t.types)) == "array" {
        PrepareRefines(h, item, visited);
        BesideItems(h, ItemsPrepared(h, t.id, visited), t, visited);
      }
    }
  }

  lemma BesideItems(h: Store, w: Walk, t: Tree, visited: set<Schema>)
    requires Ready(h, visited) && t.items.Some? && Unshared(t) && w.h.Keys == h.Keys
    requires visited <= w.visited <= visited + Ids(t.items.value)
    requires forall v {:trigger w.h[v]} | v in visited :: w.h[v] == h[v]
    requires forall v {:trigger w.h[v]} | v in h.Keys - w.visited :: w.h[v] == h[v]
    requires ListHolds(h, t.properties) && ListHolds(h, t.allOf)
    ensures ListHolds(w.h, t.properties) && ListHolds(w.h, t.allOf)
  {
    StepKeeps(h, w, visited, null, Ids(t.items.value), ListIds(t.properties) + ListIds(t.allOf));
    ListHoldsKept(h, w.h, t.properties);
    ListHoldsKept(h, w.h, t.allOf);
  }

  /** Preparing a whole tree, from nothing visited, as the generator calls it. */
  lemma TreePrepared(h: Store, t: Tree)
    requires Closed(h) && Holds(h, t) && Unshared(t)
    ensures var r := Prepare(h, t.id, {});
      Holds(r.h, Prepared(t)) && forall v | v in h && v !in Ids(t) :: r.h[v] == h[v]
  {
    PrepareRefines(h, t, {});
  }
}
