/** What it means to keep some elements of a list, in order, and to put lists together. */
module Lists {
  /** The elements that stand at these positions, in their order. */
  ghost function Select<T>(all: seq<T>, at: set<nat>): seq<T> {
    if all == [] then []
    else
      var n := |all| - 1;
      Select(all[..n], at) + if n in at then [all[n]] else []
  }

  lemma {:induction false} SelectAlike<T>(all: seq<T>, a: set<nat>, b: set<nat>)
    requires forall k: nat | k < |all| :: k in a <==> k in b
    ensures Select(all, a) == Select(all, b)
  {
    if all != [] {
      SelectAlike(all[..|all| - 1], a, b);
    }
  }

  /** One element more at the front. */
  lemma {:induction false} SelectBefore<T>(x: T, all: seq<T>, at: set<nat>, more: set<nat>)
    requires forall k: nat | k < |all| :: k + 1 in more <==> k in at
    ensures Select([x] + all, more) == (if 0 in more then [x] else []) + Select(all, at)
  {
    var n := |all|;
    if n > 0 {
      SelectBefore(x, all[..n - 1], at, more);
      assert ([x] + all)[..n] == [x] + all[..n - 1];
    } else {
      assert [x] + all == [x] && [x][..0] == [];
    }
  }

  lemma SelectAfter<T>(all: seq<T>, x: T, at: set<nat>)
    ensures Select(all + [x], at) == Select(all, at) + if |all| in at then [x] else []
  {
    assert (all + [x])[..|all|] == all;
  }

  lemma {:induction false} SelectMembers<T>(all: seq<T>, at: set<nat>, x: T)
    ensures x in Select(all, at) <==> exists k: nat :: k in at && k < |all| && all[k] == x
  {
    if all != [] {
      SelectMembers(all[..|all| - 1], at, x);
    }
  }

  /** The lists one after the other. */
  ghost function Joined<T>(lists: seq<seq<T>>): seq<T> {
    if lists == [] then [] else Joined(lists[..|lists| - 1]) + lists[|lists| - 1]
  }

  lemma {:induction false} JoinedMembers<T>(lists: seq<seq<T>>, x: T)
    ensures x in Joined(lists) <==> exists i :: 0 <= i < |lists| && x in lists[i]
  {
    if lists != [] {
      JoinedMembers(lists[..|lists| - 1], x);
    }
  }

  /** Where an element stands for the first time. */
  ghost function Firsts<T>(all: seq<T>): set<nat> {
    set k: nat | k < |all| && all[k] !in all[..k]
  }

  /** A list without its repeats: each element where it stands for the first time. */
  ghost function Deduplicated<T>(all: seq<T>): seq<T> {
    Select(all, Firsts(all))
  }

  lemma DeduplicatedMembers<T>(all: seq<T>, x: T)
    ensures x in Deduplicated(all) <==> x in all
  {
    SelectMembers(all, Firsts(all), x);
    if x in all {
      FirstPlace(all, x);
    }
  }

  lemma {:induction false} FirstPlace<T>(all: seq<T>, x: T)
    requires x in all
    ensures exists k: nat :: k in Firsts(all) && k < |all| && all[k] == x
  {
    var n := |all| - 1;
    if x in all[..n] {
      FirstPlace(all[..n], x);
      var k: nat :| k in Firsts(all[..n]) && k < n && all[..n][k] == x;
      assert all[..n][..k] == all[..k];
    } else {
      assert all[n] == x && n in Firsts(all);
    }
  }
}
