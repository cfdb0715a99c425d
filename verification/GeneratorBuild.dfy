/** When an upgrade of the generator calls for regenerating a CRD. */
module GeneratorBuild {
  import opened Json

  /** MAJOR.MINOR.PATCH; what follows does not take part in the comparison. */
  datatype Triple = Triple(major: nat, minor: nat, patch: nat) {
    predicate NewerThan(other: Triple) {
      major > other.major || (major == other.major && (minor > other.minor || (minor == other.minor && patch > other.patch)))
    }
  }

  /** Reads the release out of a build's name, when it is a semantic version. */
  type Parser = string -> Option<Triple>

  datatype GeneratorConfig = GeneratorConfig(build: string, regenerateOnUpgrade: bool)

  predicate GeneratorChanged(c: GeneratorConfig, stored: string, parse: Parser) {
    if !c.regenerateOnUpgrade || c.build == "" then false
    else if stored == "" then true
    else
      match (parse(c.build), parse(stored))
      case (Some(current), Some(previous)) => current.NewerThan(previous)
      case _ => false
  }

  /** It never fires for the build that is recorded, and never in both directions between two recorded builds. */
  lemma NeverOnRollback(c: GeneratorConfig, stored: string, parse: Parser)
    requires stored != ""
    ensures !GeneratorChanged(c, c.build, parse)
    ensures GeneratorChanged(c, stored, parse) ==> !GeneratorChanged(c.(build := stored), c.build, parse)
    ensures parse(c.build).Some? && parse(stored).Some? && parse(stored).value.NewerThan(parse(c.build).value) ==> !GeneratorChanged(c, stored, parse)
    ensures parse(c.build) == parse(stored) ==> !GeneratorChanged(c, stored, parse)
  {
  }

  /** The first number in which the releases differ is greater. */
  predicate Later(a: Triple, b: Triple) {
    var x, y := [a.major, a.minor, a.patch], [b.major, b.minor, b.patch];
    exists k | 0 <= k < 3 :: x[k] > y[k] && x[..k] == y[..k]
  }

  /** It fires exactly when switched on, for a named build, on nothing recorded or on an earlier release recorded. */
  lemma FiresExactly(c: GeneratorConfig, stored: string, parse: Parser)
    ensures GeneratorChanged(c, stored, parse) <==>
      && c.regenerateOnUpgrade && c.build != ""
      && (stored == "" || (parse(c.build).Some? && parse(stored).Some? && Later(parse(c.build).value, parse(stored).value)))
  {
    if parse(c.build).Some? && parse(stored).Some? {
      LaterNewer(parse(c.build).value, parse(stored).value);
    }
  }

  lemma LaterNewer(a: Triple, b: Triple)
    ensures a.NewerThan(b) <==> Later(a, b)
  {
    var x, y := [a.major, a.minor, a.patch], [b.major, b.minor, b.patch];
    assert x[..0] == y[..0];
    assert x[..1] == y[..1] <==> a.major == b.major by { if a.major != b.major { assert x[..1][0] != y[..1][0]; } }
    assert x[..2] == y[..2] <==> a.major == b.major && a.minor == b.minor by {
      if a.major != b.major { assert x[..2][0] != y[..2][0]; }
      if a.minor != b.minor { assert x[..2][1] != y[..2][1]; }
    }
    if a.NewerThan(b) {
      var k := if a.major > b.major then 0 else if a.minor > b.minor then 1 else 2;
      assert x[k] > y[k] && x[..k] == y[..k];
    }
  }

  /** One reconcile of a run: whether something other than the generator calls for regeneration, and whether it succeeds. */
  datatype Reconcile = Reconcile(otherDrift: bool, succeeds: bool)

  function Stamped(c: GeneratorConfig, stored: string, r: Reconcile, parse: Parser): string {
    if r.succeeds && (r.otherDrift || GeneratorChanged(c, stored, parse)) then c.build else stored
  }

  function StoredAfter(c: GeneratorConfig, stored: string, run: seq<Reconcile>, parse: Parser): string {
    if run == [] then stored else Stamped(c, StoredAfter(c, stored, run[..|run| - 1], parse), run[|run| - 1], parse)
  }

  /** How many successful reconciles of the run the generator check fired in. */
  function Fired(c: GeneratorConfig, stored: string, run: seq<Reconcile>, parse: Parser): nat {
    if run == [] then 0
    else
      var init, last := run[..|run| - 1], run[|run| - 1];
      Fired(c, stored, init, parse) + if last.succeeds && GeneratorChanged(c, StoredAfter(c, stored, init, parse), parse) then 1 else 0
  }

  /** For one build the check leads to at most one regeneration, whatever else regenerates in between. */
  lemma {:induction false} FiresAtMostOnce(c: GeneratorConfig, stored: string, run: seq<Reconcile>, parse: Parser)
    ensures Fired(c, stored, run, parse) <= 1
    ensures Fired(c, stored, run, parse) == 1 ==> StoredAfter(c, stored, run, parse) == c.build
    ensures StoredAfter(c, stored, run, parse) == stored || StoredAfter(c, stored, run, parse) == c.build
  {
    if run != [] {
      FiresAtMostOnce(c, stored, run[..|run| - 1], parse);
    }
  }
}
