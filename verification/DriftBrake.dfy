/** The brake on a drift that an update does not resolve. */
module DriftBrake {
  import opened Json
  import opened Annotations
  import opened Requests

  const DRIFT_SIGNATURE := "krateo.io/drift-signature"
  const DRIFT_REPEATS := "krateo.io/drift-repeats"
  const MAX_DRIFT_REPEATS: nat := 5

  /** Generation and field identify a difference; the values do not take part. */
  function Signature(generation: nat, field: string): (r: string) {
    "gen=" + Itoa(generation) + ";field=" + field
  }

  /** A signature names one difference: another generation or another field is another signature. */
  lemma SignatureInjective(g: nat, f: string, g': nat, f': string)
    requires Signature(g, f) == Signature(g', f')
    ensures g == g' && f == f'
  {
    var a, b := Itoa(g) + ";field=" + f, Itoa(g') + ";field=" + f';
    assert Signature(g, f) == "gen=" + a && Signature(g', f') == "gen=" + b;
    SameEnds("gen=", a, "gen=", b);
    FirstSemicolon(g, f);
    FirstSemicolon(g', f');
    assert |Itoa(g)| == |Itoa(g')|;
    SameEnds(Itoa(g) + ";field=", f, Itoa(g') + ";field=", f');
    SameEnds(Itoa(g), ";field=", Itoa(g'), ";field=");
    ItoaDigits(g);
    ItoaDigits(g');
  }

  lemma SameEnds(x: string, a: string, y: string, b: string)
    requires x + a == y + b && |x| == |y|
    ensures x == y && a == b
  {
    assert x == (x + a)[..|x|] && y == (y + b)[..|y|];
    assert a == (x + a)[|x|..] && b == (y + b)[|y|..];
  }

  /** The generation ends at the first semicolon. */
  lemma FirstSemicolon(g: nat, f: string)
    ensures var a := Itoa(g) + ";field=" + f; a[|Itoa(g)|] == ';' && forall i | 0 <= i < |Itoa(g)| :: a[i] != ';'
  {
    AllDigits(g);
    var a := Itoa(g) + ";field=" + f;
    forall i | 0 <= i < |Itoa(g)| ensures a[i] != ';' {
      assert a[i] == Itoa(g)[i];
    }
  }

  lemma {:induction false} AllDigits(n: nat)
    ensures forall i | 0 <= i < |Itoa(n)| :: '0' <= Itoa(n)[i] <= '9'
  {
    if n >= 10 {
      AllDigits(n / 10);
    }
  }

  /** How often this difference was reported in a row. */
  function Repeats(ann: Annotations, sig: string): nat {
    if sig == "" || Get(ann, DRIFT_SIGNATURE) != sig then 0 else Counter(Get(ann, DRIFT_REPEATS))
  }

  function Recorded(ann: Annotations, sig: string): Annotations {
    Patched(ann, map[DRIFT_SIGNATURE := Some(sig), DRIFT_REPEATS := Some(Itoa(Repeats(ann, sig) + 1))])
  }

  function Cleared(ann: Annotations): Annotations {
    if Get(ann, DRIFT_SIGNATURE) == "" && Get(ann, DRIFT_REPEATS) == "" then ann
    else Patched(ann, map[DRIFT_SIGNATURE := None, DRIFT_REPEATS := None])
  }

  lemma KeysDiffer()
    ensures DRIFT_SIGNATURE != DRIFT_REPEATS
  {
    assert DRIFT_SIGNATURE[16] != DRIFT_REPEATS[16];
  }

  /** A report counts one more for its own difference, and starts every other difference from zero. */
  lemma RecordedRepeats(ann: Annotations, sig: string, other: string)
    requires sig != ""
    ensures Repeats(Recorded(ann, sig), other) == if other == sig then Repeats(ann, sig) + 1 else 0
  {
    KeysDiffer();
    var patch: Patch := map[DRIFT_SIGNATURE := Some(sig), DRIFT_REPEATS := Some(Itoa(Repeats(ann, sig) + 1))];
    PatchedGet(ann, patch, DRIFT_SIGNATURE);
    PatchedGet(ann, patch, DRIFT_REPEATS);
    CounterRoundTrip(Repeats(ann, sig) + 1);
  }

  lemma ClearedRepeats(ann: Annotations, sig: string)
    ensures Repeats(Cleared(ann), sig) == 0
  {
    var patch: Patch := map[DRIFT_SIGNATURE := None, DRIFT_REPEATS := None];
    PatchedGet(ann, patch, DRIFT_SIGNATURE);
    PatchedGet(ann, patch, DRIFT_REPEATS);
  }

  // ---- one comparison ---------------------------------------------------------------------------------

  datatype Answer = UpToDate | NeedsUpdate | Error

  datatype Ready = Unchanged | Available | NotUpToDate | NotConverging

  /** What the comparison says, and how the writes that follow end. */
  datatype Comparison = Agrees(clear: Request, status: Request) | Differs(sig: string, record: Request, status: Request)

  datatype Result = Result(ann: Annotations, answer: Answer, ready: Ready)

  /** The comparison branch of an observe: what it leaves in the annotations, and what it answers. */
  function Compared(ann: Annotations, c: Comparison): Result {
    match c
    case Agrees(clear, status) =>
      if Cleared(ann) != ann && clear.fails then Result(if clear.applied then Cleared(ann) else ann, Error, Unchanged)
      else Shown(Cleared(ann), status, UpToDate, Available)
    case Differs(sig, record, status) =>
      if record.fails then Result(if record.applied then Recorded(ann, sig) else ann, Error, Unchanged)
      else if Repeats(ann, sig) + 1 >= MAX_DRIFT_REPEATS then Shown(Recorded(ann, sig), status, UpToDate, NotConverging)
      else Shown(Recorded(ann, sig), status, NeedsUpdate, NotUpToDate)
  }

  /** The status write that comes before the answer. */
  function Shown(ann: Annotations, status: Request, answer: Answer, ready: Ready): Result {
    Result(ann, if status.fails then Error else answer, if Effective(status) then ready else Unchanged)
  }

  /** The custom resource as an observe sees it. */
  class Resource {
    var annotations: Annotations
    var ready: Ready

    method RecordDriftRepeat(sig: string, patch: Request) returns (n: Option<nat>)
      modifies this`annotations
      ensures n.None? <==> patch.fails
      ensures annotations == if Effective(patch) then Recorded(old(annotations), sig) else old(annotations)
      ensures n.Some? ==> n.value == Repeats(old(annotations), sig) + 1
    {
      var count := DriftRepeats(sig) + 1;
      if Effective(patch) {
        annotations := Patched(annotations, map[DRIFT_SIGNATURE := Some(sig), DRIFT_REPEATS := Some(Itoa(count))]);
      }
      n := if patch.fails then None else Some(count);
    }

    function DriftRepeats(sig: string): nat
      reads this
    {
      Repeats(annotations, sig)
    }

    method ClearDriftRepeats(clear: Request) returns (ok: bool)
      modifies this`annotations
      ensures ok == !(clear.fails && Cleared(old(annotations)) != old(annotations))
      ensures annotations == if Effective(clear) then Cleared(old(annotations)) else old(annotations)
    {
      if Get(annotations, DRIFT_SIGNATURE) == "" && Get(annotations, DRIFT_REPEATS) == "" {
        return true;
      }
      var patch: Patch := map[DRIFT_SIGNATURE := None, DRIFT_REPEATS := None];
      PatchedGet(annotations, patch, DRIFT_SIGNATURE);
      PatchedGet(annotations, patch, DRIFT_REPEATS);
      if Effective(clear) {
        annotations := Patched(annotations, patch);
      }
      ok := !clear.fails;
    }

    method UpdateStatus(next: Ready, status: Request) returns (ok: bool)
      modifies this`ready
      ensures ok == !status.fails && ready == if Effective(status) then next else old(ready)
    {
      if Effective(status) {
        ready := next;
      }
      ok := !status.fails;
    }

    /** The end of an observe that has a body to compare. */
    method ObserveComparison(c: Comparison) returns (answer: Answer)
      modifies this
      ensures var r := Compared(old(annotations), c);
        annotations == r.ann && answer == r.answer && ready == if r.ready == Unchanged then old(ready) else r.ready
    {
      match c
      case Differs(sig, record, status) =>
        var repeats := RecordDriftRepeat(sig, record);
        if repeats.None? {
          return Error;
        }
        if repeats.value >= MAX_DRIFT_REPEATS {
          var shown := UpdateStatus(NotConverging, status);
          return if shown then UpToDate else Error;
        }
        var shown := UpdateStatus(NotUpToDate, status);
        answer := if shown then NeedsUpdate else Error;
      case Agrees(clear, status) =>
        var ok := ClearDriftRepeats(clear);
        if !ok {
          return Error;
        }
        var shown := UpdateStatus(Available, status);
        answer := if shown then UpToDate else Error;
    }
  }

  // ---- whole runs -------------------------------------------------------------------------------------

  function Run(ann: Annotations, run: seq<Comparison>): Annotations {
    if run == [] then ann else Compared(Run(ann, run[..|run| - 1]), run[|run| - 1]).ann
  }

  /** How many answers of the run ask for an update. */
  function Updates(ann: Annotations, run: seq<Comparison>): nat {
    if run == [] then 0
    else
      var n := |run| - 1;
      Updates(ann, run[..n]) + if Compared(Run(ann, run[..n]), run[n]).answer == NeedsUpdate then 1 else 0
  }

  /** How many reports of the run were recorded, those included whose recording seemed to fail. */
  function RecordedReports(run: seq<Comparison>): nat {
    if run == [] then 0
    else
      var c := run[|run| - 1];
      RecordedReports(run[..|run| - 1]) + if c.Differs? && Effective(c.record) then 1 else 0
  }

  predicate Reports(run: seq<Comparison>, sig: string) {
    forall i | 0 <= i < |run| :: run[i].Differs? && run[i].sig == sig
  }

  /**
   Over a stretch of reports of one difference: the count has grown by the recorded ones, and at most four
   answers, fewer when the count did not start at zero, ever asked for an update.
   */
  lemma {:induction false} OneStretch(ann: Annotations, run: seq<Comparison>, sig: string)
    requires sig != "" && Reports(run, sig)
    ensures Repeats(Run(ann, run), sig) == Repeats(ann, sig) + RecordedReports(run)
    ensures Updates(ann, run) <= RecordedReports(run)
    ensures Repeats(ann, sig) + Updates(ann, run) < MAX_DRIFT_REPEATS || Updates(ann, run) == 0
  {
    if run != [] {
      var init, last := run[..|run| - 1], run[|run| - 1];
      OneStretch(ann, init, sig);
      RecordedRepeats(Run(ann, init), sig, sig);
    }
  }

  /** Once the brake has engaged, no answer asks for an update until the comparison agrees or differs elsewhere. */
  lemma {:induction false} BrakeHolds(ann: Annotations, run: seq<Comparison>, sig: string)
    requires sig != "" && Reports(run, sig) && Repeats(ann, sig) + 1 >= MAX_DRIFT_REPEATS
    ensures Updates(ann, run) == 0
  {
    OneStretch(ann, run, sig);
  }

  /** An update is asked for exactly when a difference was recorded as one of the first four and shown. */
  lemma AskedExactly(ann: Annotations, c: Comparison)
    ensures var r := Compared(ann, c);
      && (r.answer == NeedsUpdate <==> c.Differs? && !c.record.fails && !c.status.fails && Repeats(ann, c.sig) < 4)
      && (r.answer == UpToDate <==>
            !c.status.fails && if c.Differs? then !c.record.fails && Repeats(ann, c.sig) >= 4 else !c.clear.fails || Cleared(ann) == ann)
      && (r.ready == NotConverging <==> c.Differs? && !c.record.fails && Effective(c.status) && Repeats(ann, c.sig) >= 4)
      && (r.ready == NotUpToDate <==> c.Differs? && !c.record.fails && Effective(c.status) && Repeats(ann, c.sig) < 4)
      && (r.ready == Available <==> c.Agrees? && (!c.clear.fails || Cleared(ann) == ann) && Effective(c.status))
  {
  }

  predicate NoneFails(run: seq<Comparison>) {
    forall i | 0 <= i < |run| :: run[i].Differs? && !run[i].record.fails && !run[i].status.fails
  }

  /** When no write fails, the first reports of a difference all ask for an update, until the count stands at four. */
  lemma {:induction false} UpdatesExactly(ann: Annotations, run: seq<Comparison>, sig: string)
    requires sig != "" && Reports(run, sig) && NoneFails(run)
    ensures Repeats(Run(ann, run), sig) == Repeats(ann, sig) + |run|
    ensures Updates(ann, run) ==
      if Repeats(ann, sig) >= 4 then 0 else if Repeats(ann, sig) + |run| <= 4 then |run| else 4 - Repeats(ann, sig)
  {
    if run != [] {
      var init := run[..|run| - 1];
      UpdatesExactly(ann, init, sig);
      AskedExactly(Run(ann, init), run[|run| - 1]);
      RecordedRepeats(Run(ann, init), sig, sig);
    }
  }

  // ---- runs of several stretches ----------------------------------------------------------------------

  /** A new stretch begins where a difference is reported and the comparison before did not report the same one. */
  predicate Begins(run: seq<Comparison>, i: nat)
    requires i < |run|
  {
    run[i].Differs? && (i == 0 || !run[i - 1].Differs? || run[i - 1].sig != run[i].sig)
  }

  function Stretches(run: seq<Comparison>): nat {
    if run == [] then 0
    else Stretches(run[..|run| - 1]) + if Begins(run, |run| - 1) then 1 else 0
  }

  lemma {:induction false} UpdatesSplit(ann: Annotations, a: seq<Comparison>, b: seq<Comparison>)
    ensures Run(ann, a + b) == Run(Run(ann, a), b)
    ensures Updates(ann, a + b) == Updates(ann, a) + Updates(Run(ann, a), b)
    decreases b
  {
    if b == [] {
      assert a + b == a;
    } else {
      var init := b[..|b| - 1];
      assert (a + b)[..|a + b| - 1] == a + init;
      UpdatesSplit(ann, a, init);
    }
  }

  /** Where the last stretch of the run begins, or the end when the run does not end in a report. */
  function LastStretch(run: seq<Comparison>): (k: nat)
    ensures k <= |run|
  {
    if run == [] || !run[|run| - 1].Differs? then |run|
    else if Begins(run, |run| - 1) then |run| - 1
    else LastStretch(run[..|run| - 1])
  }

  lemma {:induction false} LastStretchReports(run: seq<Comparison>)
    requires run != [] && run[|run| - 1].Differs?
    ensures LastStretch(run) < |run| && Reports(run[LastStretch(run)..], run[|run| - 1].sig)
    ensures Stretches(run) == Stretches(run[..LastStretch(run)]) + 1
  {
    var init := run[..|run| - 1];
    if !Begins(run, |run| - 1) {
      LastStretchReports(init);
      var k := LastStretch(init);
      assert run[..k] == init[..k] && run[k..] == init[k..] + [run[|run| - 1]];
    }
  }

  /** Over any run: at most four updates are requested per stretch of one difference. */
  lemma {:induction false} UpdatesBounded(ann: Annotations, run: seq<Comparison>)
    requires forall i | 0 <= i < |run| && run[i].Differs? :: run[i].sig != ""
    ensures Updates(ann, run) <= (MAX_DRIFT_REPEATS - 1) * Stretches(run)
    decreases |run|
  {
    if run != [] {
      var init, last := run[..|run| - 1], run[|run| - 1];
      if last.Differs? {
        var k := LastStretch(run);
        LastStretchReports(run);
        UpdatesBounded(ann, run[..k]);
        UpdatesSplit(ann, run[..k], run[k..]);
        assert run[..k] + run[k..] == run;
        OneStretch(Run(ann, run[..k]), run[k..], last.sig);
      } else {
        UpdatesBounded(ann, init);
      }
    }
  }
}
