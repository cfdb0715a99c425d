/** Long-running operations that are triggered once and polled from later reconciles. */
module AsyncRequeue {
  import opened Json
  import opened Annotations
  import opened Requests
  import Runs = AsyncRuns

  const OPERATION_ID := "krateo.io/async-operation-id"
  const OPERATION_ACTION := "krateo.io/async-operation-action"
  const OPERATION_PARAMS := "krateo.io/async-operation-params"

  // ---- the handle on the resource ---------------------------------------------------------------------

  predicate InFlight(ann: Annotations) {
    Get(ann, OPERATION_ID) != ""
  }

  /** Neither id nor action is removed without the other; other annotations stay as they are. */
  function WithHandle(ann: Annotations, id: string, action: string, params: Option<string>): Annotations {
    var patch: Patch := map[OPERATION_ID := Some(id), OPERATION_ACTION := Some(action)];
    Patched(ann, if params.Some? then patch[OPERATION_PARAMS := params] else patch)
  }

  function WithoutHandle(ann: Annotations): Annotations {
    if OPERATION_ID !in ann then ann
    else Patched(ann, map[OPERATION_ID := None, OPERATION_ACTION := None, OPERATION_PARAMS := None])
  }

  /** Clearing what was recorded gives back the annotations as they were before, but for the three keys. */
  lemma RecordThenClear(ann: Annotations, id: string, action: string, params: Option<string>)
    requires id != ""
    ensures InFlight(WithHandle(ann, id, action, params)) && Get(WithHandle(ann, id, action, params), OPERATION_ACTION) == action
    ensures !InFlight(WithoutHandle(WithHandle(ann, id, action, params)))
    ensures WithoutHandle(WithHandle(ann, id, action, params)) == ann - {OPERATION_ID, OPERATION_ACTION, OPERATION_PARAMS}
  {
    assert |OPERATION_ID| != |OPERATION_ACTION| && |OPERATION_ID| != |OPERATION_PARAMS|;
    assert OPERATION_ACTION[26] != OPERATION_PARAMS[26];
  }

  // ---- what the steps of a run stand for --------------------------------------------------------------

  function NameOf(action: Runs.Action): string {
    match action
    case Create => "create"
    case Update => "update"
  }

  function HandleOf(ann: Annotations): Option<Runs.Action> {
    if !InFlight(ann) then None
    else if Get(ann, OPERATION_ACTION) == "create" then Some(Runs.Create)
    else Some(Runs.Update)
  }

  /** The resource is as the state of the run has it. */
  predicate Stands(ann: Annotations, ready: Runs.Ready, s: Runs.State) {
    s.handle == HandleOf(ann) && s.ready == ready
  }

  lemma RecordedHandle(ann: Annotations, id: string, action: Runs.Action, params: Option<string>)
    requires id != ""
    ensures HandleOf(WithHandle(ann, id, NameOf(action), params)) == Some(action)
  {
    RecordThenClear(ann, id, NameOf(action), params);
    assert "create"[0] != "update"[0];
  }

  lemma ClearedHandle(ann: Annotations)
    requires InFlight(ann)
    ensures HandleOf(WithoutHandle(ann)) == None
  {
    PatchedGet(ann, map[OPERATION_ID := None, OPERATION_ACTION := None, OPERATION_PARAMS := None], OPERATION_ID);
  }

  /** What a polled operation leads to: an error, a held resource, or the ordinary observe. */
  datatype Driven = Errs | Holds | FallsThrough

  /** The requests after the poll. */
  datatype Luck = Luck(postGetFails: bool, status: Request, clear: Request)

  /** The handle goes once the outcome is known and dealt with: a failure shown, a success read. */
  predicate Clears(poll: Runs.Poll, postGet: bool, luck: Luck) {
    Effective(luck.clear) && ((poll.Succeeded? && !(postGet && luck.postGetFails)) || (poll.Failed? && !luck.status.fails))
  }

  function Write(r: Request): Runs.Event {
    Runs.Writes(r.fails, r.applied, false, false)
  }

  /** One poll as the steps of a run. A read of the outcome that fails leaves the handle where it is. */
  function Steps(poll: Runs.Poll, postGet: bool, luck: Luck): seq<Runs.Event> {
    var seen := Runs.Observes(poll, Runs.Missing, false);
    match poll
    case Succeeded => [seen, if postGet && luck.postGetFails then Write(Request(true, false)) else Write(luck.clear)]
    case Failed => [seen, Write(luck.status), Write(luck.clear)]
    case _ => [seen]
  }

  lemma OneStep(s: Runs.State, a: Runs.Event)
    ensures Runs.Run(s, [a]) == Runs.Next(s, a)
  {
    assert [a][..0] == [] && Runs.Run(s, []) == s;
  }

  lemma TwoSteps(s: Runs.State, a: Runs.Event, b: Runs.Event)
    ensures Runs.Run(s, [a, b]) == Runs.Next(Runs.Next(s, a), b)
  {
    assert [a, b][..1] == [a];
    OneStep(s, a);
  }

  lemma ThreeSteps(s: Runs.State, a: Runs.Event, b: Runs.Event, c: Runs.Event)
    ensures Runs.Run(s, [a, b, c]) == Runs.Next(Runs.Next(Runs.Next(s, a), b), c)
  {
    assert [a, b, c][..2] == [a, b];
    TwoSteps(s, a, b);
  }

  class Resource {
    var annotations: Annotations
    var ready: Runs.Ready

    /**
     Records the handle extracted from the trigger's response, unless there is none: the step of a run that
     follows a trigger.
     */
    method RecordAsyncOperation(handle: Option<string>, action: Runs.Action, params: Option<string>, patch: Request, ghost s: Runs.State)
      returns (ok: bool)
      requires handle.Some? ==> handle.value != ""
      modifies this`annotations
      ensures ok <==> handle.Some? && !patch.fails
      ensures annotations ==
        if handle.Some? && Effective(patch) then WithHandle(old(annotations), handle.value, NameOf(action), params)
        else old(annotations)
      ensures s.pc == Runs.Triggered(action) && Stands(old(annotations), ready, s) ==>
        Stands(annotations, ready, Runs.Next(s, Write(if handle.Some? then patch else Request(true, false))))
    {
      if handle.None? {
        return false;
      }
      var keys: Patch := map[OPERATION_ID := Some(handle.value), OPERATION_ACTION := Some(NameOf(action))];
      if params.Some? {
        keys := keys[OPERATION_PARAMS := params];
      }
      if Effective(patch) {
        RecordedHandle(annotations, handle.value, action, params);
        annotations := Patched(annotations, keys);
      }
      ok := !patch.fails;
    }

    method ClearAsyncOperation(patch: Request) returns (ok: bool)
      modifies this`annotations
      ensures ok == !(patch.fails && OPERATION_ID in old(annotations))
      ensures annotations == if Effective(patch) then WithoutHandle(old(annotations)) else old(annotations)
    {
      if OPERATION_ID !in annotations {
        return true;
      }
      if Effective(patch) {
        annotations := Patched(annotations, map[OPERATION_ID := None, OPERATION_ACTION := None, OPERATION_PARAMS := None]);
      }
      ok := !patch.fails;
    }

    /**
     Polls the recorded operation once; a handle whose verb is not polled any more is dropped. The poll leaves the
     resource where the steps of a run leave it: after a failure Unavailable is written before the handle goes,
     after a success the handle goes and Ready is left alone.
     */
    method DriveAsyncRequeue(configured: bool, poll: Runs.Poll, postGet: bool, luck: Luck, ghost s: Runs.State) returns (r: Driven)
      requires InFlight(annotations)
      modifies this
      ensures configured && s.pc == Runs.Idle && Stands(old(annotations), old(ready), s) ==>
        var s' := Runs.Run(s, Steps(poll, postGet, luck));
        Stands(annotations, ready, s') && s'.pc == Runs.Idle
      ensures !configured ==>
        && ready == old(ready) && r == (if luck.clear.fails then Errs else FallsThrough)
        && annotations == (if Effective(luck.clear) then WithoutHandle(old(annotations)) else old(annotations))
      ensures configured ==>
        && ready == (if poll.Failed? && Effective(luck.status) then Runs.Unavailable else old(ready))
        && annotations == if Clears(poll, postGet, luck) then WithoutHandle(old(annotations)) else old(annotations)
      ensures configured ==> (r.Holds? <==> poll.StillPending?)
      ensures configured ==> (r.FallsThrough? <==> poll.Succeeded? && !(postGet && luck.postGetFails) && !luck.clear.fails)
      ensures forall key | key !in {OPERATION_ID, OPERATION_ACTION, OPERATION_PARAMS} :: Get(annotations, key) == Get(old(annotations), key)
    {
      var seen := Runs.Observes(poll, Runs.Missing, false);
      ClearedHandle(annotations);
      if !configured {
        var ok := ClearAsyncOperation(luck.clear);
        return if ok then FallsThrough else Errs;
      }
      match poll
      case PollFailed =>
        OneStep(s, seen);
        r := Errs;
      case StillPending =>
        OneStep(s, seen);
        r := Holds;
      case Succeeded =>
        TwoSteps(s, seen, if postGet && luck.postGetFails then Write(Request(true, false)) else Write(luck.clear));
        if postGet && luck.postGetFails {
          return Errs;
        }
        var ok := ClearAsyncOperation(luck.clear);
        r := if ok then FallsThrough else Errs;
      case Failed =>
        ThreeSteps(s, seen, Write(luck.status), Write(luck.clear));
        r := Errs;
        if Effective(luck.status) {
          ready := Runs.Unavailable;
        }
        if luck.status.fails {
          return;
        }
        var ok := ClearAsyncOperation(luck.clear);
    }
  }
}
