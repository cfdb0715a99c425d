/** Writing a status that others write conditions of, with retries. */
module StatusWrite {
  const READY := "Ready"
  const CREATING := "Creating"

  datatype Status<Data> = Status(data: Data, conditions: map<string, string>)

  /** The snapshot's fields over whatever conditions the target has, with Ready creating. */
  function ApplyTo<Data>(snapshot: Data, target: Status<Data>): Status<Data> {
    Status(snapshot, target.conditions[READY := CREATING])
  }

  lemma ApplyToTwice<Data>(snapshot: Data, target: Status<Data>)
    ensures ApplyTo(snapshot, ApplyTo(snapshot, target)) == ApplyTo(snapshot, target)
  {
    assert target.conditions[READY := CREATING][READY := CREATING] == target.conditions[READY := CREATING];
  }

  /** What happens to one attempt: somebody else writes conditions in between, the write fails, or neither; a failing write may take effect. */
  datatype Attempt = Interrupted(conditions: map<string, string>) | Fails(applied: bool) | Undisturbed

  class Server<Data> {
    var status: Status<Data>
    var version: nat
    ghost var history: seq<Status<Data>>

    constructor (status: Status<Data>)
      ensures Valid() && this.status == status && history == [status]
    {
      this.status, version, history := status, 0, [status];
    }

    ghost predicate Valid()
      reads this
    {
      history != [] && history[|history| - 1] == status
    }

    /** The last write applied the snapshot to what it directly follows. */
    ghost predicate Applied(snapshot: Data)
      reads this
    {
      |history| >= 2 && history[|history| - 1] == ApplyTo(snapshot, history[|history| - 2])
    }

    method OthersWrite(conditions: map<string, string>)
      requires Valid()
      modifies this
      ensures Valid() && status == old(status).(conditions := conditions) && version == old(version) + 1
      ensures history == old(history) + [status]
    {
      status := status.(conditions := conditions);
      version := version + 1;
      history := history + [status];
    }

    /** Compare and swap on the version that was read. */
    method Update(next: Status<Data>, read: nat) returns (conflict: bool)
      requires Valid()
      modifies this
      ensures Valid() && conflict == (read != old(version))
      ensures conflict ==> status == old(status) && version == old(version) && history == old(history)
      ensures !conflict ==> status == next && history == old(history) + [next]
    {
      conflict := read != version;
      if !conflict {
        status := next;
        version := version + 1;
        history := history + [next];
      }
    }

    /**
     Writes a snapshot onto a freshly read status, again and again while others get in between. A write that
     succeeds directly follows the status it was built from, so it discards nothing that others wrote.
     */
    method PersistStatusWithRetry(snapshot: Data, attempts: seq<Attempt>) returns (ok: bool)
      requires Valid()
      modifies this
      ensures Valid()
      ensures ok ==> Applied(snapshot)
      ensures !ok ==> status.data == old(status).data || Applied(snapshot)
      ensures ok <==> exists i | 0 <= i < |attempts| :: attempts[i].Undisturbed? && forall k | 0 <= k < i :: attempts[k].Interrupted?
    {
      for i := 0 to |attempts|
        invariant Valid() && status.data == old(status).data
        invariant forall k | 0 <= k < i :: attempts[k].Interrupted?
      {
        var cur, read := status, version;
        if attempts[i].Interrupted? {
          OthersWrite(attempts[i].conditions);
        }
        if attempts[i].Fails? {
          if attempts[i].applied {
            var late := Update(ApplyTo(snapshot, cur), read);
          }
          return false;
        }
        var conflict := Update(ApplyTo(snapshot, cur), read);
        if !conflict {
          return true;
        }
      }
      ok := false;
    }
  }
}
