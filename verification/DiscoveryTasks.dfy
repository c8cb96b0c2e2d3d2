/** The registry that owns every spawned discovery task, and what any number of
    concurrent, cancelled and resumed shutdowns can rely on. */
module Tasks {
  import opened Wrappers

  type Id = nat

  // Tasks are numbered as they are admitted; the tracker forgets one when its
  // future is destroyed.
  datatype Registry = Registry(closed: bool, tracked: set<Id>, admitted: nat)

  const EMPTY := Registry(false, {}, 0)

  datatype Operation = Spawn | Stop | Destroyed(task: Id) | PollShutdown

  function Do(r: Registry, op: Operation): Registry {
    match op
    case Spawn => if r.closed then r else Registry(false, r.tracked + {r.admitted}, r.admitted + 1)
    case Stop => r.(closed := true)
    case Destroyed(task) => r.(tracked := r.tracked - {task})
    case PollShutdown => r.(closed := true)
  }

  class DiscoveryTasks {
    var closed: bool
    var tracked: set<Id>
    var admitted: nat

    constructor ()
      ensures State() == EMPTY
    {
      closed, tracked, admitted := false, {}, 0;
    }

    function State(): Registry
      reads this
    {
      Registry(closed, tracked, admitted)
    }

    // Admission and closure exclude each other: a spawn is tracked or refused.
    method SpawnOn() returns (task: Option<Id>)
      modifies this
      ensures State() == Do(old(State()), Spawn)
      ensures task == if old(closed) then None else Some(old(admitted))
      ensures tracked == old(tracked) + (if task.Some? then {task.value} else {}) && closed == old(closed)
    {
      if closed {
        return None;
      }
      task := Some(admitted);
      tracked := tracked + {admitted};
      admitted := admitted + 1;
    }

    method StopAdmission()
      modifies this
      ensures State() == Do(old(State()), Stop)
    {
      closed := true;
    }

    // One poll of `shutdown`: ready exactly when nothing is left to wait for.
    method Shutdown() returns (ready: bool)
      modifies this
      ensures State() == Do(old(State()), PollShutdown)
      ensures ready <==> tracked == {}
    {
      StopAdmission();
      ready := tracked == {};
    }
  }

  // ----- Every history -----

  function After(ops: seq<Operation>): Registry {
    if ops == [] then EMPTY else Do(After(ops[..|ops| - 1]), ops[|ops| - 1])
  }

  // The task was destroyed after it had been admitted.
  predicate DestroyedIn(ops: seq<Operation>, task: Id) {
    ops != []
    && var before := ops[..|ops| - 1];
       DestroyedIn(before, task) || (ops[|ops| - 1] == Destroyed(task) && task < After(before).admitted)
  }

  // Every task ever admitted is tracked until it is destroyed: none is lost,
  // and none is tracked that was not admitted.
  lemma {:induction false} TrackedUntilDestroyed(ops: seq<Operation>, task: Id)
    ensures task in After(ops).tracked <==> task < After(ops).admitted && !DestroyedIn(ops, task)
    ensures DestroyedIn(ops, task) ==> task < After(ops).admitted
  {
    if ops != [] {
      TrackedUntilDestroyed(ops[..|ops| - 1], task);
    }
  }

  // After a stop nothing more is admitted.
  lemma {:induction false} StopIsPermanent(ops: seq<Operation>, more: seq<Operation>)
    requires After(ops).closed
    ensures After(ops + more).closed && After(ops + more).admitted == After(ops).admitted
    ensures After(ops + more).tracked <= After(ops).tracked
  {
    if more == [] {
      assert ops + more == ops;
    } else {
      var n := |more| - 1;
      StopIsPermanent(ops, more[..n]);
      assert (ops + more)[..|ops + more| - 1] == ops + more[..n];
    }
  }

  // A shutdown, whichever caller's and however often resumed, returns on a
  // poll that finds nothing tracked; then every admitted task has been
  // destroyed and no later history has a task.
  lemma ShutdownEmptiesForever(ops: seq<Operation>, more: seq<Operation>)
    requires After(ops + [PollShutdown]).tracked == {}
    ensures var all := ops + [PollShutdown] + more;
            && After(all).tracked == {} && After(all).admitted == After(ops).admitted
            && forall task: Id :: task < After(all).admitted ==> DestroyedIn(all, task)
  {
    var first := ops + [PollShutdown];
    assert first[..|first| - 1] == ops;
    StopIsPermanent(first, more);
    forall task: Id | task < After(first + more).admitted ensures DestroyedIn(first + more, task) {
      TrackedUntilDestroyed(first + more, task);
    }
  }

  // A spawn is refused exactly when a stop, or a poll of a shutdown, came first.
  lemma {:induction false} ClosedExactlyWhen(ops: seq<Operation>)
    ensures After(ops).closed <==> Stop in ops || PollShutdown in ops
  {
    if ops != [] {
      var before := ops[..|ops| - 1];
      ClosedExactlyWhen(before);
      assert ops == before + [ops[|ops| - 1]];
    }
  }

  // Before that it is admitted: the task is new, is tracked, and nothing else
  // changes.
  lemma SpawnBeforeStopIsTracked(ops: seq<Operation>)
    ensures var r, s, task := After(ops), After(ops + [Spawn]), After(ops).admitted;
            if Stop in ops || PollShutdown in ops then s == r
            else task !in r.tracked && s.tracked == r.tracked + {task} && s.admitted == task + 1 && !s.closed
  {
    ClosedExactlyWhen(ops);
    TrackedUntilDestroyed(ops, After(ops).admitted);
    assert (ops + [Spawn])[..|ops|] == ops;
  }
}
