/** Which runtime runs the discovery loop. Any thread may ask for discovery to
    be started; loops end, are told to abort, finish a poll after that, and
    start affinity work; the client shuts down. Steps are atomic accesses and
    the accesses made under the `discovery_tasks` mutex. */
module Handoff {
  import opened Wrappers

  type RuntimeId = nat
  // A registration (one `DiscoveryRuntime`), the loop it belongs to, or a task.
  type Id = nat

  // `Ending`: the guard has set `stopped`; `Cleared`: it has also run its
  // compare-and-swap; `Gone`: the future is destroyed.
  datatype Status = Alive | Ending | Cleared | Gone

  datatype Loop = Loop(runtime: RuntimeId, aborted: bool, status: Status)

  datatype Affinity = Affinity(installer: Id, aborted: bool, gone: bool)

  // The mutex and what its holder does next.
  datatype Lock =
    | Free
    | Deciding(runtime: RuntimeId)
    | AbortingLoop(runtime: RuntimeId)
    | AbortingAffinity(runtime: RuntimeId)
    | Registering(runtime: RuntimeId)
    | Spawning(runtime: RuntimeId, id: Id)
    | Rejected(id: Id)                    // spawn refused, the dropped future's guard is running
    | Recording(id: Id, admitted: bool)
    | Checking(loop: Id)
    | Installing(loop: Id)
    | RecordingAffinity(loop: Id, task: Option<Id>)

  datatype State = State(
    lock: Lock,
    registration: Option<Id>,
    activeTask: Option<Id>,
    affinityTask: Option<Id>,
    loops: map<Id, Loop>,
    affinities: map<Id, Affinity>,
    closed: bool,
    dropped: bool,
    nextId: Id,
    polls: nat)

  datatype Action =
    | Ensure(runtime: RuntimeId)
    | Decide(handoff: bool)
    | AbortLoop
    | AbortAffinity
    | Register
    | Spawn
    | RejectedGuard
    | Record
    | AskAffinity(loop: Id)
    | CheckAffinity
    | SpawnAffinity
    | RecordAffinityTask
    | BeginEnd(loop: Id)
    | GuardSwap(loop: Id)
    | Destroy(loop: Id)
    | EndAffinity(task: Id)
    | Poll(task: Id)
    | Stop
    | DropManager

  predicate HoldsLock(s: State, l: Id) {
    match s.lock
    case Checking(x) => x == l
    case Installing(x) => x == l
    case RecordingAffinity(x, _) => x == l
    case _ => false
  }

  predicate Running(s: State, l: Id) {
    l in s.loops && s.loops[l].status == Alive
  }

  predicate AffinityFinished(s: State) {
    s.affinityTask.Some? && s.affinityTask.value in s.affinities ==> s.affinities[s.affinityTask.value].gone
  }

  // An owner whose guard has run is always given up.
  predicate OwnerStopped(s: State) {
    s.registration.Some? && s.registration.value in s.loops && s.loops[s.registration.value].status != Alive
  }

  predicate Possible(s: State, a: Action) {
    match a
    case Ensure(_) => s.lock.Free? && !s.dropped
    case Decide(handoff) =>
      && s.lock.Deciding?
      && (OwnerStopped(s) ==> handoff)
    case AbortLoop => s.lock.AbortingLoop?
    case AbortAffinity => s.lock.AbortingAffinity?
    case Register => s.lock.Registering?
    case Spawn => s.lock.Spawning?
    case RejectedGuard => s.lock.Rejected?
    case Record => s.lock.Recording?
    case AskAffinity(l) => s.lock.Free? && !s.dropped && Running(s, l)
    case CheckAffinity => s.lock.Checking?
    case SpawnAffinity => s.lock.Installing?
    case RecordAffinityTask => s.lock.RecordingAffinity?
    case BeginEnd(l) => Running(s, l) && !HoldsLock(s, l)
    case GuardSwap(l) => l in s.loops && s.loops[l].status == Ending
    case Destroy(l) => l in s.loops && s.loops[l].status == Cleared
    case EndAffinity(t) => t in s.affinities && !s.affinities[t].gone
    case Poll(t) => Running(s, t) || (t in s.affinities && !s.affinities[t].gone)
    case Stop => true
    case DropManager => s.lock.Free? && !s.dropped
  }

  // The guard's compare-and-swap: clears only its own registration.
  function Swap(registration: Option<Id>, own: Id): Option<Id> {
    if registration == Some(own) then None else registration
  }

  function AbortLoopIn(s: State, task: Option<Id>): map<Id, Loop> {
    if task.Some? && task.value in s.loops then s.loops[task.value := s.loops[task.value].(aborted := true)] else s.loops
  }

  function AbortAffinityIn(s: State, task: Option<Id>): map<Id, Affinity> {
    if task.Some? && task.value in s.affinities
    then s.affinities[task.value := s.affinities[task.value].(aborted := true)] else s.affinities
  }

  function Do(s: State, a: Action): State
    requires Possible(s, a)
  {
    match a
    case Ensure(runtime) => s.(lock := Deciding(runtime))
    case Decide(handoff) =>
      // Same runtime as the registered owner, or an owner that answers: keep it.
      if s.registration.Some? && s.registration.value in s.loops
         && (s.loops[s.registration.value].runtime == s.lock.runtime || !handoff)
      then s.(lock := Free) else s.(lock := AbortingLoop(s.lock.runtime))
    case AbortLoop =>
      s.(loops := AbortLoopIn(s, s.activeTask), activeTask := None, lock := AbortingAffinity(s.lock.runtime))
    case AbortAffinity =>
      s.(affinities := AbortAffinityIn(s, s.affinityTask), affinityTask := None, lock := Registering(s.lock.runtime))
    case Register =>
      s.(registration := Some(s.nextId), nextId := s.nextId + 1, lock := Spawning(s.lock.runtime, s.nextId))
    case Spawn =>
      if s.closed then s.(lock := Rejected(s.lock.id))
      else s.(loops := s.loops[s.lock.id := Loop(s.lock.runtime, false, Alive)], lock := Recording(s.lock.id, true))
    case RejectedGuard => s.(registration := Swap(s.registration, s.lock.id), lock := Recording(s.lock.id, false))
    case Record => s.(activeTask := if s.lock.admitted then Some(s.lock.id) else None, lock := Free)
    case AskAffinity(l) => s.(lock := Checking(l))
    case CheckAffinity =>
      if s.registration == Some(s.lock.loop) && AffinityFinished(s) then s.(lock := Installing(s.lock.loop))
      else s.(lock := Free)
    case SpawnAffinity =>
      if s.closed then s.(lock := RecordingAffinity(s.lock.loop, None))
      else s.(affinities := s.affinities[s.nextId := Affinity(s.lock.loop, false, false)], nextId := s.nextId + 1,
              lock := RecordingAffinity(s.lock.loop, Some(s.nextId)))
    case RecordAffinityTask => s.(affinityTask := s.lock.task, lock := Free)
    case BeginEnd(l) => s.(loops := s.loops[l := s.loops[l].(status := Ending)])
    case GuardSwap(l) =>
      s.(loops := s.loops[l := s.loops[l].(status := Cleared)],
         registration := if s.dropped then s.registration else Swap(s.registration, l))
    case Destroy(l) => s.(loops := s.loops[l := s.loops[l].(status := Gone)])
    case EndAffinity(t) => s.(affinities := s.affinities[t := s.affinities[t].(gone := true)])
    case Poll(_) => s.(polls := s.polls + 1)
    case Stop => s.(closed := true)
    case DropManager =>
      s.(loops := AbortLoopIn(s, s.activeTask), affinities := AbortAffinityIn(s, s.affinityTask),
         activeTask := None, affinityTask := None, dropped := true)
  }

  function Exec(s: State, acts: seq<Action>): Option<State> {
    if acts == [] then Some(s)
    else
      match Exec(s, acts[..|acts| - 1])
      case None => None
      case Some(t) => if Possible(t, acts[|acts| - 1]) then Some(Do(t, acts[|acts| - 1])) else None
  }

  const START := State(Free, None, None, None, map[], map[], false, false, 0, 0)

  // ----- The invariant -----

  predicate LiveLoop(s: State, l: Id) {
    Running(s, l) && !s.loops[l].aborted
  }

  predicate LiveAffinity(s: State, t: Id) {
    t in s.affinities && !s.affinities[t].gone && !s.affinities[t].aborted
  }

  // A takeover that has aborted the old loop but not yet replaced it.
  predicate MidTakeover(k: Lock) {
    k.AbortingAffinity? || k.Registering?
  }

  ghost predicate IdsOk(s: State) {
    && (forall l: Id :: l in s.loops ==> l < s.nextId)
    && (forall t: Id :: t in s.affinities ==> t < s.nextId && s.affinities[t].installer < s.nextId)
    && (s.registration.Some? ==> s.registration.value < s.nextId)
    && (s.activeTask.Some? ==> s.activeTask.value in s.loops)
    && (s.affinityTask.Some? ==> s.affinityTask.value in s.affinities)
  }

  ghost predicate LockOk(s: State) {
    match s.lock
    case Spawning(_, r) => s.registration == Some(r) && r !in s.loops && s.activeTask.None? && s.affinityTask.None?
    case Rejected(r) => s.registration == Some(r) && r !in s.loops && s.activeTask.None? && s.affinityTask.None?
    case Recording(r, admitted) =>
      s.activeTask.None? && s.affinityTask.None? && (if admitted then r in s.loops else s.registration.None?)
    case AbortingAffinity(_) => s.activeTask.None?
    case Registering(_) => s.activeTask.None? && s.affinityTask.None?
    case Checking(l) => Running(s, l)
    case Installing(l) => LiveLoop(s, l) && s.registration == Some(l) && AffinityFinished(s)
    case RecordingAffinity(l, task) =>
      && LiveLoop(s, l) && s.registration == Some(l) && AffinityFinished(s)
      && (task.Some? ==> task.value in s.affinities && s.affinities[task.value].installer == l)
    case _ => true
  }

  // Every loop that may still run is the registered one, and its handle is
  // where the next takeover will find it.
  ghost predicate LoopsOk(s: State) {
    && (forall l: Id :: LiveLoop(s, l) ==>
          s.registration == Some(l) && (s.activeTask == Some(l) || s.lock == Recording(l, true)))
    && (s.registration.Some? && !s.lock.Spawning? && !s.lock.Rejected? ==>
          && s.registration.value in s.loops
          && (s.loops[s.registration.value].status == Alive || s.loops[s.registration.value].status == Ending)
          && (!MidTakeover(s.lock) ==> !s.loops[s.registration.value].aborted))
  }

  ghost predicate AffinitiesOk(s: State) {
    forall t: Id :: LiveAffinity(s, t) ==>
      && (s.affinityTask == Some(t) || (s.lock.RecordingAffinity? && s.lock.task == Some(t)))
      && (s.registration.None? || s.registration == Some(s.affinities[t].installer))
  }

  ghost predicate AfterDrop(s: State) {
    && s.lock.Free? && s.activeTask.None? && s.affinityTask.None?
    && (forall l: Id :: !LiveLoop(s, l)) && (forall t: Id :: !LiveAffinity(s, t))
  }

  ghost predicate Inv(s: State) {
    IdsOk(s) && if s.dropped then AfterDrop(s) else LockOk(s) && LoopsOk(s) && AffinitiesOk(s)
  }

  predicate TakeoverStep(a: Action) {
    a.Ensure? || a.Decide? || a.AbortLoop? || a.AbortAffinity? || a.Register? || a.Spawn? || a.RejectedGuard? || a.Record?
  }

  predicate AffinityStep(a: Action) {
    a.AskAffinity? || a.CheckAffinity? || a.SpawnAffinity? || a.RecordAffinityTask?
  }

  // No step revives a loop or a task, and only spawning makes a new one.
  lemma LiveBefore(s: State, a: Action)
    requires Possible(s, a)
    ensures forall l: Id :: LiveLoop(Do(s, a), l) ==> LiveLoop(s, l) || (a.Spawn? && l == s.lock.id)
    ensures forall t: Id :: LiveAffinity(Do(s, a), t) ==> LiveAffinity(s, t) || (a.SpawnAffinity? && t == s.nextId)
  {
  }

  lemma TakeoverKeepsInv(s: State, a: Action)
    requires Inv(s) && Possible(s, a) && TakeoverStep(a)
    ensures Inv(Do(s, a))
  {
    if a.Ensure? || a.Decide? || a.AbortLoop? || a.AbortAffinity? {
      AbortingKeepsInv(s, a);
    } else {
      ReplacingKeepsInv(s, a);
    }
  }

  lemma AbortingKeepsInv(s: State, a: Action)
    requires Inv(s) && Possible(s, a) && (a.Ensure? || a.Decide? || a.AbortLoop? || a.AbortAffinity?)
    ensures Inv(Do(s, a))
  {
    LiveBefore(s, a);
  }

  lemma ReplacingKeepsInv(s: State, a: Action)
    requires Inv(s) && Possible(s, a) && (a.Register? || a.Spawn? || a.RejectedGuard? || a.Record?)
    ensures Inv(Do(s, a))
  {
    LiveBefore(s, a);
  }

  lemma AffinityKeepsInv(s: State, a: Action)
    requires Inv(s) && Possible(s, a) && AffinityStep(a)
    ensures Inv(Do(s, a))
  {
    if a.SpawnAffinity? {
      SpawnAffinityKeepsInv(s);
    } else {
      AskingKeepsInv(s, a);
    }
  }

  lemma SpawnAffinityKeepsInv(s: State)
    requires Inv(s) && Possible(s, SpawnAffinity)
    ensures Inv(Do(s, SpawnAffinity))
  {
    LiveBefore(s, SpawnAffinity);
  }

  lemma AskingKeepsInv(s: State, a: Action)
    requires Inv(s) && Possible(s, a) && AffinityStep(a) && !a.SpawnAffinity?
    ensures Inv(Do(s, a))
  {
    match a
    case RecordAffinityTask => RecordingKeepsInv(s);
    case CheckAffinity => CheckingKeepsInv(s);
    case AskAffinity(l) => RequestingKeepsInv(s, l);
  }

  lemma RecordingKeepsInv(s: State)
    requires Inv(s) && Possible(s, RecordAffinityTask)
    ensures Inv(Do(s, RecordAffinityTask))
  {
    LiveBefore(s, RecordAffinityTask);
  }

  lemma CheckingKeepsInv(s: State)
    requires Inv(s) && Possible(s, CheckAffinity)
    ensures Inv(Do(s, CheckAffinity))
  {
    LiveBefore(s, CheckAffinity);
  }

  lemma RequestingKeepsInv(s: State, l: Id)
    requires Inv(s) && Possible(s, AskAffinity(l))
    ensures Inv(Do(s, AskAffinity(l)))
  {
    LiveBefore(s, AskAffinity(l));
  }

  lemma OtherKeepsInv(s: State, a: Action)
    requires Inv(s) && Possible(s, a) && !TakeoverStep(a) && !AffinityStep(a)
    ensures Inv(Do(s, a))
  {
    if a.BeginEnd? || a.GuardSwap? || a.Destroy? {
      EndingKeepsInv(s, a);
    } else {
      RestKeepsInv(s, a);
    }
  }

  lemma EndingKeepsInv(s: State, a: Action)
    requires Inv(s) && Possible(s, a) && (a.BeginEnd? || a.GuardSwap? || a.Destroy?)
    ensures Inv(Do(s, a))
  {
    LiveBefore(s, a);
  }

  lemma RestKeepsInv(s: State, a: Action)
    requires Inv(s) && Possible(s, a) && (a.EndAffinity? || a.Poll? || a.Stop? || a.DropManager?)
    ensures Inv(Do(s, a))
  {
    LiveBefore(s, a);
  }

  lemma {:induction false} ExecKeepsInv(s: State, acts: seq<Action>)
    requires Inv(s) && Exec(s, acts).Some?
    ensures Inv(Exec(s, acts).value)
  {
    if acts != [] {
      var before, a := acts[..|acts| - 1], acts[|acts| - 1];
      ExecKeepsInv(s, before);
      var t := Exec(s, before).value;
      if TakeoverStep(a) {
        TakeoverKeepsInv(t, a);
      } else if AffinityStep(a) {
        AffinityKeepsInv(t, a);
      } else {
        OtherKeepsInv(t, a);
      }
    }
  }

  // ----- Ownership over every run -----

  lemma Reachable(acts: seq<Action>)
    requires Exec(START, acts).Some?
    ensures Inv(Exec(START, acts).value)
  {
    ExecKeepsInv(START, acts);
  }

  // At most one loop has not been told to abort, it is the registered one, and
  // the registration never names a loop whose guard has run.
  lemma OneOwner(acts: seq<Action>)
    requires Exec(START, acts).Some?
    ensures var s := Exec(START, acts).value;
            && (forall l: Id, m: Id :: LiveLoop(s, l) && LiveLoop(s, m) ==> l == m)
            && (forall l: Id :: LiveLoop(s, l) ==> !s.dropped && s.registration == Some(l))
            && (!s.dropped && s.registration.Some? && s.registration.value in s.loops ==>
                  s.loops[s.registration.value].status == Alive || s.loops[s.registration.value].status == Ending)
  {
    Reachable(acts);
  }

  // At most one affinity task is unfinished and not told to abort, and no
  // owner but its installer is registered while it is.
  lemma OneAffinityTask(acts: seq<Action>)
    requires Exec(START, acts).Some?
    ensures var s := Exec(START, acts).value;
            && (forall t: Id, u: Id :: LiveAffinity(s, t) && LiveAffinity(s, u) ==> t == u)
            && (forall t: Id :: LiveAffinity(s, t) ==>
                  s.registration.None? || s.registration == Some(s.affinities[t].installer))
  {
    Reachable(acts);
  }

  // The loop that installs affinity work is the registered one, has not been
  // told to abort, and no other affinity work is live.
  lemma OnlyTheOwnerInstalls(acts: seq<Action>)
    requires Exec(START, acts).Some? && Exec(START, acts).value.lock.Installing?
    ensures var s := Exec(START, acts).value;
            && LiveLoop(s, s.lock.loop) && s.registration == Some(s.lock.loop)
            && forall t: Id :: !LiveAffinity(s, t)
  {
    Reachable(acts);
  }

  // A guard clears its own registration and never a replacement.
  lemma StaleGuardClearsNothing(acts: seq<Action>, l: Id)
    requires Exec(START, acts).Some? && Possible(Exec(START, acts).value, GuardSwap(l))
    ensures var s := Exec(START, acts).value;
            var t := Do(s, GuardSwap(l));
            && t.registration == (if s.registration == Some(l) && !s.dropped then None else s.registration)
            && (forall m: Id :: m != l && LiveLoop(s, m) ==> t.registration == Some(m) && LiveLoop(t, m))
  {
    Reachable(acts);
  }

  // A registration, once lost, is lost for good.
  ghost predicate Lost(s: State, l: Id) {
    l in s.loops && s.registration != Some(l)
  }

  lemma StepStaysLost(s: State, l: Id, a: Action)
    requires Inv(s) && Lost(s, l) && Possible(s, a)
    ensures Lost(Do(s, a), l)
    ensures forall t: Id :: t in Do(s, a).affinities && t !in s.affinities ==> Do(s, a).affinities[t].installer != l
    ensures forall t: Id :: t in s.affinities ==>
              t in Do(s, a).affinities && Do(s, a).affinities[t].installer == s.affinities[t].installer
  {
  }

  lemma {:induction false} LostForGood(s: State, l: Id, more: seq<Action>)
    requires Inv(s) && Lost(s, l) && Exec(s, more).Some?
    ensures Lost(Exec(s, more).value, l)
    ensures forall t: Id :: t in Exec(s, more).value.affinities && t !in s.affinities ==>
              Exec(s, more).value.affinities[t].installer != l
  {
    if more != [] {
      var before := more[..|more| - 1];
      LostForGood(s, l, before);
      ExecKeepsInv(s, before);
      StepStaysLost(Exec(s, before).value, l, more[|more| - 1]);
    }
  }

  // A loop that has been replaced is never registered again and never installs
  // another affinity task, though it may still be finishing a poll.
  lemma ReplacedLoopStaysReplaced(acts: seq<Action>, l: Id, more: seq<Action>)
    requires Exec(START, acts).Some? && Exec(Exec(START, acts).value, more).Some?
    requires Lost(Exec(START, acts).value, l)
    ensures var s, t := Exec(START, acts).value, Exec(Exec(START, acts).value, more).value;
            && t.registration != Some(l)
            && forall a: Id :: a in t.affinities && t.affinities[a].installer == l ==> a in s.affinities
  {
    Reachable(acts);
    LostForGood(Exec(START, acts).value, l, more);
  }

  // When a takeover has spawned its loop, or had it refused, every other loop
  // and every affinity task has ended or been told to abort.
  lemma TakeoverIsComplete(acts: seq<Action>)
    requires Exec(START, acts).Some? && Exec(START, acts).value.lock.Recording?
    ensures var s := Exec(START, acts).value;
            && (forall l: Id :: LiveLoop(s, l) ==> s.lock.admitted && l == s.lock.id)
            && (!s.lock.admitted ==> s.registration.None?)
            && forall t: Id :: !LiveAffinity(s, t)
  {
    Reachable(acts);
  }

  // ----- Shutdown -----

  // Tasks the tracker still waits for.
  ghost function Tracked(s: State): set<Id> {
    (set l | l in s.loops && s.loops[l].status != Gone) + (set t | t in s.affinities && !s.affinities[t].gone)
  }

  lemma StoppedStep(s: State, a: Action)
    requires s.closed && Possible(s, a)
    ensures var t := Do(s, a);
            && t.closed && t.loops.Keys == s.loops.Keys && t.affinities.Keys == s.affinities.Keys
            && Tracked(t) <= Tracked(s)
  {
  }

  lemma {:induction false} NothingAdmittedAfterStop(s: State, more: seq<Action>)
    requires s.closed && Exec(s, more).Some?
    ensures var t := Exec(s, more).value;
            && t.closed && t.loops.Keys == s.loops.Keys && t.affinities.Keys == s.affinities.Keys
            && Tracked(t) <= Tracked(s)
  {
    if more != [] {
      var before := more[..|more| - 1];
      NothingAdmittedAfterStop(s, before);
      StoppedStep(Exec(s, before).value, more[|more| - 1]);
    }
  }

  lemma OnlyStopCloses(s: State, a: Action)
    requires Possible(s, a)
    ensures Do(s, a).closed <==> s.closed || a == Stop
  {
  }

  // The client is closed from its stop on, and only then.
  lemma {:induction false} ClosedExactlyWhen(acts: seq<Action>)
    requires Exec(START, acts).Some?
    ensures Exec(START, acts).value.closed <==> Stop in acts
  {
    if acts != [] {
      var before, a := acts[..|acts| - 1], acts[|acts| - 1];
      ClosedExactlyWhen(before);
      OnlyStopCloses(Exec(START, before).value, a);
      assert acts == before + [a];
    }
  }

  // So a run that goes on after a stop has the tasks it had at the stop.
  lemma NothingStartsAfterStop(acts: seq<Action>, more: seq<Action>)
    requires Stop in acts && Exec(START, acts).Some? && Exec(Exec(START, acts).value, more).Some?
    ensures var s, t := Exec(START, acts).value, Exec(Exec(START, acts).value, more).value;
            && t.loops.Keys == s.loops.Keys && t.affinities.Keys == s.affinities.Keys && Tracked(t) <= Tracked(s)
  {
    ClosedExactlyWhen(acts);
    NothingAdmittedAfterStop(Exec(START, acts).value, more);
  }

  lemma OnlyTrackedTasksArePolled(s: State)
    ensures forall t: Id :: Possible(s, Poll(t)) ==> t in Tracked(s)
  {
  }

  // `shutdown` returns when the tracker is closed and empty. From then on,
  // whoever called it and whatever else still runs, there is no task and none is
  // polled again. (`ClientRuns` shows what that means for membership.)
  lemma {:induction false} ShutdownIsFinal(s: State, more: seq<Action>)
    requires s.closed && Tracked(s) == {} && Exec(s, more).Some?
    ensures var t := Exec(s, more).value; Tracked(t) == {} && t.polls == s.polls
  {
    if more != [] {
      var before := more[..|more| - 1];
      ShutdownIsFinal(s, before);
      NothingAdmittedAfterStop(s, before);
      EmptyStays(Exec(s, before).value, more[|more| - 1]);
    }
  }

  lemma EmptyStays(s: State, a: Action)
    requires s.closed && Tracked(s) == {} && Possible(s, a)
    ensures Tracked(Do(s, a)) == {} && Do(s, a).polls == s.polls
  {
    StoppedStep(s, a);
    OnlyTrackedTasksArePolled(s);
  }
}
