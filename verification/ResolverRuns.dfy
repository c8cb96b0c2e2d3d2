/** Every interleaving of triggers, discovery tasks, cancellations and refused
    spawns. A step is one access to the cache, the marker set, the failure
    table or the task registry. */
module ResolverRuns {
  import opened Wrappers
  import opened Resolver

  type Id = nat

  // A trigger call goes from `Entered` to `Done` or hands over to a task; a
  // task is `Running` until it has written its result or is cancelled.
  datatype Place =
    | Entered
    | NotCached                 // not stopped and not cached when looked up
    | Allowed                   // the failure record allowed a retry
    | Claimed                   // marker inserted
    | BackingOut                // found cached after claiming
    | Rechecked                 // not cached after claiming
    | Cleared                   // failure record removed
    | Rejected                  // spawn refused, its future not yet dropped
    | Running
    | Ending                    // result written or cancelled, marker not yet removed
    | Done

  datatype Agent = Agent(table: string, place: Place)

  datatype State = State(
    closed: bool,
    cache: map<string, string>,
    inProgress: set<string>,
    failed: map<string, FailureRecord>,
    agents: map<Id, Agent>,
    next: Id,
    now: Instant)

  datatype Action =
    | Trigger(table: string)
    | LookUp(id: Id)
    | CheckCooldown(id: Id)
    | NoRuntime(id: Id)
    | Claim(id: Id)
    | Recheck(id: Id)
    | ClearFailure(id: Id)
    | Spawn(id: Id)
    | DropMarker(id: Id)
    | WriteKey(id: Id, name: string)
    | WriteFailure(id: Id, permanent: bool)
    | Cancel(id: Id)
    | Stop
    | Tick(elapsed: nat)

  predicate At(s: State, id: Id, place: Place) {
    id in s.agents && s.agents[id].place == place
  }

  predicate Possible(s: State, a: Action) {
    match a
    case Trigger(_) => true
    case LookUp(id) => At(s, id, Entered)
    case CheckCooldown(id) => At(s, id, NotCached)
    case NoRuntime(id) => At(s, id, Allowed)
    case Claim(id) => At(s, id, Allowed)
    case Recheck(id) => At(s, id, Claimed)
    case ClearFailure(id) => At(s, id, Rechecked)
    case Spawn(id) => At(s, id, Cleared)
    case DropMarker(id) => At(s, id, BackingOut) || At(s, id, Rejected) || At(s, id, Ending)
    case WriteKey(id, _) => At(s, id, Running)
    case WriteFailure(id, _) => At(s, id, Running)
    case Cancel(id) => At(s, id, Running)
    case Stop => true
    case Tick(_) => true
  }

  function Move(s: State, id: Id, place: Place): State
    requires id in s.agents
  {
    s.(agents := s.agents[id := s.agents[id].(place := place)])
  }

  function Do(s: State, a: Action): State
    requires Possible(s, a)
  {
    match a
    case Trigger(table) => s.(agents := s.agents[s.next := Agent(table, Entered)], next := s.next + 1)
    case LookUp(id) => Move(s, id, if s.closed || s.agents[id].table in s.cache then Done else NotCached)
    case CheckCooldown(id) =>
      var t := s.agents[id].table;
      Move(s, id, if t in s.failed && !CanRetry(s.failed[t], s.now) then Done else Allowed)
    case NoRuntime(id) => Move(s, id, Done)
    case Claim(id) =>
      var t := s.agents[id].table;
      if t in s.inProgress then Move(s, id, Done) else Move(s, id, Claimed).(inProgress := s.inProgress + {t})
    case Recheck(id) => Move(s, id, if s.agents[id].table in s.cache then BackingOut else Rechecked)
    case ClearFailure(id) => Move(s, id, Cleared).(failed := s.failed - {s.agents[id].table})
    case Spawn(id) =>
      if s.closed then Move(s, id, Rejected)
      else
        var moved := Move(s, id, Done);
        moved.(agents := moved.agents[s.next := Agent(s.agents[id].table, Running)], next := s.next + 1)
    case DropMarker(id) => Move(s, id, Done).(inProgress := s.inProgress - {s.agents[id].table})
    case WriteKey(id, name) => Move(s, id, Ending).(cache := s.cache[s.agents[id].table := name])
    case WriteFailure(id, permanent) =>
      Move(s, id, Ending).(failed := s.failed[s.agents[id].table := FailureRecord(s.now, permanent)])
    case Cancel(id) => Move(s, id, Ending)
    case Stop => s.(closed := true)
    case Tick(elapsed) => s.(now := s.now + elapsed)
  }

  function Exec(s: State, acts: seq<Action>): Option<State> {
    if acts == [] then Some(s)
    else
      match Exec(s, acts[..|acts| - 1])
      case None => None
      case Some(t) => if Possible(t, acts[|acts| - 1]) then Some(Do(t, acts[|acts| - 1])) else None
  }

  function Start(pkInfo: map<string, string>): State {
    State(false, pkInfo, {}, map[], map[], 0, 0)
  }

  // ----- The invariant -----

  // Agents that hold their table's marker.
  predicate Holds(s: State, id: Id) {
    id in s.agents
    && var p := s.agents[id].place;
       p.Claimed? || p.BackingOut? || p.Rechecked? || p.Cleared? || p.Rejected? || p.Running? || p.Ending?
  }

  // Agents that know their table is not cached.
  predicate KnowsAbsent(s: State, id: Id) {
    id in s.agents && var p := s.agents[id].place; p.Rechecked? || p.Cleared? || p.Running?
  }

  predicate Cooling(s: State, table: string) {
    table in s.failed && !CanRetry(s.failed[table], s.now)
  }

  ghost predicate Markers(s: State) {
    && (forall i: Id :: Holds(s, i) ==> s.agents[i].table in s.inProgress)
    && (forall i: Id, j: Id :: Holds(s, i) && Holds(s, j) && s.agents[i].table == s.agents[j].table ==> i == j)
  }

  ghost predicate MarkersHeld(s: State) {
    forall t :: t in s.inProgress ==> HeldBySomeone(s, t)
  }

  ghost predicate HeldBySomeone(s: State, t: string) {
    exists i: Id :: Holds(s, i) && s.agents[i].table == t
  }

  ghost predicate Absences(s: State) {
    forall i: Id :: KnowsAbsent(s, i) ==> s.agents[i].table !in s.cache
  }

  ghost predicate Inv(s: State) {
    && (forall id :: id in s.agents ==> id < s.next)
    && Markers(s) && MarkersHeld(s) && Absences(s)
  }

  // The agent whose marker `i` holds after the step: a task takes over its
  // trigger's.
  function HolderBefore(s: State, a: Action, i: Id): Id {
    if a.Spawn? && i == s.next then a.id else i
  }

  ghost predicate ClaimedNow(s: State, a: Action, i: Id) {
    a.Claim? && i == a.id && i in s.agents && s.agents[i].table !in s.inProgress
  }

  // Only a claim of a free table makes a new holder.
  lemma NoNewHolder(s: State, a: Action, i: Id)
    requires (forall id :: id in s.agents ==> id < s.next) && Possible(s, a)
    requires Holds(Do(s, a), i) && !ClaimedNow(s, a, i)
    ensures var h := HolderBefore(s, a, i);
            Holds(s, h) && s.agents[h].table == Do(s, a).agents[i].table && (a.DropMarker? ==> h != a.id)
    ensures a.Spawn? && i != s.next ==> i != a.id || s.closed
  {
  }

  lemma DoKeepsMarkers(s: State, a: Action)
    requires Inv(s) && Possible(s, a)
    ensures Markers(Do(s, a)) && forall id :: id in Do(s, a).agents ==> id < Do(s, a).next
  {
    var t := Do(s, a);
    forall i: Id | Holds(t, i) ensures t.agents[i].table in t.inProgress {
      if !ClaimedNow(s, a, i) {
        NoNewHolder(s, a, i);
        StillMarked(s, a, HolderBefore(s, a, i));
      }
    }
    forall i: Id, j: Id | Holds(t, i) && Holds(t, j) && t.agents[i].table == t.agents[j].table ensures i == j {
      if !ClaimedNow(s, a, i) {
        NoNewHolder(s, a, i);
      }
      if !ClaimedNow(s, a, j) {
        NoNewHolder(s, a, j);
      }
    }
  }

  lemma StillMarked(s: State, a: Action, h: Id)
    requires Inv(s) && Possible(s, a) && Holds(s, h) && (a.DropMarker? ==> h != a.id)
    ensures s.agents[h].table in Do(s, a).inProgress
  {
    if a.DropMarker? {
      assert Holds(s, a.id);
    }
  }

  lemma DoKeepsMarkersHeld(s: State, a: Action)
    requires Inv(s) && Possible(s, a)
    ensures MarkersHeld(Do(s, a))
  {
    var u := Do(s, a);
    forall t | t in u.inProgress ensures HeldBySomeone(u, t) {
      if t in s.inProgress {
        var i: Id :| Holds(s, i) && s.agents[i].table == t;
        if a.Spawn? && a.id == i && !s.closed {
          assert Holds(u, s.next) && u.agents[s.next].table == t;
        } else {
          assert Holds(u, i) && u.agents[i].table == t;
        }
      } else {
        assert Holds(u, a.id) && u.agents[a.id].table == t;
      }
    }
  }

  lemma DoKeepsAbsences(s: State, a: Action)
    requires Inv(s) && Possible(s, a)
    ensures Absences(Do(s, a))
  {
    var t := Do(s, a);
    forall i: Id | KnowsAbsent(t, i) ensures t.agents[i].table !in t.cache {
      if a.WriteKey? {
        assert Holds(s, i) && Holds(s, a.id);
      }
    }
  }

  // An entry, once cached, is never written again.
  lemma DoKeepsCache(s: State, a: Action)
    requires Inv(s) && Possible(s, a)
    ensures forall t :: t in s.cache ==> t in Do(s, a).cache && Do(s, a).cache[t] == s.cache[t]
    ensures a.WriteKey? ==> s.agents[a.id].table !in s.cache
  {
    if a.WriteKey? {
      assert KnowsAbsent(s, a.id);
    }
  }

  lemma {:induction false} ExecKeepsInv(s: State, acts: seq<Action>)
    requires Inv(s) && Exec(s, acts).Some?
    ensures Inv(Exec(s, acts).value)
    ensures forall t :: t in s.cache ==> t in Exec(s, acts).value.cache && Exec(s, acts).value.cache[t] == s.cache[t]
  {
    if acts != [] {
      var before, a := acts[..|acts| - 1], acts[|acts| - 1];
      ExecKeepsInv(s, before);
      var t := Exec(s, before).value;
      DoKeepsMarkers(t, a);
      DoKeepsMarkersHeld(t, a);
      DoKeepsAbsences(t, a);
      DoKeepsCache(t, a);
    }
  }

  // ----- Every run -----

  predicate Live(s: State, id: Id) {
    At(s, id, Running) || At(s, id, Ending)
  }

  // At most one discovery task per table; the marker is set exactly while one
  // agent, a claim or a task, holds it; and it never leaks.
  lemma MutualExclusion(pkInfo: map<string, string>, acts: seq<Action>)
    requires Exec(Start(pkInfo), acts).Some?
    ensures var s := Exec(Start(pkInfo), acts).value;
            && (forall i: Id, j: Id :: Live(s, i) && Live(s, j) && s.agents[i].table == s.agents[j].table ==> i == j)
            && (forall t :: t in s.inProgress <==> HeldBySomeone(s, t))
            && (forall i: Id, j: Id :: Holds(s, i) && Holds(s, j) && s.agents[i].table == s.agents[j].table ==> i == j)
            && ((forall id :: id in s.agents ==> s.agents[id].place.Done?) ==> s.inProgress == {})
  {
    ExecKeepsInv(Start(pkInfo), acts);
    var s := Exec(Start(pkInfo), acts).value;
    assert forall i: Id :: Live(s, i) ==> Holds(s, i);
    forall t | HeldBySomeone(s, t) ensures t in s.inProgress {
      var i: Id :| Holds(s, i) && s.agents[i].table == t;
    }
    if forall id :: id in s.agents ==> s.agents[id].place.Done? {
      assert forall i: Id :: !Holds(s, i);
      assert forall t :: !HeldBySomeone(s, t);
    }
  }

  // A cached key never changes, whether configured or discovered.
  lemma CacheIsWriteOnce(pkInfo: map<string, string>, acts: seq<Action>, more: seq<Action>)
    requires Exec(Start(pkInfo), acts).Some? && Exec(Exec(Start(pkInfo), acts).value, more).Some?
    ensures var s, u := Exec(Start(pkInfo), acts).value, Exec(Exec(Start(pkInfo), acts).value, more).value;
            forall t :: t in s.cache ==> t in u.cache && u.cache[t] == s.cache[t]
  {
    ExecKeepsInv(Start(pkInfo), acts);
    ExecKeepsInv(Exec(Start(pkInfo), acts).value, more);
  }

  // A discovery can be started although its table is in cooldown: two triggers
  // look before either claims, the first one's discovery fails for good, and
  // the second still starts another.
  lemma {:induction false} CooldownCanBeMissed()
    ensures exists acts :: Exec(Start(map[]), acts).Some?
              && var s := Exec(Start(map[]), acts).value;
                 exists id: Id :: At(s, id, Rechecked) && Cooling(s, s.agents[id].table)
  {
    var acts, s := BothLook();
    acts, s := FirstSpawns(acts, s);
    acts, s := FirstFails(acts, s);
    acts, s := Extend(Start(map[]), acts, s, Claim(1));
    acts, s := Extend(Start(map[]), acts, s, Recheck(1));
    assert At(s, 1, Rechecked) && Cooling(s, s.agents[1].table);
  }

  lemma {:induction false} FirstSpawns(before: seq<Action>, r: State) returns (acts: seq<Action>, s: State)
    requires Exec(Start(map[]), before) == Some(r)
    requires At(r, 0, Allowed) && r.agents[0].table == "users" && r.next == 2 && !r.closed
    requires r.cache == map[] && r.inProgress == {}
    ensures Exec(Start(map[]), acts) == Some(s)
    ensures s.cache == map[] && s.inProgress == {"users"} && s.now == r.now && s.failed == r.failed - {"users"}
    ensures At(s, 2, Running) && s.agents[2].table == "users"
    ensures 1 in r.agents ==> 1 in s.agents && s.agents[1] == r.agents[1]
  {
    acts, s := Extend(Start(map[]), before, r, Claim(0));
    acts, s := Extend(Start(map[]), acts, s, Recheck(0));
    acts, s := Extend(Start(map[]), acts, s, ClearFailure(0));
    acts, s := Extend(Start(map[]), acts, s, Spawn(0));
  }

  lemma {:induction false} BothLook() returns (acts: seq<Action>, s: State)
    ensures Exec(Start(map[]), acts) == Some(s)
    ensures s == State(false, map[], {}, map[],
                       map[0 := Agent("users", Allowed), 1 := Agent("users", Allowed)], 2, 0)
  {
    acts, s := [], Start(map[]);
    acts, s := Extend(Start(map[]), acts, s, Trigger("users"));
    acts, s := Extend(Start(map[]), acts, s, Trigger("users"));
    acts, s := Extend(Start(map[]), acts, s, LookUp(0));
    acts, s := Extend(Start(map[]), acts, s, LookUp(1));
    acts, s := Extend(Start(map[]), acts, s, CheckCooldown(0));
    acts, s := Extend(Start(map[]), acts, s, CheckCooldown(1));
  }

  lemma {:induction false} FirstFails(before: seq<Action>, r: State) returns (acts: seq<Action>, s: State)
    requires Exec(Start(map[]), before) == Some(r)
    requires At(r, 2, Running) && r.agents[2].table == "users"
    ensures Exec(Start(map[]), acts) == Some(s)
    ensures s.cache == r.cache && s.inProgress == r.inProgress - {"users"} && s.now == r.now
    ensures s.failed == r.failed["users" := FailureRecord(r.now, true)]
    ensures s.agents == r.agents[2 := r.agents[2].(place := Done)]
  {
    acts, s := Extend(Start(map[]), before, r, WriteFailure(2, true));
    acts, s := Extend(Start(map[]), acts, s, DropMarker(2));
  }

  lemma Extend(first: State, acts: seq<Action>, s: State, a: Action) returns (longer: seq<Action>, u: State)
    requires Exec(first, acts) == Some(s) && Possible(s, a)
    ensures longer == acts + [a] && u == Do(s, a) && Exec(first, longer) == Some(u)
  {
    longer, u := acts + [a], Do(s, a);
    assert longer[..|longer| - 1] == acts;
  }

  // ----- A trigger that nothing disturbs -----

  predicate WouldSpawn(s: State, table: string, hasRuntime: bool) {
    && !s.closed && table !in s.cache && hasRuntime && table !in s.inProgress
    && (table in s.failed ==> CanRetry(s.failed[table], s.now))
  }

  // Run without interruption, a trigger does what `TriggerDiscovery` says.
  lemma TriggerIsARun(s: State, table: string, hasRuntime: bool) returns (acts: seq<Action>, u: State)
    requires forall id :: id in s.agents ==> id < s.next
    ensures Exec(s, acts) == Some(u) && u.closed == s.closed && u.cache == s.cache && u.now == s.now
    ensures var spawned := WouldSpawn(s, table, hasRuntime);
            && u.inProgress == s.inProgress + (if spawned then {table} else {})
            && u.failed == (if spawned then s.failed - {table} else s.failed)
            && (spawned ==> At(u, s.next + 1, Running) && u.agents[s.next + 1].table == table)
            && (!spawned ==> At(u, s.next, Done) && u.agents == s.agents[s.next := u.agents[s.next]])
  {
    acts, u := LookedAt(s, table);
    if !At(u, s.next, Allowed) {
      return;
    }
    if !hasRuntime {
      acts, u := Extend(s, acts, u, NoRuntime(s.next));
      return;
    }
    acts, u := Extend(s, acts, u, Claim(s.next));
    if !At(u, s.next, Claimed) {
      return;
    }
    acts, u := Extend(s, acts, u, Recheck(s.next));
    acts, u := Extend(s, acts, u, ClearFailure(s.next));
    acts, u := Extend(s, acts, u, Spawn(s.next));
  }

  lemma LookedAt(s: State, table: string) returns (acts: seq<Action>, u: State)
    requires forall id :: id in s.agents ==> id < s.next
    ensures Exec(s, acts) == Some(u)
    ensures var allowed := !s.closed && table !in s.cache && (table in s.failed ==> CanRetry(s.failed[table], s.now));
            var agent := if allowed then Agent(table, Allowed) else Agent(table, Done);
            u == s.(agents := s.agents[s.next := agent], next := s.next + 1)
  {
    acts, u := [], s;
    acts, u := Extend(s, acts, u, Trigger(table));
    acts, u := Extend(s, acts, u, LookUp(s.next));
    assert u.agents == s.agents[s.next := u.agents[s.next]];
    if !s.closed && table !in s.cache {
      acts, u := Extend(s, acts, u, CheckCooldown(s.next));
      assert u.agents == s.agents[s.next := u.agents[s.next]];
    }
  }

  // ----- The task and its step -----

  function TablesOf(s: State): Tables {
    Tables(s.closed, s.cache, s.inProgress, s.failed)
  }

  // The write a deciding response leads to.
  function WriteFor(id: Id, response: Response): Action {
    match response
    case KeyFound(name) => WriteKey(id, name)
    case NoHashKey => WriteFailure(id, true)
    case PermanentError => WriteFailure(id, true)
    case TransientError => WriteFailure(id, false)
  }

  // In any interleaving a running task can make its one write, and that does to
  // the tables, as they are then, what `DiscoverWithRetry` promises.
  lemma WriteConcludes(s: State, id: Id, response: Response)
    requires At(s, id, Running)
    ensures Possible(s, WriteFor(id, response))
    ensures var t := Do(s, WriteFor(id, response));
            Concludes(TablesOf(s), TablesOf(t), s.agents[id].table, response, s.now) && At(t, id, Ending)
  {
  }

  // A key that was found is in the cache from then on, whatever else happens.
  lemma FoundKeyStays(pkInfo: map<string, string>, acts: seq<Action>, id: Id, name: string, more: seq<Action>)
    requires Exec(Start(pkInfo), acts).Some? && Possible(Exec(Start(pkInfo), acts).value, WriteKey(id, name))
    requires Exec(Do(Exec(Start(pkInfo), acts).value, WriteKey(id, name)), more).Some?
    ensures var s := Exec(Start(pkInfo), acts).value;
            var u := Exec(Do(s, WriteKey(id, name)), more).value;
            s.agents[id].table in u.cache && u.cache[s.agents[id].table] == name
  {
    ExecKeepsInv(Start(pkInfo), acts);
    var s := Exec(Start(pkInfo), acts).value;
    var written := acts + [WriteKey(id, name)];
    assert written[..|acts|] == acts;
    assert Exec(Start(pkInfo), written) == Some(Do(s, WriteKey(id, name)));
    ExecKeepsInv(Start(pkInfo), written);
    ExecKeepsInv(Do(s, WriteKey(id, name)), more);
  }

  // ----- Stopping -----

  lemma {:induction false} ClosedExactlyWhen(pkInfo: map<string, string>, acts: seq<Action>)
    requires Exec(Start(pkInfo), acts).Some?
    ensures Exec(Start(pkInfo), acts).value.closed <==> Stop in acts
  {
    if acts != [] {
      var before := acts[..|acts| - 1];
      ClosedExactlyWhen(pkInfo, before);
      assert acts == before + [acts[|acts| - 1]];
    }
  }

  // An agent that came after the stop has done no more than look.
  ghost predicate Harmless(s: State, id: Id, mark: Id) {
    id >= mark && id in s.agents ==> s.agents[id].place == Entered || s.agents[id].place == Done
  }

  lemma ClosedStep(s: State, a: Action, id: Id, mark: Id)
    requires s.closed && Possible(s, a) && mark <= s.next && Harmless(s, id, mark)
    ensures var t := Do(s, a);
            && t.closed && s.next <= t.next && Harmless(t, id, mark)
            && (At(t, id, Running) && id < mark ==> At(s, id, Running))
  {
  }

  // Once the client is stopped no discovery starts: what runs was running, and a
  // trigger that comes then ends at its first look.
  lemma {:induction false} NothingStartsAfterStop(
    pkInfo: map<string, string>, acts: seq<Action>, more: seq<Action>, id: Id)
    requires Stop in acts && Exec(Start(pkInfo), acts).Some? && Exec(Exec(Start(pkInfo), acts).value, more).Some?
    ensures var s, t := Exec(Start(pkInfo), acts).value, Exec(Exec(Start(pkInfo), acts).value, more).value;
            && t.closed && s.next <= t.next && Harmless(t, id, s.next)
            && (At(t, id, Running) && id < s.next ==> At(s, id, Running))
    decreases |more|
  {
    ClosedExactlyWhen(pkInfo, acts);
    ExecKeepsInv(Start(pkInfo), acts);
    var s := Exec(Start(pkInfo), acts).value;
    if more != [] {
      NothingStartsAfterStop(pkInfo, acts, more[..|more| - 1], id);
      ClosedStep(Exec(s, more[..|more| - 1]).value, more[|more| - 1], id, s.next);
    }
  }
}
