/** The discovery manager's methods, each shown to be a run of the handoff
    protocol, so that what holds over every run of it holds of them. */
module DiscoveryManagers {
  import opened Wrappers
  import opened Handoff

  lemma ExecStep(s: State, acts: seq<Action>, t: State, a: Action)
    requires Exec(s, acts) == Some(t) && Possible(t, a)
    ensures Exec(s, acts + [a]) == Some(Do(t, a))
  {
    assert (acts + [a])[..|acts + [a]| - 1] == acts;
  }

  class DiscoveryManager {
    var registration: Option<Id>
    var activeTask: Option<Id>
    var affinityTask: Option<Id>
    var loops: map<Id, Loop>
    var affinities: map<Id, Affinity>
    var closed: bool
    var nextId: Id

    constructor ()
      ensures State() == START
    {
      registration, activeTask, affinityTask := None, None, None;
      loops, affinities, closed, nextId := map[], map[], false, 0;
    }

    // The state between calls, the mutex being free.
    function State(): State
      reads this
    {
      Handoff.State(Free, registration, activeTask, affinityTask, loops, affinities, closed, false, nextId, 0)
    }

    // Whether the registered loop keeps discovery, given what its probe says.
    function Retains(runtime: RuntimeId, handoff: bool): bool
      reads this
    {
      registration.Some? && registration.value in loops && (loops[registration.value].runtime == runtime || !handoff)
    }

    method AbortOldWork()
      modifies this
      ensures loops == AbortLoopIn(old(State()), old(activeTask)) && activeTask.None?
      ensures affinities == AbortAffinityIn(old(State()), old(affinityTask)) && affinityTask.None?
      ensures registration == old(registration) && closed == old(closed) && nextId == old(nextId)
    {
      if activeTask.Some? && activeTask.value in loops {
        loops := loops[activeTask.value := loops[activeTask.value].(aborted := true)];
      }
      activeTask := None;
      if affinityTask.Some? && affinityTask.value in affinities {
        affinities := affinities[affinityTask.value := affinities[affinityTask.value].(aborted := true)];
      }
      affinityTask := None;
    }

    method EnsureDiscoveryStarted(runtime: RuntimeId, handoff: bool)
      returns (started: Option<Id>, ghost acts: seq<Action>)
      requires Inv(State()) && (OwnerStopped(State()) ==> handoff)
      modifies this
      ensures Exec(old(State()), acts) == Some(State()) && Inv(State())
      ensures started.None? <==> old(closed) || old(Retains(runtime, handoff))
      ensures started.None? ==> State() == old(State())
      ensures started.Some? ==>
                && registration == activeTask == started && started.value !in old(loops)
                && started.value in loops && loops[started.value] == Loop(runtime, false, Alive)
                && (forall l: Id :: LiveLoop(State(), l) ==> l == started.value)
                && (forall t: Id :: !LiveAffinity(State(), t))
    {
      started, acts := None, [];
      ghost var s := State();
      if closed || Retains(runtime, handoff) {
        return;
      }
      AbortOldWork();
      var id := nextId;
      nextId := nextId + 1;
      registration := Some(id);
      loops := loops[id := Loop(runtime, false, Alive)];
      activeTask := Some(id);
      started := Some(id);
      ghost var spawned;
      acts, spawned := Takeover(s, runtime, handoff);
    }

    method StartAffinityRefresh(owner: Id) returns (installed: Option<Id>, ghost acts: seq<Action>)
      requires Inv(State()) && Running(State(), owner)
      modifies this
      ensures Exec(old(State()), acts) == Some(State()) && Inv(State())
      ensures installed.Some? <==>
                old(registration) == Some(owner) && old(AffinityFinished(State())) && !old(closed)
      ensures installed.Some? ==>
                && affinityTask == installed && installed.value in affinities
                && affinities[installed.value] == Affinity(owner, false, false)
                && (forall t: Id :: LiveAffinity(State(), t) ==> t == installed.value)
      ensures registration == old(registration) && loops == old(loops)
    {
      installed, acts := None, [];
      ghost var s := State();
      if registration != Some(owner) {
        acts := RefusedAffinity(s, owner);
        return;
      }
      if affinityTask.Some? && affinityTask.value in affinities && !affinities[affinityTask.value].gone {
        acts := RefusedAffinity(s, owner);
        return;
      }
      installed, acts := InstallAffinity(owner);
    }

    method InstallAffinity(owner: Id) returns (installed: Option<Id>, ghost acts: seq<Action>)
      requires Inv(State()) && Running(State(), owner)
      requires registration == Some(owner) && AffinityFinished(State())
      modifies this
      ensures Exec(old(State()), acts) == Some(State()) && Inv(State())
      ensures installed.Some? <==> !old(closed)
      ensures installed.Some? ==>
                && affinityTask == installed && installed.value in affinities
                && affinities[installed.value] == Affinity(owner, false, false)
                && (forall t: Id :: LiveAffinity(State(), t) ==> t == installed.value)
      ensures registration == old(registration) && loops == old(loops)
    {
      installed := None;
      acts := InstalledAffinity(State(), owner);
      if closed {
        affinityTask := None;
      } else {
        affinities := affinities[nextId := Affinity(owner, false, false)];
        affinityTask := Some(nextId);
        installed := affinityTask;
        nextId := nextId + 1;
      }
    }

    // `DiscoveryTaskGuard` of the loop `own`.
    method DropGuard(own: Id) returns (ghost acts: seq<Action>)
      requires Inv(State()) && Running(State(), own)
      modifies this
      ensures Exec(old(State()), acts) == Some(State()) && Inv(State())
      ensures registration == if old(registration) == Some(own) then None else old(registration)
      ensures activeTask == old(activeTask) && affinityTask == old(affinityTask) && affinities == old(affinities)
      ensures loops == old(loops)[own := old(loops)[own].(status := Cleared)]
    {
      ghost var s := State();
      loops := loops[own := loops[own].(status := Cleared)];
      registration := Swap(registration, own);
      acts := GuardRun(s, own);
    }
  }

  // ----- The runs -----

  lemma Takeover(s: State, runtime: RuntimeId, handoff: bool) returns (acts: seq<Action>, t: State)
    requires Inv(s) && s.lock.Free? && !s.dropped && !s.closed && (OwnerStopped(s) ==> handoff)
    requires !(s.registration.Some? && s.registration.value in s.loops
               && (s.loops[s.registration.value].runtime == runtime || !handoff))
    ensures Exec(s, acts) == Some(t) && Inv(t)
    ensures t == s.(loops := AbortLoopIn(s, s.activeTask)[s.nextId := Loop(runtime, false, Alive)],
                    affinities := AbortAffinityIn(s, s.affinityTask), activeTask := Some(s.nextId), affinityTask := None,
                    registration := Some(s.nextId), nextId := s.nextId + 1)
    ensures forall l: Id :: LiveLoop(t, l) ==> l == s.nextId
    ensures forall a: Id :: !LiveAffinity(t, a)
  {
    acts, t := OldWorkAborted(s, runtime, handoff);
    acts, t := Step(s, acts, t, Register);
    acts, t := Step(s, acts, t, Spawn);
    NothingInstalled(t);
    acts, t := Step(s, acts, t, Record);
  }

  lemma OldWorkAborted(s: State, runtime: RuntimeId, handoff: bool) returns (acts: seq<Action>, t: State)
    requires Inv(s) && s.lock.Free? && !s.dropped && (OwnerStopped(s) ==> handoff)
    requires !(s.registration.Some? && s.registration.value in s.loops
               && (s.loops[s.registration.value].runtime == runtime || !handoff))
    ensures Exec(s, acts) == Some(t) && Inv(t)
    ensures t == s.(loops := AbortLoopIn(s, s.activeTask), affinities := AbortAffinityIn(s, s.affinityTask),
                    activeTask := None, affinityTask := None, lock := Registering(runtime))
  {
    acts, t := [], s;
    acts, t := Step(s, acts, t, Ensure(runtime));
    acts, t := Step(s, acts, t, Decide(handoff));
    acts, t := Step(s, acts, t, AbortLoop);
    acts, t := Step(s, acts, t, AbortAffinity);
  }

  lemma RefusedAffinity(s: State, owner: Id) returns (acts: seq<Action>)
    requires Inv(s) && s.lock.Free? && !s.dropped && Running(s, owner)
    requires s.registration != Some(owner) || !AffinityFinished(s)
    ensures Exec(s, acts) == Some(s)
  {
    var t := s;
    acts := [];
    acts, t := Step(s, acts, t, AskAffinity(owner));
    acts, t := Step(s, acts, t, CheckAffinity);
  }

  lemma InstalledAffinity(s: State, owner: Id) returns (acts: seq<Action>)
    requires Inv(s) && s.lock.Free? && !s.dropped && Running(s, owner)
    requires s.registration == Some(owner) && AffinityFinished(s)
    ensures var t := if s.closed then s.(affinityTask := None)
                     else s.(affinities := s.affinities[s.nextId := Affinity(owner, false, false)],
                             affinityTask := Some(s.nextId), nextId := s.nextId + 1);
            Exec(s, acts) == Some(t) && Inv(t) && forall a: Id :: LiveAffinity(t, a) ==> a == s.nextId
  {
    var t: State;
    acts, t := SpawnedAffinity(s, owner);
    acts, t := Step(s, acts, t, RecordAffinityTask);
  }

  lemma SpawnedAffinity(s: State, owner: Id) returns (acts: seq<Action>, t: State)
    requires Inv(s) && s.lock.Free? && !s.dropped && Running(s, owner)
    requires s.registration == Some(owner) && AffinityFinished(s)
    ensures Exec(s, acts) == Some(t) && Inv(t)
    ensures t == if s.closed then s.(lock := RecordingAffinity(owner, None))
                 else s.(affinities := s.affinities[s.nextId := Affinity(owner, false, false)], nextId := s.nextId + 1,
                         lock := RecordingAffinity(owner, Some(s.nextId)))
    ensures forall a: Id :: LiveAffinity(t, a) ==> a == s.nextId
  {
    acts, t := AskedAffinity(s, owner);
    NothingInstalled(t);
    acts, t := Step(s, acts, t, SpawnAffinity);
  }

  lemma AskedAffinity(s: State, owner: Id) returns (acts: seq<Action>, t: State)
    requires Inv(s) && s.lock.Free? && !s.dropped && Running(s, owner)
    requires s.registration == Some(owner) && AffinityFinished(s)
    ensures Exec(s, acts) == Some(t) && Inv(t) && t == s.(lock := Installing(owner))
  {
    acts, t := [], s;
    acts, t := Step(s, acts, t, AskAffinity(owner));
    acts, t := Step(s, acts, t, CheckAffinity);
  }

  lemma NothingInstalled(t: State)
    requires Inv(t) && (t.lock.Installing? || t.lock.Recording?)
    ensures forall a: Id :: !LiveAffinity(t, a)
    ensures t.lock.Recording? && t.lock.admitted ==> forall l: Id :: LiveLoop(t, l) ==> l == t.lock.id
  {
  }

  lemma GuardRun(s: State, own: Id) returns (acts: seq<Action>)
    requires Inv(s) && s.lock.Free? && !s.dropped && Running(s, own)
    ensures var t := s.(loops := s.loops[own := s.loops[own].(status := Cleared)],
                        registration := Swap(s.registration, own));
            Exec(s, acts) == Some(t) && Inv(t)
  {
    var t := s;
    acts := [];
    acts, t := Step(s, acts, t, BeginEnd(own));
    acts, t := Step(s, acts, t, GuardSwap(own));
    assert t.loops == s.loops[own := s.loops[own].(status := Cleared)];
  }

  lemma Step(s: State, acts: seq<Action>, t: State, a: Action) returns (longer: seq<Action>, u: State)
    requires Exec(s, acts) == Some(t) && Possible(t, a) && Inv(t)
    ensures u == Do(t, a) && Exec(s, longer) == Some(u) && Inv(u)
  {
    longer, u := acts + [a], Do(t, a);
    ExecStep(s, acts, t, a);
    if TakeoverStep(a) {
      TakeoverKeepsInv(t, a);
    } else if AffinityStep(a) {
      AffinityKeepsInv(t, a);
    } else {
      OtherKeepsInv(t, a);
    }
  }
}
