/** The handoff protocol with the liveness checks that drive it: what is true of
    an owner that answers them. */
module KeptOwner {
  import opened Wrappers
  import opened Handoff
  import Probes

  // `checks`: what has happened to the probe of each registration.
  datatype Watched = Watched(h: State, checks: map<Id, seq<Probes.Event>>, now: Probes.Instant)

  datatype Move =
    | Protocol(a: Action)
    | DecideNow                       // `retain_discovery_owner` under the mutex
    | Look(id: Id)                    // the same before the mutex is taken
    | Follow(id: Id, e: Probes.Event) // arming or ending of a re-check
    | Answer(loop: Id)
    | Tick(elapsed: nat)

  function Happened(w: Watched, id: Id): seq<Probes.Event> {
    if id in w.checks then w.checks[id] else []
  }

  function Note(w: Watched, id: Id, e: Probes.Event): Watched {
    w.(checks := w.checks[id := Happened(w, id) + [e]])
  }

  // Whether the registered owner is on another runtime than the one asking.
  predicate Foreign(s: State) {
    s.lock.Deciding? && s.registration.Some? && s.registration.value in s.loops
    && s.loops[s.registration.value].runtime != s.lock.runtime
  }

  // What the check of the registered owner says; one that has gone or runs
  // here is not checked, and then it does not matter.
  function Says(w: Watched): bool {
    !Foreign(w.h) || Probes.Check(Probes.After(Happened(w, w.h.registration.value)), w.now).1
  }

  predicate Allowed(w: Watched, m: Move) {
    match m
    case Protocol(a) => Possible(w.h, a) && !a.Decide?
    case DecideNow => Possible(w.h, Decide(Says(w)))
    case Look(id) => id < w.h.nextId    // it may not have been spawned yet
    case Follow(id, e) => e.Armed? || e.RecheckEnded?
    case Answer(l) => Running(w.h, l)
    case Tick(_) => true
  }

  function Make(w: Watched, m: Move): Watched
    requires Allowed(w, m)
  {
    match m
    case Protocol(a) =>
      var next := w.(h := Do(w.h, a));
      if a.BeginEnd? then Note(next, a.loop, Probes.Stopped) else next
    case DecideNow =>
      var decided := w.(h := Do(w.h, Decide(Says(w))));
      if Foreign(w.h) then Note(decided, w.h.registration.value, Probes.Checked(w.now)) else decided
    case Look(id) => Note(w, id, Probes.Checked(w.now))
    case Follow(id, e) => Note(w, id, e)
    case Answer(l) => Note(w, l, Probes.Acknowledged)
    case Tick(elapsed) => w.(now := w.now + elapsed)
  }

  function Run(ms: seq<Move>): Option<Watched> {
    if ms == [] then Some(Watched(START, map[], 0))
    else
      match Run(ms[..|ms| - 1])
      case None => None
      case Some(w) => if Allowed(w, ms[|ms| - 1]) then Some(Make(w, ms[|ms| - 1])) else None
  }

  // ----- Owners that may be given up -----

  ghost predicate LateAt(es: seq<Probes.Event>, n: nat, i: nat, j: nat) {
    n <= |es| && Probes.Overdue(es[..n], i, j)
  }

  // Its guard has run, or at some time a check of it, not answered since, was
  // found a full interval old by a later one.
  ghost predicate GivesCause(es: seq<Probes.Event>) {
    Probes.Stopped in es || exists n: nat, i: nat, j: nat :: LateAt(es, n, i, j)
  }

  lemma CauseStays(es: seq<Probes.Event>, e: Probes.Event)
    requires GivesCause(es)
    ensures GivesCause(es + [e])
  {
    if Probes.Stopped !in es {
      var n: nat, i: nat, j: nat :| LateAt(es, n, i, j);
      assert (es + [e])[..n] == es[..n];
      assert LateAt(es + [e], n, i, j);
    }
  }

  lemma HandoffHasCause(es: seq<Probes.Event>, now: Probes.Instant)
    requires Probes.Check(Probes.After(es), now).1
    ensures GivesCause(es + [Probes.Checked(now)])
  {
    var all := es + [Probes.Checked(now)];
    Probes.HandoffMeansUnanswered(es, now);
    if Probes.Stopped !in es {
      var i: nat, j: nat :| Probes.Overdue(all, i, j);
      assert all[..|all|] == all;
      assert LateAt(all, |all|, i, j);
    }
  }

  ghost predicate Cause(w: Watched, l: Id) {
    GivesCause(Happened(w, l))
  }

  ghost predicate Watching(w: Watched) {
    && (forall l: Id :: l in w.h.loops && w.h.loops[l].status != Alive ==> Probes.Stopped in Happened(w, l))
    && (forall l: Id :: !w.h.dropped && l in w.h.loops && w.h.loops[l].aborted ==> Cause(w, l))
    && (w.h.lock.AbortingLoop? && w.h.registration.Some? ==> Cause(w, w.h.registration.value))
  }

  lemma NoteKeepsCause(w: Watched, id: Id, e: Probes.Event)
    ensures forall l: Id :: Cause(w, l) ==> Cause(Note(w, id, e), l)
    ensures forall l: Id :: Probes.Stopped in Happened(w, l) ==> Probes.Stopped in Happened(Note(w, id, e), l)
  {
    if Cause(w, id) {
      CauseStays(Happened(w, id), e);
    }
  }

  lemma NoteKeepsWatching(w: Watched, id: Id, e: Probes.Event)
    requires Watching(w)
    ensures Watching(Note(w, id, e))
  {
    NoteKeepsCause(w, id, e);
  }

  // ----- The steps -----

  // Whoever a takeover tells to abort has given cause, or had been told before.
  lemma AbortingHasCause(w: Watched)
    requires Inv(w.h) && Watching(w) && Possible(w.h, AbortLoop)
    ensures Watching(Make(w, Protocol(AbortLoop)))
  {
    var t := w.h.activeTask;
    if t.Some? && t.value in w.h.loops && w.h.loops[t.value].status == Alive && !w.h.loops[t.value].aborted {
      assert LiveLoop(w.h, t.value);
      assert w.h.registration == t;
    }
  }

  lemma ProtocolKeepsWatching(w: Watched, a: Action)
    requires Inv(w.h) && Watching(w) && Allowed(w, Protocol(a)) && !a.AbortLoop? && !a.BeginEnd?
    ensures Watching(Make(w, Protocol(a)))
  {
    if TakeoverStep(a) {
      TakeoverKeepsWatching(w, a);
    } else if AffinityStep(a) {
      AffinityKeepsWatching(w, a);
    } else {
      OtherKeepsWatching(w, a);
    }
  }

  lemma AffinityKeepsWatching(w: Watched, a: Action)
    requires Inv(w.h) && Watching(w) && Allowed(w, Protocol(a)) && AffinityStep(a)
    ensures Watching(Make(w, Protocol(a)))
  {
    assert Do(w.h, a).loops == w.h.loops && Do(w.h, a).registration == w.h.registration;
  }

  lemma TakeoverKeepsWatching(w: Watched, a: Action)
    requires Inv(w.h) && Watching(w) && Allowed(w, Protocol(a)) && TakeoverStep(a) && !a.AbortLoop?
    ensures Watching(Make(w, Protocol(a)))
  {
  }

  lemma OtherKeepsWatching(w: Watched, a: Action)
    requires Inv(w.h) && Watching(w) && Allowed(w, Protocol(a)) && !TakeoverStep(a) && !AffinityStep(a) && !a.BeginEnd?
    ensures Watching(Make(w, Protocol(a)))
  {
  }

  lemma EndingKeepsWatching(w: Watched, l: Id)
    requires Inv(w.h) && Watching(w) && Possible(w.h, BeginEnd(l))
    ensures Watching(Make(w, Protocol(BeginEnd(l))))
  {
    NoteKeepsCause(w, l, Probes.Stopped);
  }

  lemma DecidingKeepsWatching(w: Watched)
    requires Inv(w.h) && Watching(w) && Allowed(w, DecideNow)
    ensures Watching(Make(w, DecideNow))
  {
    if Foreign(w.h) {
      var r := w.h.registration.value;
      NoteKeepsCause(w, r, Probes.Checked(w.now));
      if Says(w) {
        HandoffHasCause(Happened(w, r), w.now);
      }
    }
  }

  lemma MoveKeeps(w: Watched, m: Move)
    requires Inv(w.h) && Watching(w) && Allowed(w, m)
    ensures Inv(Make(w, m).h) && Watching(Make(w, m))
  {
    match m
    case Protocol(a) =>
      StepKeepsInv(w.h, a);
      match a {
        case AbortLoop => AbortingHasCause(w);
        case BeginEnd(l) => EndingKeepsWatching(w, l);
        case _ => ProtocolKeepsWatching(w, a);
      }
    case DecideNow =>
      StepKeepsInv(w.h, Decide(Says(w)));
      DecidingKeepsWatching(w);
    case Look(id) => NoteKeepsWatching(w, id, Probes.Checked(w.now));
    case Follow(id, e) => NoteKeepsWatching(w, id, e);
    case Answer(l) => NoteKeepsWatching(w, l, Probes.Acknowledged);
    case Tick(_) =>
  }

  lemma StepKeepsInv(s: State, a: Action)
    requires Inv(s) && Possible(s, a)
    ensures Inv(Do(s, a))
  {
    if TakeoverStep(a) {
      TakeoverKeepsInv(s, a);
    } else if AffinityStep(a) {
      AffinityKeepsInv(s, a);
    } else {
      OtherKeepsInv(s, a);
    }
  }

  lemma {:induction false} RunKeeps(ms: seq<Move>)
    requires Run(ms).Some?
    ensures Inv(Run(ms).value.h) && Watching(Run(ms).value)
  {
    if ms != [] {
      var before := ms[..|ms| - 1];
      RunKeeps(before);
      MoveKeeps(Run(before).value, ms[|ms| - 1]);
    }
  }

  // ----- Every run -----

  // The check decides nothing the protocol does not allow: an owner whose
  // guard has run is always given up.
  lemma DecisionIsAlwaysPossible(ms: seq<Move>)
    requires Run(ms).Some? && Run(ms).value.h.lock.Deciding?
    ensures Allowed(Run(ms).value, DecideNow)
  {
    RunKeeps(ms);
    var w := Run(ms).value;
    if Foreign(w.h) && OwnerStopped(w.h) {
      Probes.StoppedInHistory(Happened(w, w.h.registration.value));
    }
  }

  // The states are those of the protocol.
  lemma {:induction false} IsProtocolRun(ms: seq<Move>) returns (acts: seq<Action>)
    requires Run(ms).Some?
    ensures Exec(START, acts) == Some(Run(ms).value.h)
  {
    acts := [];
    if ms != [] {
      var before, m := ms[..|ms| - 1], ms[|ms| - 1];
      var w := Run(before).value;
      acts := IsProtocolRun(before);
      var step := if m.Protocol? then [m.a] else if m.DecideNow? then [Decide(Says(w))] else [];
      if step != [] {
        assert (acts + step)[..|acts + step| - 1] == acts;
      } else {
        assert acts + step == acts;
      }
      acts := acts + step;
    }
  }

  // Over every run, a running loop that answers each check before a later one
  // finds it a full interval old is never told to abort by a takeover: until
  // the manager goes, it is live and it is the registered owner.
  lemma AnsweringOwnerIsKept(ms: seq<Move>, l: Id)
    requires Run(ms).Some?
    ensures var w := Run(ms).value;
            Running(w.h, l) && !GivesCause(Happened(w, l)) && !w.h.dropped ==>
              LiveLoop(w.h, l) && w.h.registration == Some(l)
  {
    RunKeeps(ms);
    var w := Run(ms).value;
    assert !w.h.dropped && l in w.h.loops && w.h.loops[l].aborted ==> Cause(w, l);
  }

  // ----- Owners that do not answer -----

  // What one move adds to the history of the probe of `r`.
  function NewEvents(w: Watched, m: Move, r: Id): (es: seq<Probes.Event>)
    requires Allowed(w, m)
    ensures Happened(Make(w, m), r) == Happened(w, r) + es
    ensures m != Answer(r) ==> Probes.Acknowledged !in es
  {
    match m
    case Protocol(a) => if a == BeginEnd(r) then [Probes.Stopped] else []
    case DecideNow => if Foreign(w.h) && w.h.registration.value == r then [Probes.Checked(w.now)] else []
    case Look(id) => if id == r then [Probes.Checked(w.now)] else []
    case Follow(id, e) => if id == r then [e] else []
    case Answer(l) => if l == r then [Probes.Acknowledged] else []
    case Tick(_) => []
  }

  lemma OneMoveMore(start: seq<Probes.Event>, es: seq<Probes.Event>, w: Watched, m: Move, r: Id)
    returns (more: seq<Probes.Event>)
    requires Allowed(w, m) && m != Answer(r) && Happened(w, r) == start + es && Probes.Acknowledged !in es
    ensures Happened(Make(w, m), r) == start + more && Probes.Acknowledged !in more
  {
    more := es + NewEvents(w, m, r);
    assert start + es + NewEvents(w, m, r) == start + more;
  }

  lemma RunStep(ms: seq<Move>, m: Move)
    requires Run(ms + [m]).Some?
    ensures Run(ms).Some? && Allowed(Run(ms).value, m) && Run(ms + [m]) == Some(Make(Run(ms).value, m))
  {
    assert (ms + [m])[..|ms + [m]| - 1] == ms;
  }

  lemma {:induction false} SilenceRecorded(ms: seq<Move>, later: seq<Move>, r: Id) returns (more: seq<Probes.Event>)
    requires Run(ms).Some? && Run(ms + later).Some? && Answer(r) !in later
    ensures Happened(Run(ms + later).value, r) == Happened(Run(ms).value, r) + more && Probes.Acknowledged !in more
  {
    more := [];
    if later == [] {
      assert ms + later == ms;
    } else {
      var n := |later| - 1;
      var before, m := later[..n], later[n];
      assert later == before + [m] && ms + later == ms + before + [m];
      RunStep(ms + before, m);
      more := SilenceRecorded(ms, before, r);
      more := OneMoveMore(Happened(Run(ms).value, r), more, Run(ms + before).value, m, r);
    }
  }

  lemma GivenUpIsAborted(w: Watched, r: Id)
    requires Inv(w.h) && Foreign(w.h) && w.h.registration == Some(r) && Says(w)
    ensures Allowed(w, DecideNow) && Possible(Make(w, DecideNow).h, AbortLoop)
    ensures !LiveLoop(Do(Make(w, DecideNow).h, AbortLoop), r)
  {
    assert LiveLoop(w.h, r) ==> w.h.activeTask == Some(r);
  }

  lemma {:induction false} RunPrefix(ms: seq<Move>, later: seq<Move>)
    requires Run(ms + later).Some?
    ensures Run(ms).Some?
  {
    if later == [] {
      assert ms + later == ms;
    } else {
      assert (ms + later)[..|ms + later| - 1] == ms + later[..|later| - 1];
      RunPrefix(ms, later[..|later| - 1]);
    }
  }

  // One access is enough to replace an owner that no longer answers. It arms a
  // re-check for the end of the interval; and from then on, whatever else has
  // happened, the next decision that finds this owner, on another runtime, goes
  // against it, and the takeover that follows tells its loop to abort.
  lemma SilentOwnerIsReplaced(ms: seq<Move>, later: seq<Move>, r: Id)
    requires Run(ms).Some? && Probes.After(Happened(Run(ms).value, r)).pending && Answer(r) !in later
    requires Run(ms + [Follow(r, Probes.Armed(false))] + later).Some?
    ensures var p := Probes.After(Happened(Make(Run(ms).value, Follow(r, Probes.Armed(false))), r));
            && p.lastStarted.Some?
            && p.recheck == Some(Probes.Recheck(p.lastStarted.value + Probes.SHUTDOWN_PROBE_INTERVAL, false))
            && var w := Run(ms + [Follow(r, Probes.Armed(false))] + later).value;
               Foreign(w.h) && w.h.registration == Some(r) && w.now >= p.recheck.value.deadline ==>
                 && Allowed(w, DecideNow) && Possible(Make(w, DecideNow).h, AbortLoop)
                 && !LiveLoop(Do(Make(w, DecideNow).h, AbortLoop), r)
  {
    var armed := ms + [Follow(r, Probes.Armed(false))];
    assert armed[..|armed| - 1] == ms;
    var es := Happened(Run(ms).value, r);
    var w := Run(armed + later).value;
    RunPrefix(armed, later);
    var more := SilenceRecorded(armed, later, r);
    Probes.PendingHasStarted(es);
    Probes.PendingHasStarted(es + [Probes.Armed(false)]);
    var p := Probes.After(es + [Probes.Armed(false)]);
    assert (es + [Probes.Armed(false)])[..|es|] == es;
    if w.now >= p.lastStarted.value + Probes.SHUTDOWN_PROBE_INTERVAL {
      Probes.OneAccessSuffices(es, more, w.now);
    } else {
      Probes.OneAccessSuffices(es, [], p.lastStarted.value + Probes.SHUTDOWN_PROBE_INTERVAL);
    }
    RunKeeps(armed + later);
    if Foreign(w.h) && w.h.registration == Some(r) && Says(w) {
      GivenUpIsAborted(w, r);
    }
  }
}
