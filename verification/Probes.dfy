/** The liveness request one runtime sends to the owner of another before it
    takes discovery over, and the follow-up that asks again. */
module Probes {
  import opened Wrappers

  // Milliseconds on a clock that never goes back.
  type Instant = nat

  const SHUTDOWN_PROBE_INTERVAL: nat := 250

  // The task that looks at the owner again when the interval is over.
  datatype Recheck = Recheck(deadline: Instant, finished: bool)

  datatype Probe = Probe(
    stopped: bool,
    handoffRequired: bool,
    lastStarted: Option<Instant>,
    pending: bool,
    recheck: Option<Recheck>)

  const UNPROBED := Probe(false, false, None, false, None)

  predicate IsDue(p: Probe, now: Instant) {
    p.lastStarted.None? || now >= p.lastStarted.value + SHUTDOWN_PROBE_INTERVAL
  }

  // `should_handoff_at` as a function: the new state and the answer.
  function Check(p: Probe, now: Instant): (Probe, bool) {
    if p.stopped then (p, true)
    else if p.pending then
      var q := p.(handoffRequired := p.handoffRequired || IsDue(p, now));
      (q, q.handoffRequired)
    else if IsDue(p, now) then (p.(lastStarted := Some(now), pending := true), false)
    else (p, false)
  }

  // An answer also takes the re-check away and aborts it.
  function Acknowledge(p: Probe): Probe {
    p.(pending := false, handoffRequired := false, recheck := None)
  }

  // What an access that keeps the owner leaves behind: while a check is
  // pending, one unfinished re-check, unless the client is stopped.
  function Arm(p: Probe, clientStopped: bool): Probe {
    if !p.pending || p.lastStarted.None? || (p.recheck.Some? && !p.recheck.value.finished) then p
    else if clientStopped then p.(recheck := None)
    else p.(recheck := Some(Recheck(p.lastStarted.value + SHUTDOWN_PROBE_INTERVAL, false)))
  }

  datatype Event = Checked(now: Instant) | Armed(clientStopped: bool) | RecheckEnded | Acknowledged | Stopped

  function Apply(p: Probe, e: Event): Probe {
    match e
    case Checked(now) => Check(p, now).0
    case Armed(clientStopped) => Arm(p, clientStopped)
    case RecheckEnded => if p.recheck.Some? then p.(recheck := Some(p.recheck.value.(finished := true))) else p
    case Acknowledged => Acknowledge(p)
    case Stopped => p.(stopped := true)
  }

  function Happen(p: Probe, es: seq<Event>): Probe {
    if es == [] then p else Apply(Happen(p, es[..|es| - 1]), es[|es| - 1])
  }

  predicate HasStarted(p: Probe) {
    p.pending ==> p.lastStarted.Some?
  }

  lemma {:induction false} StaysStarted(p: Probe, es: seq<Event>)
    requires HasStarted(p)
    ensures HasStarted(Happen(p, es))
  {
    if es != [] {
      StaysStarted(p, es[..|es| - 1]);
    }
  }

  class DiscoveryRuntime {
    var stopped: bool
    var handoffRequired: bool
    var lastStarted: Option<Instant>
    var pending: bool
    var recheck: Option<Recheck>

    constructor ()
      ensures State() == UNPROBED
    {
      stopped, handoffRequired, lastStarted, pending, recheck := false, false, None, false, None;
    }

    function State(): Probe
      reads this
    {
      Probe(stopped, handoffRequired, lastStarted, pending, recheck)
    }

    method ShouldHandoffAt(now: Instant) returns (handoff: bool)
      modifies this
      ensures (State(), handoff) == Check(old(State()), now)
    {
      if stopped {
        return true;
      }
      var due := lastStarted.None? || now >= lastStarted.value + SHUTDOWN_PROBE_INTERVAL;
      if pending {
        if due {
          handoffRequired := true;
        }
        return handoffRequired;
      }
      if due {
        lastStarted := Some(now);
        pending := true;
      }
      return false;
    }

    method AcknowledgeProbe()
      modifies this
      ensures State() == Acknowledge(old(State()))
    {
      pending := false;
      handoffRequired := false;
      recheck := None;
    }

    // Others use the probe.
    method Meanwhile(es: seq<Event>)
      modifies this
      ensures State() == Happen(old(State()), es)
    {
      var p := Happen(State(), es);
      stopped, handoffRequired, lastStarted, pending, recheck :=
        p.stopped, p.handoffRequired, p.lastStarted, p.pending, p.recheck;
    }

    // `retain_discovery_owner`. It locks the probe twice; `between` is what
    // happens to it in between. Its `unwrap` cannot fail: `PendingHasStarted`.
    method RetainDiscoveryOwner(sameRuntime: bool, now: Instant, between: seq<Event>, clientStopped: bool)
      returns (retained: bool)
      requires HasStarted(State())
      modifies this
      ensures var (checked, handoff) := Check(old(State()), now);
              && (retained <==> sameRuntime || !handoff)
              && State() == if sameRuntime then old(State())
                            else if handoff then checked
                            else Arm(Happen(checked, between), clientStopped)
    {
      if sameRuntime {
        return true;
      }
      var handoff := ShouldHandoffAt(now);
      if handoff {
        return false;
      }
      StaysStarted(State(), between);
      Meanwhile(between);
      if !pending || (recheck.Some? && !recheck.value.finished) {
        return true;
      }
      var deadline := lastStarted.value + SHUTDOWN_PROBE_INTERVAL;
      recheck := if clientStopped then None else Some(Recheck(deadline, false));
      return true;
    }
  }

  // ----- Every history of checks and acknowledgements -----

  function After(es: seq<Event>): Probe {
    Happen(UNPROBED, es)
  }

  ghost predicate Unanswered(es: seq<Event>, from: nat) {
    from <= |es| && forall k :: from <= k < |es| ==> !es[k].Acknowledged?
  }

  // A check made at `i` has gone unanswered since, and a check at `j` found it
  // at least the interval old.
  ghost predicate Overdue(es: seq<Event>, i: nat, j: nat) {
    && i < j < |es| && es[i].Checked? && es[j].Checked?
    && es[j].now >= es[i].now + SHUTDOWN_PROBE_INTERVAL
    && Unanswered(es, i + 1)
  }

  ghost predicate Outstanding(es: seq<Event>, i: nat) {
    && i < |es| && es[i].Checked? && Unanswered(es, i + 1)
    && After(es).lastStarted == Some(es[i].now)
  }

  lemma {:induction false} ProbeHistory(es: seq<Event>)
    ensures After(es).pending ==> exists i :: Outstanding(es, i)
    ensures After(es).handoffRequired ==> After(es).pending && exists i, j :: Overdue(es, i, j)
  {
    if es != [] {
      var n := |es| - 1;
      var before := es[..n];
      ProbeHistory(before);
      var p, q := After(before), After(es);
      if q.pending {
        if p.pending {
          var i :| Outstanding(before, i);
          assert Outstanding(es, i);
        } else {
          assert Outstanding(es, n);
        }
      }
      if q.handoffRequired {
        if p.handoffRequired {
          var i, j :| Overdue(before, i, j);
          assert Overdue(es, i, j);
        } else {
          var i :| Outstanding(before, i);
          assert Overdue(es, i, n);
        }
      }
    }
  }

  lemma {:induction false} StoppedInHistory(es: seq<Event>)
    ensures After(es).stopped <==> Stopped in es
  {
    if es != [] {
      StoppedInHistory(es[..|es| - 1]);
      assert es == es[..|es| - 1] + [es[|es| - 1]];
    }
  }

  // An owner is given up only if its guard has run or a request to it stayed
  // unanswered for the whole interval: one that answers in time is kept.
  lemma HandoffMeansUnanswered(es: seq<Event>, now: Instant)
    requires Check(After(es), now).1
    ensures Stopped in es || exists i, j :: Overdue(es + [Checked(now)], i, j)
  {
    var all := es + [Checked(now)];
    assert all[..|all| - 1] == es;
    StoppedInHistory(es);
    if Stopped !in es {
      assert After(all).handoffRequired;
      ProbeHistory(all);
    }
  }

  ghost predicate Monotone(es: seq<Event>) {
    forall i, j :: 0 <= i < j < |es| && es[i].Checked? && es[j].Checked? ==> es[i].now <= es[j].now
  }

  lemma {:induction false} LastStartedIsPast(es: seq<Event>)
    ensures After(es).lastStarted.Some? ==> exists i :: 0 <= i < |es| && es[i] == Checked(After(es).lastStarted.value)
  {
    if es != [] {
      var before := es[..|es| - 1];
      LastStartedIsPast(before);
      if After(es).lastStarted.Some? && After(es).lastStarted == After(before).lastStarted {
        var i :| 0 <= i < |before| && before[i] == Checked(After(before).lastStarted.value);
        assert es[i] == before[i];
      } else if After(es).lastStarted.Some? {
        assert es[|es| - 1] == Checked(After(es).lastStarted.value);
      }
    }
  }

  // An owner that never answers again is given up after at most three checks,
  // each at least the interval after the one before.
  lemma SilentOwnerIsGivenUp(es: seq<Event>, a: Instant, b: Instant, c: Instant)
    requires Monotone(es + [Checked(a)])
    requires b >= a + SHUTDOWN_PROBE_INTERVAL && c >= b + SHUTDOWN_PROBE_INTERVAL
    ensures Check(After(es + [Checked(a), Checked(b)]), c).1
  {
    var ea := es + [Checked(a)];
    var eb := es + [Checked(a), Checked(b)];
    assert ea[..|ea| - 1] == es && eb[..|eb| - 1] == ea;
    LastStartedIsPast(ea);
    LastStartedIsPast(eb);
    var p := After(ea);
    if p.lastStarted.Some? {
      var i :| 0 <= i < |ea| && ea[i] == Checked(p.lastStarted.value);
      assert ea[|ea| - 1] == Checked(a);
      assert p.lastStarted.value <= a;
    }
  }

  // The deadline of a re-check is computed from a start that is there.
  lemma {:induction false} PendingHasStarted(es: seq<Event>)
    ensures After(es).pending ==> After(es).lastStarted.Some?
  {
    if es != [] {
      PendingHasStarted(es[..|es| - 1]);
    }
  }

  // ----- How often the owner is asked -----

  // The access at `i` starts a check.
  ghost predicate Starts(es: seq<Event>, i: nat) {
    i < |es| && es[i].Checked? && !After(es[..i]).pending && After(es[..i + 1]).pending
  }

  lemma HistoryStep(es: seq<Event>, i: nat)
    requires i < |es|
    ensures After(es[..i + 1]) == Apply(After(es[..i]), es[i])
  {
    assert es[..i + 1][..i] == es[..i];
  }

  // The last check that was started is the one whose time is kept.
  lemma {:induction false} LastStart(es: seq<Event>, n: nat, i: nat)
    requires Starts(es, i) && i < n <= |es|
    ensures exists j :: i <= j < n && Starts(es, j) && After(es[..n]).lastStarted == Some(es[j].now)
    decreases n
  {
    HistoryStep(es, n - 1);
    if Starts(es, n - 1) {
      assert After(es[..n]).lastStarted == Some(es[n - 1].now);
    } else {
      LastStart(es, n - 1, i);
      var j :| i <= j < n - 1 && Starts(es, j) && After(es[..n - 1]).lastStarted == Some(es[j].now);
      assert After(es[..n]).lastStarted == After(es[..n - 1]).lastStarted;
    }
  }

  // Two checks are started at least 250 ms apart, however often the owner
  // answers in between.
  lemma {:induction false} ChecksAreApart(es: seq<Event>, i: nat, j: nat)
    requires Starts(es, i) && Starts(es, j) && i < j
    ensures es[j].now >= es[i].now + 250
    decreases j
  {
    LastStart(es, j, i);
    var k :| i <= k < j && Starts(es, k) && After(es[..j]).lastStarted == Some(es[k].now);
    HistoryStep(es, j);
    if i < k {
      ChecksAreApart(es, i, k);
    }
  }

  // Within the interval an access with nothing pending leaves the probe as it is
  // and keeps the owner.
  lemma EarlyAccessDoesNothing(es: seq<Event>, i: nat, now: Instant)
    requires Starts(es, i) && now < es[i].now + 250 && !After(es).pending && Stopped !in es
    ensures After(es + [Checked(now)]) == After(es) && !Check(After(es), now).1
  {
    LastStart(es, |es|, i);
    assert es[..|es|] == es;
    var k :| i <= k < |es| && Starts(es, k) && After(es).lastStarted == Some(es[k].now);
    if i < k {
      ChecksAreApart(es, i, k);
    }
    StoppedInHistory(es);
    assert (es + [Checked(now)])[..|es|] == es;
  }

  ghost predicate Answered(es: seq<Event>, i: nat, b: nat) {
    Starts(es, i) && i < b < |es| && es[b] == Acknowledged
  }

  // What is pending was started at some access and not answered since.
  lemma {:induction false} PendingStart(es: seq<Event>, n: nat) returns (i: nat)
    requires n <= |es| && After(es[..n]).pending
    ensures i < n && Starts(es, i) && After(es[..n]).lastStarted == Some(es[i].now)
    ensures forall k :: i < k < n ==> es[k] != Acknowledged
  {
    HistoryStep(es, n - 1);
    if Starts(es, n - 1) {
      i := n - 1;
    } else {
      i := PendingStart(es, n - 1);
    }
  }

  lemma {:induction false} RequiredIsLate(es: seq<Event>, n: nat)
    requires Monotone(es) && n <= |es| && After(es[..n]).handoffRequired
    ensures After(es[..n]).pending
    ensures exists j :: 0 <= j < n && es[j].Checked? && After(es[..n]).lastStarted.Some?
                        && es[j].now >= After(es[..n]).lastStarted.value + SHUTDOWN_PROBE_INTERVAL
  {
    HistoryStep(es, n - 1);
    PendingHasStarted(es[..n - 1]);
    if After(es[..n - 1]).handoffRequired {
      RequiredIsLate(es, n - 1);
      var j :| 0 <= j < n - 1 && es[j].Checked? && After(es[..n - 1]).lastStarted.Some?
               && es[j].now >= After(es[..n - 1]).lastStarted.value + SHUTDOWN_PROBE_INTERVAL;
      assert After(es[..n]).lastStarted == After(es[..n - 1]).lastStarted;
    } else {
      assert es[n - 1].Checked?;
    }
  }

  // A demand for handoff comes when the check that is pending is an interval old.
  lemma DemandIsLate(es: seq<Event>, now: Instant)
    requires Monotone(es + [Checked(now)]) && Stopped !in es && Check(After(es), now).1
    ensures After(es).pending && After(es).lastStarted.Some?
    ensures now >= After(es).lastStarted.value + SHUTDOWN_PROBE_INTERVAL
  {
    StoppedInHistory(es);
    PendingHasStarted(es);
    if After(es).handoffRequired {
      forall i, j | 0 <= i < j < |es| && es[i].Checked? && es[j].Checked? ensures es[i].now <= es[j].now {
        assert (es + [Checked(now)])[i] == es[i] && (es + [Checked(now)])[j] == es[j];
      }
      assert es[..|es|] == es;
      RequiredIsLate(es, |es|);
      var j :| 0 <= j < |es| && es[j].Checked? && es[j].now >= After(es).lastStarted.value + SHUTDOWN_PROBE_INTERVAL;
      assert (es + [Checked(now)])[j] == es[j] && (es + [Checked(now)])[|es|] == Checked(now);
    }
  }

  // An owner that has answered a check is given up, while its guard has not run,
  // at the earliest half a second after that check was started.
  lemma AnswerBuysHalfASecond(es: seq<Event>, i: nat, b: nat, now: Instant)
    requires Answered(es, i, b) && Monotone(es + [Checked(now)]) && Stopped !in es && Check(After(es), now).1
    ensures now >= es[i].now + 500
  {
    DemandIsLate(es, now);
    assert es[..|es|] == es;
    var k := PendingStart(es, |es|);
    assert k > b;
    ChecksAreApart(es, i, k);
  }

  // ----- The follow-up -----

  // An unfinished re-check belongs to the check that is pending, and is due
  // when the interval of that check is over.
  lemma {:induction false} RecheckIsDueInTime(es: seq<Event>)
    ensures var p := After(es);
            p.recheck.Some? && !p.recheck.value.finished ==>
              && p.pending && p.lastStarted.Some?
              && p.recheck.value.deadline == p.lastStarted.value + SHUTDOWN_PROBE_INTERVAL
  {
    if es != [] {
      RecheckIsDueInTime(es[..|es| - 1]);
    }
  }

  lemma {:induction false} SilenceKeepsPending(es: seq<Event>, more: seq<Event>)
    requires After(es).pending && Acknowledged !in more
    ensures After(es + more).pending && After(es + more).lastStarted == After(es).lastStarted
  {
    if more == [] {
      assert es + more == es;
    } else {
      var n := |more| - 1;
      assert more == more[..n] + [more[n]];
      SilenceKeepsPending(es, more[..n]);
      assert (es + more)[..|es + more| - 1] == es + more[..n];
    }
  }

  // One access of another runtime is enough: while its check is pending, a
  // re-check is armed, and unless the owner answers before that is due, the
  // re-check is told to take over, whatever else happens meanwhile.
  lemma OneAccessSuffices(es: seq<Event>, more: seq<Event>, now: Instant)
    requires After(es).pending && Acknowledged !in more
    requires After(es + [Armed(false)]).lastStarted.Some?
             && now >= After(es + [Armed(false)]).lastStarted.value + SHUTDOWN_PROBE_INTERVAL
    ensures var p := After(es + [Armed(false)]);
            p.recheck == Some(Recheck(p.lastStarted.value + SHUTDOWN_PROBE_INTERVAL, false))
    ensures Check(After(es + [Armed(false)] + more), now).1
  {
    var armed := es + [Armed(false)];
    assert armed[..|armed| - 1] == es;
    PendingHasStarted(es);
    RecheckIsDueInTime(es);
    SilenceKeepsPending(armed, more);
  }
}
