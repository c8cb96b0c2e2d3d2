/** When a plan that shares the rotating counter with others still goes round
    the membership the same way in every pass. */
module SharedCounters {
  import opened Wrappers
  import opened Sorting
  import opened Refresh
  import opened DeterministicRng
  import opened QueryPlans
  import opened RoundRobinRuns

  // ----- What one draw returns -----

  // The node `d` places after the one the counter stands at.
  function Onward(live: seq<Url>, counter: nat, d: nat): Url
    requires live != []
  {
    Cyclic(live, counter + d)
  }

  // From the counter up to `u`, every node is in `used`.
  ghost predicate LeadsTo(live: seq<Url>, counter: nat, used: set<Url>, u: Url)
    requires live != []
  {
    exists d: nat :: ReachesAt(live, counter, used, u, d)
  }

  ghost predicate ReachesAt(live: seq<Url>, counter: nat, used: set<Url>, u: Url, d: nat)
    requires live != []
  {
    d < |live| && Onward(live, counter, d) == u && forall e: nat :: e < d ==> Onward(live, counter, e) in used
  }

  lemma {:induction false} FirstUnusedFrom(live: seq<Url>, start: nat, used: set<Url>, i: nat, u: Url)
    requires live != [] && i <= |live| && u !in used && forall e: nat :: e < i ==> Onward(live, start, e) in used
    ensures FirstUnused(live, start, used, i) == Some(u) <==> LeadsTo(live, start, used, u)
    decreases |live| - i
  {
    assert forall d: nat :: ReachesAt(live, start, used, u, d) ==> i <= d;
    if i < |live| {
      var v := Onward(live, start, i);
      assert v == Cyclic(live, start + i);
      if v in used {
        FirstUnusedFrom(live, start, used, i + 1, u);
      } else if v == u {
        assert ReachesAt(live, start, used, u, i);
      } else {
        assert forall d: nat :: ReachesAt(live, start, used, u, d) ==> d <= i;
      }
    }
  }

  lemma SamePlaces(live: seq<Url>, a: nat, b: nat, used: set<Url>, u: Url)
    requires live != [] && a % |live| == b % |live|
    ensures LeadsTo(live, a, used, u) <==> LeadsTo(live, b, used, u)
  {
    forall d: nat ensures Onward(live, a, d) == Onward(live, b, d) {
      Congruent(a, b, d, |live|);
    }
    assert forall d: nat :: ReachesAt(live, a, used, u, d) <==> ReachesAt(live, b, used, u, d);
  }

  lemma Congruent(a: nat, b: nat, d: nat, n: nat)
    requires n > 0 && a % n == b % n
    ensures (a + d) % n == (b + d) % n
  {
    var r := (a % n + d) % n;
    var q := (a % n + d) / n;
    assert a % n + d == n * q + r;
    Distribute(n, a / n, q);
    Distribute(n, b / n, q);
    Remainder(a + d, n, a / n + q, r);
    Remainder(b + d, n, b / n + q, r);
  }

  // A draw returns `u` exactly when `u` is unused and every place from the
  // counter up to it is used.
  lemma DrawnExactlyWhen(live: seq<Url>, counter: nat, used: set<Url>, u: Url)
    requires live != []
    ensures FirstUnused(live, counter % |live|, used, 0) == Some(u) <==> u !in used && LeadsTo(live, counter, used, u)
  {
    var n := |live|;
    FirstUnusedMeaning(live, counter % n, used, 0, 0);
    Remainder(counter % n, n, 0, counter % n);
    SamePlaces(live, counter % n, counter, used, u);
    if u !in used {
      FirstUnusedFrom(live, counter % n, used, 0, u);
    }
  }

  // ----- The history of a plan -----

  // What the pass of draw `k` has used before it.
  ghost function Earlier(drawn: seq<Url>, k: nat, n: nat): set<Url>
    requires k <= |drawn| && n > 0
  {
    Elements(drawn[k - k % n..k])
  }

  ghost predicate Chosen(live: seq<Url>, p: Plan, k: nat)
    requires live != []
  {
    && k < |p.drawn| == |p.found|
    && p.drawn[k] !in Earlier(p.drawn, k, |live|)
    && LeadsTo(live, p.found[k].counter, Earlier(p.drawn, k, |live|), p.drawn[k])
  }

  // The counter moves once per node returned, and `k` of those before draw
  // `k` are the plan's own.
  ghost predicate Counted(first: nat, p: Plan, k: nat) {
    && k < |p.found| && p.found[k].counter == (first + p.found[k].returned) % TWO_TO_THE_64
    && k <= p.found[k].returned
  }

  ghost predicate History(live: seq<Url>, first: nat, p: Plan)
    requires live != []
  {
    && |p.found| == |p.drawn|
    && forall k: nat :: k < |p.drawn| ==> Chosen(live, p, k) && Counted(first, p, k)
  }

  lemma PassStartIs(m: nat, start: nat, n: nat)
    requires n > 0 && start % n == 0 && start <= m < start + n
    ensures m - m % n == start
  {
    Remainder(m, n, start / n, m - start);
  }

  lemma SameEarlier(drawn: seq<Url>, longer: seq<Url>, k: nat, n: nat)
    requires n > 0 && k <= |drawn| && drawn <= longer
    ensures Earlier(drawn, k, n) == Earlier(longer, k, n)
  {
    var start := k - k % n;
    assert 0 <= start <= k;
    assert longer[start..k] == drawn[start..k];
  }

  lemma OlderDrawsKept(live: seq<Url>, first: nat, p: Plan, q: Plan, k: nat)
    requires live != [] && Chosen(live, p, k) && Counted(first, p, k)
    requires p.drawn <= q.drawn && p.found <= q.found && |q.drawn| == |q.found|
    ensures Chosen(live, q, k) && Counted(first, q, k)
  {
    SameEarlier(p.drawn, q.drawn, k, |live|);
  }

  lemma RoomForDraw(live: seq<Url>, p: Plan, counter: nat, u: Url)
    requires live != [] && Distinct(live) && PlanInv(live, p) && RoundRobin(live, counter, p.used).0 == Some(u)
    ensures |p.drawn| < p.start + |live| && u !in p.used
  {
    var block := p.drawn[p.start..];
    RoundRobinMeaning(live, counter, p.used);
    assert forall x :: x in block ==> x in p.drawn;
    assert u in block <==> u in Elements(block);
    PassHasRoom(live, block, u);
  }

  lemma DrawKeepsHistory(live: seq<Url>, first: nat, p: Plan, u: Url, shared: Shared)
    requires live != [] && Distinct(live) && PlanInv(live, p) && History(live, first, p)
    requires RoundRobin(live, shared.counter, p.used).0 == Some(u)
    requires shared.counter == (first + shared.returned) % TWO_TO_THE_64 && |p.drawn| <= shared.returned
    ensures History(live, first, Drawing(p, u, shared))
  {
    var q, m := Drawing(p, u, shared), |p.drawn|;
    RoomForDraw(live, p, shared.counter, u);
    PassStartIs(m, p.start, |live|);
    assert q.drawn[p.start..m] == p.drawn[p.start..];
    DrawnExactlyWhen(live, shared.counter, p.used, u);
    assert Chosen(live, q, m) && Counted(first, q, m);
    forall k: nat | k < m ensures Chosen(live, q, k) && Counted(first, q, k) {
      assert Chosen(live, p, k) && Counted(first, p, k);
      OlderDrawsKept(live, first, p, q, k);
    }
  }

  lemma AttemptKeepsHistory(live: seq<Url>, first: nat, p: Plan, shared: Shared)
    requires live != [] && Distinct(live) && PlanInv(live, p) && History(live, first, p)
    requires shared.counter == (first + shared.returned) % TWO_TO_THE_64 && |p.drawn| <= shared.returned
    ensures History(live, first, AttemptPlan(live, shared, p).0)
  {
    var r := RoundRobin(live, shared.counter, p.used);
    if r.0.Some? {
      DrawKeepsHistory(live, first, p, r.0.value, shared);
    } else {
      var q := Restarting(p);
      forall k: nat | k < |q.drawn| ensures Chosen(live, q, k) && Counted(first, q, k) {
        assert Chosen(live, p, k) && Counted(first, p, k);
        OlderDrawsKept(live, first, p, q, k);
      }
    }
  }

  lemma {:induction false} OwnWithinTotal(plans: seq<Plan>, i: nat)
    requires i < |plans|
    ensures |plans[i].drawn| <= TotalDrawn(plans)
  {
    var n := |plans| - 1;
    if i < n {
      OwnWithinTotal(plans[..n], i);
    }
  }

  ghost predicate Histories(live: seq<Url>, first: nat, s: System)
    requires live != []
  {
    forall i :: 0 <= i < |s.plans| ==> History(live, first, s.plans[i])
  }

  lemma StepKeepsHistories(live: seq<Url>, first: nat, s: System, a: Action)
    requires live != [] && Distinct(live) && Histories(live, first, s) && CounterRight(first, s)
    requires forall i :: 0 <= i < |s.plans| ==> PlanInv(live, s.plans[i])
    ensures Histories(live, first, Do(live, s, a))
  {
    if a.Attempt? && a.plan < |s.plans| {
      OwnWithinTotal(s.plans, a.plan);
      AttemptKeepsHistory(live, first, s.plans[a.plan], s.shared);
    }
  }

  lemma {:induction false} ExecKeepsHistory(live: seq<Url>, first: nat, acts: seq<Action>)
    requires live != [] && Distinct(live) && first < TWO_TO_THE_64
    ensures Histories(live, first, Exec(live, first, acts))
  {
    if acts != [] {
      var before, a := acts[..|acts| - 1], acts[|acts| - 1];
      ExecKeepsHistory(live, first, before);
      ExecKeepsPlans(live, first, before);
      CounterCountsDraws(live, first, before);
      StepKeepsHistories(live, first, Exec(live, first, before), a);
    }
  }

  // ----- When a plan repeats itself -----

  // From where the counter stands, the rest of the pass goes on as the first
  // pass did after `r` draws: it stands at the node drawn then, or before it
  // with nothing but nodes of this pass in between.
  ghost predicate OnTrack(live: seq<Url>, pass: seq<Url>, counter: nat, r: nat)
    requires live != []
  {
    r < |pass| && LeadsTo(live, counter, Elements(pass[..r]), pass[r])
  }

  // The counter is on track at every draw after the first pass.
  ghost predicate Scheduled(live: seq<Url>, pass: seq<Url>, found: seq<Shared>)
    requires live != []
  {
    forall j: nat :: |live| <= j < |found| ==> OnTrack(live, pass, found[j].counter, j % |live|)
  }

  lemma {:induction false} PeriodicAt(drawn: seq<Url>, n: nat, j: nat)
    requires 0 < n <= |drawn| && Periodic(drawn, n) && j < |drawn|
    ensures drawn[j] == drawn[j % n]
  {
    if j >= n {
      PeriodicAt(drawn, n, j - n);
      BackOnePass(j, n);
    } else {
      Remainder(j, n, 0, j);
    }
  }

  lemma BackOnePass(j: nat, n: nat)
    requires 0 < n <= j
    ensures (j - n) % n == j % n
  {
    assert j == n * (j / n) + j % n;
    Distribute(n, (j / n) - 1, 1);
    assert j / n >= 1;
    Remainder(j - n, n, j / n - 1, j % n);
  }

  // If everything before `j` repeats the first pass, so does what the pass of
  // `j` has used.
  lemma PassSoFar(drawn: seq<Url>, n: nat, j: nat)
    requires 0 < n <= |drawn| && j <= |drawn| && forall k: nat :: k < j ==> drawn[k] == drawn[k % n]
    ensures j % n <= j && drawn[j - j % n..j] == drawn[..j % n]
  {
    var r := j % n;
    assert j == n * (j / n) + r;
    forall i | 0 <= i < r ensures drawn[j - r + i] == drawn[i] {
      Remainder(j - r + i, n, j / n, i);
    }
  }

  lemma PeriodicIsScheduled(live: seq<Url>, first: nat, p: Plan)
    requires live != [] && History(live, first, p) && |live| <= |p.drawn| && Periodic(p.drawn, |live|)
    ensures Scheduled(live, p.drawn[..|live|], p.found)
  {
    var n, pass := |live|, p.drawn[..|live|];
    forall j: nat | n <= j < |p.found| ensures OnTrack(live, pass, p.found[j].counter, j % n) {
      forall k: nat | k < j ensures p.drawn[k] == p.drawn[k % n] {
        PeriodicAt(p.drawn, n, k);
      }
      PassSoFar(p.drawn, n, j);
      PeriodicAt(p.drawn, n, j);
      assert Chosen(live, p, j);
      assert pass[..j % n] == p.drawn[..j % n];
    }
  }

  lemma {:induction false} ScheduledAt(live: seq<Url>, first: nat, p: Plan, j: nat)
    requires live != [] && History(live, first, p) && |live| <= |p.drawn| && j <= |p.drawn|
    requires Scheduled(live, p.drawn[..|live|], p.found)
    ensures forall k: nat :: k < j ==> p.drawn[k] == p.drawn[k % |live|]
  {
    if j > 0 {
      var n, m, pass := |live|, j - 1, p.drawn[..|live|];
      ScheduledAt(live, first, p, m);
      if m < n {
        Remainder(m, n, 0, m);
      } else {
        var r := m % n;
        PassSoFar(p.drawn, n, m);
        assert OnTrack(live, pass, p.found[m].counter, r);
        assert pass[..r] == p.drawn[..r];
        var used := Elements(pass[..r]);
        assert Chosen(live, p, m) && Chosen(live, p, r);
        Remainder(r, n, 0, r);
        assert Earlier(p.drawn, r, n) == used;
        DrawnExactlyWhen(live, p.found[m].counter, used, p.drawn[m]);
        DrawnExactlyWhen(live, p.found[m].counter, used, pass[r]);
      }
    }
  }

  lemma ScheduledIsPeriodic(live: seq<Url>, first: nat, p: Plan)
    requires live != [] && History(live, first, p) && |live| <= |p.drawn|
    requires Scheduled(live, p.drawn[..|live|], p.found)
    ensures Periodic(p.drawn, |live|)
  {
    var n := |live|;
    ScheduledAt(live, first, p, |p.drawn|);
    forall j | n <= j < |p.drawn| ensures p.drawn[j] == p.drawn[j - n] {
      BackOnePass(j, n);
    }
  }

  // The pass of the next draw has used what the first pass had by then.
  lemma UsedSoFar(live: seq<Url>, first: nat, p: Plan)
    requires live != [] && PlanInv(live, p) && History(live, first, p)
    requires |live| <= |p.drawn| < p.start + |live| && Periodic(p.drawn, |live|)
    ensures p.used == Elements(p.drawn[..|p.drawn| % |live|])
    ensures var r := |p.drawn| % |live|; p.drawn[r] !in p.used && p.drawn[|p.drawn| - |live|] == p.drawn[r]
  {
    var m, n := |p.drawn|, |live|;
    var r := m % n;
    PassStartIs(m, p.start, n);
    forall k: nat | k < m ensures p.drawn[k] == p.drawn[k % n] {
      PeriodicAt(p.drawn, n, k);
    }
    PassSoFar(p.drawn, n, m);
    assert p.drawn[p.start..] == p.drawn[m - r..m];
    assert Chosen(live, p, r);
    Remainder(r, n, 0, r);
    assert p.drawn[0..r] == p.drawn[..r];
    BackOnePass(m, n);
  }

  lemma NextDraw(live: seq<Url>, first: nat, p: Plan, shared: Shared, u: Url)
    requires live != [] && Distinct(live) && PlanInv(live, p) && History(live, first, p)
    requires |live| <= |p.drawn| && Periodic(p.drawn, |live|)
    requires RoundRobin(live, shared.counter, p.used).0 == Some(u)
    ensures Periodic(p.drawn + [u], |live|)
       <==> OnTrack(live, p.drawn[..|live|], shared.counter, |p.drawn| % |live|)
  {
    var n, r := |live|, |p.drawn| % |live|;
    RoomForDraw(live, p, shared.counter, u);
    UsedSoFar(live, first, p);
    assert p.drawn[..n][..r] == p.drawn[..r];
    DrawnExactlyWhen(live, shared.counter, p.used, p.drawn[r]);
    OneMorePeriodic(p.drawn, u, n);
  }

  // What the counter decides before a draw: a plan that has repeated itself so
  // far repeats itself once more exactly when the counter is on track.
  lemma NextDrawRepeatsExactlyWhen(live: seq<Url>, counter: nat, acts: seq<Action>, i: nat)
    requires live != [] && Distinct(live) && counter < TWO_TO_THE_64 && i < |Exec(live, counter, acts).plans|
    requires var p := Exec(live, counter, acts).plans[i];
             |live| <= |p.drawn| && Periodic(p.drawn, |live|)
    ensures var s := Exec(live, counter, acts);
            var p, q, n := s.plans[i], Do(live, s, Attempt(i)).plans[i], |live|;
            |q.drawn| > |p.drawn| ==>
              (Periodic(q.drawn, n) <==> OnTrack(live, p.drawn[..n], s.shared.counter, |p.drawn| % n))
  {
    ExecKeepsHistory(live, counter, acts);
    ExecKeepsPlans(live, counter, acts);
    var s := Exec(live, counter, acts);
    var r := RoundRobin(live, s.shared.counter, s.plans[i].used);
    if r.0.Some? {
      NextDraw(live, counter, s.plans[i], s.shared, r.0.value);
    }
  }

  lemma OneMorePeriodic(drawn: seq<Url>, u: Url, n: nat)
    requires 0 < n <= |drawn| && Periodic(drawn, n)
    ensures Periodic(drawn + [u], n) <==> u == drawn[|drawn| - n]
  {
    var longer, m := drawn + [u], |drawn|;
    assert longer[m] == u && longer[m - n] == drawn[m - n];
    forall j | n <= j < m ensures longer[j] == longer[j - n] {
      assert drawn[j] == drawn[j - n];
    }
  }

  // However the plans are interleaved, a plan repeats itself, and then every
  // window of n draws is a permutation of membership, exactly when the counter
  // is on track at each of its draws after its first pass.
  lemma RepeatsExactlyWhenOnTrack(live: seq<Url>, counter: nat, acts: seq<Action>, i: nat)
    requires live != [] && Distinct(live) && counter < TWO_TO_THE_64 && i < |Exec(live, counter, acts).plans|
    ensures var p := Exec(live, counter, acts).plans[i];
            var onTrack := |live| <= |p.drawn| ==> Scheduled(live, p.drawn[..|live|], p.found);
            && (Periodic(p.drawn, |live|) <==> onTrack)
            && (WindowsArePermutations(live, p.drawn) <==> onTrack)
  {
    ExecKeepsHistory(live, counter, acts);
    UnalignedWindows(live, counter, acts, i);
    var p := Exec(live, counter, acts).plans[i];
    if |live| <= |p.drawn| {
      if Periodic(p.drawn, |live|) {
        PeriodicIsScheduled(live, counter, p);
      }
      if Scheduled(live, p.drawn[..|live|], p.found) {
        ScheduledIsPeriodic(live, counter, p);
      }
    }
  }

  // ----- Schedules that keep a plan on track -----

  // How many nodes the other plans had returned before draw `k`.
  function OthersBefore(p: Plan, k: nat): int
    requires k < |p.found|
  {
    p.found[k].returned - k
  }

  // Between a draw and the one a pass earlier, the others return a multiple of n.
  ghost predicate OthersInStep(p: Plan, n: nat)
    requires n > 0
  {
    forall j: nat :: n <= j < |p.found| ==> (OthersBefore(p, j) - OthersBefore(p, j - n)) % n == 0
  }

  // The counter does not wrap before the plan's draws, or a wrap does not
  // disturb the rotation.
  predicate WrapIsHarmless(first: nat, p: Plan, n: nat)
    requires n > 0
  {
    TWO_TO_THE_64 % n == 0 || forall k :: 0 <= k < |p.found| ==> first + p.found[k].returned < TWO_TO_THE_64
  }

  lemma ResidueOfWrapped(x: nat, m: nat, n: nat)
    requires m > 0 && n > 0 && (m % n == 0 || x < m)
    ensures x % m % n == x % n
  {
    if x < m {
      Remainder(x, m, 0, x);
    } else {
      assert m == n * (m / n);
      NestedResidue(x, n, m / n, x / m, x % m);
    }
  }

  lemma NestedResidue(x: nat, n: nat, d: nat, q: nat, r: nat)
    requires n > 0 && x == (n * d) * q + r
    ensures r % n == x % n
  {
    Associate(n, d, q);
    var c := r / n;
    assert r == n * c + r % n;
    Distribute(n, d * q, c);
    Remainder(x, n, d * q + c, r % n);
  }

  lemma Associate(a: nat, b: nat, c: nat)
    ensures (a * b) * c == a * (b * c)
  {
  }

  lemma EqualResidues(a: nat, b: nat, n: nat)
    requires n > 0 && a <= b && (b - a) % n == 0
    ensures a % n == b % n
  {
    var q := (b - a) / n;
    assert b - a == n * q;
    assert a == n * (a / n) + a % n;
    Distribute(n, a / n, q);
    Remainder(b, n, a / n + q, a % n);
  }

  lemma {:induction false} CountersRepeat(live: seq<Url>, first: nat, p: Plan, j: nat)
    requires live != [] && History(live, first, p) && j < |p.found|
    requires OthersInStep(p, |live|) && WrapIsHarmless(first, p, |live|)
    ensures j % |live| < |p.found| && p.found[j].counter % |live| == p.found[j % |live|].counter % |live|
  {
    var n := |live|;
    if j < n {
      Remainder(j, n, 0, j);
    } else {
      CountersRepeat(live, first, p, j - n);
      BackOnePass(j, n);
      assert Counted(first, p, j) && Counted(first, p, j - n);
      var a, b := first + p.found[j - n].returned, first + p.found[j].returned;
      assert (OthersBefore(p, j) - OthersBefore(p, j - n)) % n == 0;
      ShiftByPass(b - a, n);
      if a <= b {
        EqualResidues(a, b, n);
      } else {
        NegatedMultiple(b - a, n);
        EqualResidues(b, a, n);
      }
      ResidueOfWrapped(a, TWO_TO_THE_64, n);
      ResidueOfWrapped(b, TWO_TO_THE_64, n);
    }
  }

  lemma ShiftByPass(d: int, n: nat)
    requires n > 0 && (d - n) % n == 0
    ensures d % n == 0
  {
    var q := (d - n) / n;
    assert d - n == n * q;
    assert d == n * (q + 1);
    MultipleHasNoRest(q + 1, n);
  }

  lemma MultipleHasNoRest(q: int, n: nat)
    requires n > 0
    ensures (n * q) % n == 0
  {
    var r, k := (n * q) % n, (n * q) / n;
    assert n * q == n * k + r;
    assert r == n * (q - k);
    Multiple(n, q - k);
  }

  lemma Multiple(n: nat, x: int)
    ensures x >= 1 ==> n * x >= n
    ensures x <= -1 ==> n * x + n <= 0
  {
  }

  lemma NegatedMultiple(d: int, n: nat)
    requires n > 0 && d % n == 0
    ensures (-d) % n == 0
  {
    var q := d / n;
    assert d == n * q;
    assert -d == n * (-q);
    MultipleHasNoRest(-q, n);
  }

  // A plan goes round membership the same way in every pass if, from each of
  // its draws to the one a pass later, the other plans together return a
  // multiple of n nodes. A plan alone is the case of no others.
  lemma InStepIsPeriodic(live: seq<Url>, counter: nat, acts: seq<Action>, i: nat)
    requires live != [] && Distinct(live) && counter < TWO_TO_THE_64 && i < |Exec(live, counter, acts).plans|
    requires var p := Exec(live, counter, acts).plans[i];
             OthersInStep(p, |live|) && WrapIsHarmless(counter, p, |live|)
    ensures Periodic(Exec(live, counter, acts).plans[i].drawn, |live|)
  {
    ExecKeepsHistory(live, counter, acts);
    var n, p := |live|, Exec(live, counter, acts).plans[i];
    if n <= |p.drawn| {
      var pass := p.drawn[..n];
      forall j: nat | n <= j < |p.found| ensures OnTrack(live, pass, p.found[j].counter, j % n) {
        var r := j % n;
        CountersRepeat(live, counter, p, j);
        assert Chosen(live, p, r);
        Remainder(r, n, 0, r);
        assert pass[..r] == p.drawn[0..r];
        SamePlaces(live, p.found[j].counter, p.found[r].counter, Elements(pass[..r]), pass[r]);
      }
      ScheduledIsPeriodic(live, counter, p);
    }
  }
}
