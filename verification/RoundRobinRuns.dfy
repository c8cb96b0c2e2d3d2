/** Any number of round-robin plans sharing one rotating counter. */
module RoundRobinRuns {
  import opened Wrappers
  import opened Sorting
  import opened Refresh
  import opened DeterministicRng
  import opened QueryPlans

  // The counter, and how many nodes all the plans have returned so far.
  datatype Shared = Shared(counter: nat, returned: nat)

  // A plan with everything it has returned and what each draw found shared;
  // its current pass starts at `start`.
  datatype Plan = Plan(used: set<Url>, drawn: seq<Url>, start: nat, found: seq<Shared>)

  const FRESH := Plan({}, [], 0, [])

  datatype System = System(shared: Shared, plans: seq<Plan>)

  datatype Action = Create | Attempt(plan: nat)

  // An attempt that finds no unused node restarts its plan; the next attempt
  // of that plan, possibly after attempts of others, then draws.
  function AttemptPlan(live: seq<Url>, shared: Shared, p: Plan): (Plan, Shared) {
    var r := RoundRobin(live, shared.counter, p.used);
    match r.0
    case Some(u) => (Drawing(p, u, shared), Shared(r.1, shared.returned + 1))
    case None => (Restarting(p), Shared(r.1, shared.returned))
  }

  function Drawing(p: Plan, u: Url, shared: Shared): Plan {
    Plan(p.used + {u}, p.drawn + [u], p.start, p.found + [shared])
  }

  function Restarting(p: Plan): Plan {
    p.(used := {}, start := |p.drawn|)
  }

  function Do(live: seq<Url>, s: System, a: Action): System {
    match a
    case Create => s.(plans := s.plans + [FRESH])
    case Attempt(i) =>
      if i >= |s.plans| then s
      else
        var r := AttemptPlan(live, s.shared, s.plans[i]);
        System(r.1, s.plans[i := r.0])
  }

  function Exec(live: seq<Url>, counter: nat, acts: seq<Action>): System {
    if acts == [] then System(Shared(counter, 0), [])
    else Do(live, Exec(live, counter, acts[..|acts| - 1]), acts[|acts| - 1])
  }

  // The nodes of `n` consecutive draws, with repetitions.
  ghost function Window(drawn: seq<Url>, k: nat, n: nat): multiset<Url>
    requires k + n <= |drawn|
  {
    multiset(drawn[k..k + n])
  }

  ghost predicate Blocks(live: seq<Url>, drawn: seq<Url>)
    requires live != []
  {
    forall k :: 0 <= k && k + |live| <= |drawn| && k % |live| == 0 ==> Window(drawn, k, |live|) == multiset(live)
  }

  ghost predicate PlanInv(live: seq<Url>, p: Plan)
    requires live != []
  {
    && p.start % |live| == 0 && p.start <= |p.drawn| <= p.start + |live|
    && p.used == Elements(p.drawn[p.start..])
    && Distinct(p.drawn[p.start..])
    && (forall u :: u in p.drawn ==> u in live)
    && Blocks(live, p.drawn)
  }

  // Distinct members of a distinct membership, as many as it has: all of it.
  lemma FullPass(live: seq<Url>, block: seq<Url>)
    requires Distinct(live) && Distinct(block) && |block| == |live|
    requires forall u :: u in block ==> u in live
    ensures multiset(block) == multiset(live)
  {
    DistinctSize(live);
    DistinctSize(block);
    SubsetOfSameSize(Elements(block), Elements(live));
    forall u ensures multiset(block)[u] == multiset(live)[u] {
      DistinctBag(block, u);
      DistinctBag(live, u);
      assert u in Elements(block) <==> u in Elements(live);
    }
  }

  lemma SubsetOfSameSize<T>(a: set<T>, b: set<T>)
    requires a <= b && |a| == |b|
    ensures a == b
  {
    assert |b - a| == 0;
  }

  lemma SameMultiple(k: nat, start: nat, n: nat)
    requires n > 0 && k % n == 0 && start % n == 0 && start < k + n && k <= start
    ensures k == start
  {
    var a, b := k / n, start / n;
    assert k == n * a && start == n * b;
    assert n * a <= n * b < n * (a + 1) by { Distribute(n, a, 1); }
    MultipleOrder(n, a, b);
  }

  lemma MultipleOrder(n: nat, a: nat, b: nat)
    requires n > 0 && n * a <= n * b < n * (a + 1)
    ensures a == b
  {
    Product(b + 1, a, n);
    Product(a + 1, b, n);
  }

  lemma NextPass(start: nat, n: nat)
    requires n > 0 && start % n == 0
    ensures (start + n) % n == 0
  {
    var q := start / n;
    Distribute(n, q, 1);
    Remainder(start + n, n, q + 1, 0);
  }

  // A live node outside the current pass leaves room in it.
  lemma PassHasRoom(live: seq<Url>, block: seq<Url>, u: Url)
    requires Distinct(live) && Distinct(block) && (forall x :: x in block ==> x in live)
    requires u in live && u !in block
    ensures |block| < |live| && Distinct(block + [u])
  {
    DistinctSize(live);
    DistinctSize(block + [u]);
    assert Elements(block + [u]) <= Elements(live);
    SubsetSize(Elements(block + [u]), Elements(live));
  }

  lemma DrawKeepsBlocks(live: seq<Url>, drawn: seq<Url>, start: nat, u: Url)
    requires live != [] && Distinct(live) && Blocks(live, drawn)
    requires start % |live| == 0 && start <= |drawn| < start + |live|
    requires Distinct(drawn[start..] + [u]) && u in live && forall x :: x in drawn ==> x in live
    ensures Blocks(live, drawn + [u])
  {
    var n, next := |live|, drawn + [u];
    forall k | 0 <= k && k + n <= |next| && k % n == 0 ensures Window(next, k, n) == multiset(live) {
      if k + n <= |drawn| {
        assert next[k..k + n] == drawn[k..k + n];
        assert Window(drawn, k, n) == multiset(live);
      } else {
        SameMultiple(k, start, n);
        var pass := drawn[start..] + [u];
        assert next[k..k + n] == pass;
        FullPass(live, pass);
      }
    }
  }

  lemma DrawKeepsPlan(live: seq<Url>, p: Plan, u: Url, shared: Shared)
    requires live != [] && Distinct(live) && PlanInv(live, p) && u in live && u !in p.used
    ensures PlanInv(live, Drawing(p, u, shared))
  {
    var block := p.drawn[p.start..];
    assert forall x :: x in block ==> x in p.drawn;
    assert u in block ==> u in Elements(block);
    PassHasRoom(live, block, u);
    DrawKeepsBlocks(live, p.drawn, p.start, u);
    assert (p.drawn + [u])[p.start..] == block + [u];
    assert Elements(block + [u]) == Elements(block) + {u};
  }

  lemma SubsetSize<T>(a: set<T>, b: set<T>)
    requires a <= b
    ensures |a| <= |b|
  {
    assert b == a + (b - a);
  }

  lemma RestartKeepsPlan(live: seq<Url>, p: Plan)
    requires live != [] && Distinct(live) && PlanInv(live, p) && forall u :: u in live ==> u in p.used
    ensures PlanInv(live, Restarting(p))
  {
    var block := p.drawn[p.start..];
    DistinctSize(live);
    DistinctSize(block);
    assert Elements(live) <= Elements(block);
    SubsetSize(Elements(live), Elements(block));
    NextPass(p.start, |live|);
  }

  lemma AttemptKeepsPlan(live: seq<Url>, shared: Shared, p: Plan)
    requires live != [] && Distinct(live) && PlanInv(live, p)
    ensures PlanInv(live, AttemptPlan(live, shared, p).0)
  {
    RoundRobinMeaning(live, shared.counter, p.used);
    var r := RoundRobin(live, shared.counter, p.used);
    if r.0.Some? {
      DrawKeepsPlan(live, p, r.0.value, shared);
    } else {
      RestartKeepsPlan(live, p);
    }
  }

  lemma {:induction false} ExecKeepsPlans(live: seq<Url>, counter: nat, acts: seq<Action>)
    requires live != [] && Distinct(live)
    ensures forall i :: 0 <= i < |Exec(live, counter, acts).plans| ==> PlanInv(live, Exec(live, counter, acts).plans[i])
  {
    if acts != [] {
      var before, a := acts[..|acts| - 1], acts[|acts| - 1];
      ExecKeepsPlans(live, counter, before);
      var s := Exec(live, counter, before);
      if a.Attempt? && a.plan < |s.plans| {
        AttemptKeepsPlan(live, s.shared, s.plans[a.plan]);
      }
    }
  }

  // However the plans are interleaved, and whatever the counter, wrapped or
  // not: each block of n draws of each plan is a permutation of membership.
  lemma EveryPassIsAPermutation(live: seq<Url>, counter: nat, acts: seq<Action>, i: nat, k: nat)
    requires live != [] && Distinct(live) && i < |Exec(live, counter, acts).plans|
    requires k % |live| == 0 && k + |live| <= |Exec(live, counter, acts).plans[i].drawn|
    ensures Window(Exec(live, counter, acts).plans[i].drawn, k, |live|) == multiset(live)
  {
    ExecKeepsPlans(live, counter, acts);
  }

  function TotalDrawn(plans: seq<Plan>): nat {
    if plans == [] then 0 else TotalDrawn(plans[..|plans| - 1]) + |plans[|plans| - 1].drawn|
  }

  lemma {:induction false} TotalAfterUpdate(plans: seq<Plan>, i: nat, p: Plan)
    requires i < |plans| && |p.drawn| >= |plans[i].drawn|
    ensures TotalDrawn(plans[i := p]) == TotalDrawn(plans) + (|p.drawn| - |plans[i].drawn|)
  {
    var n := |plans| - 1;
    if i < n {
      TotalAfterUpdate(plans[..n], i, p);
      assert plans[i := p][..n] == plans[..n][i := p];
    } else {
      assert plans[i := p][..n] == plans[..n];
    }
  }

  lemma WrapStep(x: nat, n: nat)
    requires n > 0
    ensures (x % n + 1) % n == (x + 1) % n
  {
    NextModulo(x, n);
    NextModulo(x % n, n);
    Remainder(x % n, n, 0, x % n);
  }

  // The shared counter advances exactly once for each node returned.
  lemma {:induction false} CounterCountsDraws(live: seq<Url>, counter: nat, acts: seq<Action>)
    requires counter < TWO_TO_THE_64
    ensures CounterRight(counter, Exec(live, counter, acts))
  {
    if acts == [] {
      Remainder(counter, TWO_TO_THE_64, 0, counter);
    } else {
      var before, a := acts[..|acts| - 1], acts[|acts| - 1];
      CounterCountsDraws(live, counter, before);
      CounterStep(live, counter, Exec(live, counter, before), a);
    }
  }

  // The counter has moved once per node returned, modulo 2^64.
  ghost predicate CounterRight(first: nat, s: System) {
    s.shared == Shared((first + TotalDrawn(s.plans)) % TWO_TO_THE_64, TotalDrawn(s.plans))
  }

  lemma CounterStep(live: seq<Url>, counter: nat, s: System, a: Action)
    requires CounterRight(counter, s)
    ensures CounterRight(counter, Do(live, s, a))
  {
    if a.Create? {
      assert (s.plans + [FRESH])[..|s.plans|] == s.plans;
    } else if a.plan < |s.plans| {
      var p := s.plans[a.plan];
      var r := AttemptPlan(live, s.shared, p);
      AttemptCounts(live, s.shared, p);
      TotalAfterUpdate(s.plans, a.plan, r.0);
      WrapStep(counter + TotalDrawn(s.plans), TWO_TO_THE_64);
    }
  }

  lemma AttemptCounts(live: seq<Url>, shared: Shared, p: Plan)
    requires shared.counter < TWO_TO_THE_64
    ensures var r := AttemptPlan(live, shared, p);
            var more := |r.0.drawn| - |p.drawn|;
            && (more == 0 || more == 1)
            && r.1 == if more == 0 then shared
                      else Shared((shared.counter + 1) % TWO_TO_THE_64, shared.returned + 1)
  {
    RoundRobinMeaning(live, shared.counter, p.used);
  }

  // ----- Windows that do not start a pass -----

  ghost predicate WindowsArePermutations(live: seq<Url>, drawn: seq<Url>) {
    forall k :: 0 <= k && k + |live| <= |drawn| ==> Window(drawn, k, |live|) == multiset(live)
  }

  ghost predicate Periodic(drawn: seq<Url>, n: nat) {
    forall j :: n <= j < |drawn| ==> drawn[j] == drawn[j - n]
  }

  lemma ShiftWindow(drawn: seq<Url>, k: nat, n: nat)
    requires n > 0 && k + n < |drawn|
    ensures Window(drawn, k + 1, n) + multiset{drawn[k]} == Window(drawn, k, n) + multiset{drawn[k + n]}
  {
    assert drawn[k..k + n] == [drawn[k]] + drawn[k + 1..k + n];
    assert drawn[k + 1..k + 1 + n] == drawn[k + 1..k + n] + [drawn[k + n]];
  }

  lemma {:induction false} WindowFromFirst(live: seq<Url>, drawn: seq<Url>, k: nat)
    requires live != [] && k + |live| <= |drawn| && Window(drawn, 0, |live|) == multiset(live)
    requires Periodic(drawn, |live|)
    ensures Window(drawn, k, |live|) == multiset(live)
  {
    if k > 0 {
      WindowFromFirst(live, drawn, k - 1);
      ShiftWindow(drawn, k - 1, |live|);
      Cancel(Window(drawn, k, |live|), Window(drawn, k - 1, |live|), drawn[k - 1], drawn[k - 1 + |live|]);
    }
  }

  lemma Cancel(a: multiset<Url>, b: multiset<Url>, x: Url, y: Url)
    requires a + multiset{x} == b + multiset{y}
    ensures x == y ==> a == b
    ensures a == b ==> x == y
  {
    assert forall u :: (a + multiset{x})[u] == a[u] + multiset{x}[u];
    assert forall u :: (b + multiset{y})[u] == b[u] + multiset{y}[u];
    if a == b {
      assert multiset{x}[x] == multiset{y}[x];
    }
  }

  lemma PermutedWindowsRepeat(live: seq<Url>, drawn: seq<Url>, j: nat)
    requires live != [] && WindowsArePermutations(live, drawn) && |live| <= j < |drawn|
    ensures drawn[j] == drawn[j - |live|]
  {
    var k := j - |live|;
    ShiftWindow(drawn, k, |live|);
    assert Window(drawn, k, |live|) == multiset(live) && Window(drawn, k + 1, |live|) == multiset(live);
    Cancel(Window(drawn, k + 1, |live|), Window(drawn, k, |live|), drawn[k], drawn[j]);
  }

  // Every window of n draws, aligned or not, is a permutation exactly when the
  // plan repeats itself with period n.
  lemma UnalignedWindows(live: seq<Url>, counter: nat, acts: seq<Action>, i: nat)
    requires live != [] && Distinct(live) && i < |Exec(live, counter, acts).plans|
    ensures var drawn := Exec(live, counter, acts).plans[i].drawn;
            WindowsArePermutations(live, drawn) <==> Periodic(drawn, |live|)
  {
    ExecKeepsPlans(live, counter, acts);
    var n, drawn := |live|, Exec(live, counter, acts).plans[i].drawn;
    if WindowsArePermutations(live, drawn) {
      forall j | n <= j < |drawn| ensures drawn[j] == drawn[j - n] {
        PermutedWindowsRepeat(live, drawn, j);
      }
    }
    if n <= |drawn| && Periodic(drawn, n) {
      Remainder(0, n, 0, 0);
      assert Window(drawn, 0, n) == multiset(live);
      forall k | 0 <= k && k + n <= |drawn| ensures Window(drawn, k, n) == multiset(live) {
        WindowFromFirst(live, drawn, k);
      }
    }
  }

  // Plans that share the counter need not repeat themselves: with nodes "a"
  // and "b", a second plan's draw makes the first one return "a", "b", "b".
  lemma SharedCounterBreaksThePeriod()
    ensures var acts := [Create, Create, Attempt(0), Attempt(0), Attempt(1), Attempt(0), Attempt(0)];
            var s := Exec(["a", "b"], 0, acts);
            |s.plans| == 2 && s.plans[0].drawn == ["a", "b", "b"]
  {
    var live := ["a", "b"];
    LastTwoDraws(live);
    SevenSteps(live);
  }

  lemma LastTwoDraws(live: seq<Url>)
    requires live == ["a", "b"]
    ensures var a := AttemptPlan(live, Shared(0, 0), FRESH);
            var b := AttemptPlan(live, a.1, a.0);
            var c := AttemptPlan(live, b.1, FRESH);
            var d := AttemptPlan(live, c.1, b.0);
            AttemptPlan(live, d.1, d.0).0.drawn == ["a", "b", "b"]
  {
    var b := TwoDraws(live);
    var c := DrawOf(live, 2, FRESH, "a");
    var e := DrawOf(live, 3, Restarting(b), "b");
    assert e.drawn == ["a", "b"] + ["b"];
  }

  lemma TwoDraws(live: seq<Url>) returns (b: Plan)
    requires live == ["a", "b"]
    ensures var a := AttemptPlan(live, Shared(0, 0), FRESH);
            AttemptPlan(live, a.1, a.0) == (b, Shared(2, 2))
    ensures b.drawn == ["a", "b"] && AttemptPlan(live, Shared(3, 3), b) == (Restarting(b), Shared(3, 3))
  {
    var a := DrawOf(live, 0, FRESH, "a");
    b := DrawOf(live, 1, a, "b");
    assert a.used == {"a"} && b.used == {"a", "b"};
    assert a.drawn == ["a"] && b.drawn == ["a"] + ["b"];
  }

  lemma DrawOf(live: seq<Url>, counter: nat, p: Plan, u: Url) returns (q: Plan)
    requires live != [] && counter < 4 && Cyclic(live, counter) == u && u !in p.used
    ensures q == Drawing(p, u, Shared(counter, counter))
    ensures AttemptPlan(live, Shared(counter, counter), p) == (q, Shared(counter + 1, counter + 1))
  {
    FirstIsUnused(live, counter, p.used);
    q := Drawing(p, u, Shared(counter, counter));
  }

  lemma SevenSteps(live: seq<Url>)
    ensures var acts := [Create, Create, Attempt(0), Attempt(0), Attempt(1), Attempt(0), Attempt(0)];
            var a := AttemptPlan(live, Shared(0, 0), FRESH);
            var b := AttemptPlan(live, a.1, a.0);
            var c := AttemptPlan(live, b.1, FRESH);
            var d := AttemptPlan(live, c.1, b.0);
            var e := AttemptPlan(live, d.1, d.0);
            Exec(live, 0, acts) == System(e.1, [e.0, c.0])
  {
    var acts := [Create, Create, Attempt(0), Attempt(0), Attempt(1), Attempt(0), Attempt(0)];
    assert Exec(live, 0, []) == System(Shared(0, 0), []);
    var s1 := ExecOne(live, 0, [], Create);
    var s2 := ExecOne(live, 0, [Create], Create);
    assert [] + [Create] == [Create] && [Create] + [Create] == acts[..2];
    assert s2 == System(Shared(0, 0), [FRESH, FRESH]);
    var s3 := ExecOne(live, 0, acts[..2], Attempt(0));
    assert acts[..2] + [Attempt(0)] == acts[..3];
    var s4 := ExecOne(live, 0, acts[..3], Attempt(0));
    assert acts[..3] + [Attempt(0)] == acts[..4];
    var s5 := ExecOne(live, 0, acts[..4], Attempt(1));
    assert acts[..4] + [Attempt(1)] == acts[..5];
    var s6 := ExecOne(live, 0, acts[..5], Attempt(0));
    assert acts[..5] + [Attempt(0)] == acts[..6];
    var s7 := ExecOne(live, 0, acts[..6], Attempt(0));
    assert acts[..6] + [Attempt(0)] == acts;
  }

  lemma ExecOne(live: seq<Url>, counter: nat, acts: seq<Action>, a: Action) returns (s: System)
    ensures s == Do(live, Exec(live, counter, acts), a) == Exec(live, counter, acts + [a])
  {
    assert (acts + [a])[..|acts + [a]| - 1] == acts;
    s := Do(live, Exec(live, counter, acts), a);
  }

  // ----- One plan on its own -----

  ghost predicate Cycling(live: seq<Url>, first: nat, s: System)
    requires live != []
  {
    && |s.plans| == 1 && CounterRight(first, s) && PlanInv(live, s.plans[0])
    && forall k :: 0 <= k < |s.plans[0].drawn| ==> s.plans[0].drawn[k] == Cyclic(live, first + k)
  }

  lemma StillCycling(live: seq<Url>, first: nat, s: System)
    requires live != [] && Distinct(live) && Cycling(live, first, s)
    requires first + |s.plans[0].drawn| < TWO_TO_THE_64
    ensures var t := Do(live, s, Attempt(0));
            Cycling(live, first, t) && |t.plans[0].drawn| <= |s.plans[0].drawn| + 1
  {
    OnePlanTotal(s.plans);
    AttemptKeepsPlan(live, s.shared, s.plans[0]);
    AloneStep(live, first, s.shared, s.plans[0]);
    CounterStep(live, first, s, Attempt(0));
  }

  // Alone, and short of a wrap of the counter, a plan goes round the
  // membership in its published order.
  lemma {:induction false} AloneIsCyclic(live: seq<Url>, first: nat, attempts: nat)
    requires live != [] && Distinct(live) && first + attempts <= TWO_TO_THE_64 && first < TWO_TO_THE_64
    ensures var s := Exec(live, first, Repeated(attempts));
            Cycling(live, first, s) && |s.plans[0].drawn| <= attempts
  {
    if attempts > 0 {
      var before := Repeated(attempts - 1);
      AloneIsCyclic(live, first, attempts - 1);
      StillCycling(live, first, Exec(live, first, before));
      var t := ExecOne(live, first, before, Attempt(0));
    } else {
      CreatedIsCycling(live, first);
    }
  }

  lemma CreatedIsCycling(live: seq<Url>, first: nat)
    requires live != [] && Distinct(live) && first < TWO_TO_THE_64
    ensures Exec(live, first, [Create]) == System(Shared(first, 0), [FRESH])
    ensures Cycling(live, first, Exec(live, first, [Create]))
  {
    var s := ExecOne(live, first, [], Create);
    assert [] + [Create] == [Create];
    Remainder(first, TWO_TO_THE_64, 0, first);
    OnePlanTotal([FRESH]);
    Remainder(0, |live|, 0, 0);
  }

  function Repeated(attempts: nat): seq<Action> {
    if attempts == 0 then [Create] else Repeated(attempts - 1) + [Attempt(0)]
  }

  lemma OnePlanTotal(plans: seq<Plan>)
    requires |plans| == 1
    ensures TotalDrawn(plans) == |plans[0].drawn|
  {
    assert plans[..0] == [];
  }

  lemma AloneStep(live: seq<Url>, first: nat, shared: Shared, p: Plan)
    requires live != [] && Distinct(live) && PlanInv(live, p)
    requires first + |p.drawn| < TWO_TO_THE_64 && shared.counter == (first + |p.drawn|) % TWO_TO_THE_64
    requires forall k :: 0 <= k < |p.drawn| ==> p.drawn[k] == Cyclic(live, first + k)
    ensures var q := AttemptPlan(live, shared, p).0;
            && |q.drawn| <= |p.drawn| + 1
            && forall k :: 0 <= k < |q.drawn| ==> q.drawn[k] == Cyclic(live, first + k)
  {
    var m := |p.drawn|;
    Remainder(first + m, TWO_TO_THE_64, 0, first + m);
    if RoundRobin(live, shared.counter, p.used).0.Some? {
      PassNotFull(live, shared.counter, p);
      NextIsUnused(live, first, p, Cyclic(live, first + m));
      FirstIsUnused(live, first + m, p.used);
    }
  }

  lemma PassNotFull(live: seq<Url>, counter: nat, p: Plan)
    requires live != [] && Distinct(live) && PlanInv(live, p) && counter < TWO_TO_THE_64
    requires RoundRobin(live, counter, p.used).0.Some?
    ensures p.start <= |p.drawn| < p.start + |live| && p.used == Elements(p.drawn[p.start..])
  {
    RoundRobinMeaning(live, counter, p.used);
    PassHasRoom(live, p.drawn[p.start..], RoundRobin(live, counter, p.used).0.value);
  }

  lemma NextIsUnused(live: seq<Url>, first: nat, p: Plan, u: Url)
    requires live != [] && Distinct(live) && p.start <= |p.drawn| < p.start + |live|
    requires forall k :: 0 <= k < |p.drawn| ==> p.drawn[k] == Cyclic(live, first + k)
    requires u == Cyclic(live, first + |p.drawn|)
    ensures u !in Elements(p.drawn[p.start..])
  {
    var block := p.drawn[p.start..];
    forall j | 0 <= j < |block| ensures block[j] != u {
      var k := p.start + j;
      assert block[j] == p.drawn[k] == Cyclic(live, first + k);
      DifferentResidues(first + k, first + |p.drawn|, |live|);
    }
  }

  lemma FirstIsUnused(live: seq<Url>, counter: nat, used: set<Url>)
    requires live != [] && counter < TWO_TO_THE_64 && Cyclic(live, counter) !in used
    ensures RoundRobin(live, counter, used) == (Some(Cyclic(live, counter)), (counter + 1) % TWO_TO_THE_64)
  {
    var n := |live|;
    Remainder(counter % n, n, 0, counter % n);
    assert Cyclic(live, counter % n) == Cyclic(live, counter);
  }

  lemma DifferentResidues(a: nat, b: nat, n: nat)
    requires a < b < a + n
    ensures a % n != b % n
  {
    var r := a % n;
    if r == b % n {
      assert a == n * (a / n) + r && b == n * (b / n) + r;
      Product(b / n, a / n, n);
      Product(a / n + 1, b / n, n);
      Product(a / n, 0, n);
    }
  }

  // ----- The plan object -----

  // An attempt of the model is one look of `next_node` at the shared view: the
  // same node, the same counter, and the plan remembers the node; if there was
  // none, restarting forgets what it had.
  lemma AttemptIsNext(live: seq<Url>, shared: Shared, p: Plan)
    ensures var r := Next(RoundRobinPlan(p.used), Env(live, shared.counter));
            var q := AttemptPlan(live, shared, p);
            && r.2 == q.1.counter
            && (r.0.Some? ==> q.0.drawn == p.drawn + [r.0.value] && r.1 == RoundRobinPlan(q.0.used))
            && (r.0.None? ==> q.0.drawn == p.drawn && Restarted(r.1) == RoundRobinPlan(q.0.used))
  {
  }

  // A restarting draw is one attempt that finds a node, or one that does not and
  // the attempt after it.
  lemma RestartingDrawIsAttempts(first: Env, second: Env, p: Plan, a: Shared, b: Shared)
    requires a.counter == first.counter && b.counter == second.counter
    ensures var r := NextOrRestart(RoundRobinPlan(p.used), first, second);
            var one := AttemptPlan(first.live, a, p).0;
            var two := if |one.drawn| > |p.drawn| then one else AttemptPlan(second.live, b, one).0;
            two.drawn == p.drawn + (if r.0.Some? then [r.0.value] else [])
            && (r.0.Some? ==> r.1 == RoundRobinPlan(two.used))
  {
    AttemptIsNext(first.live, a, p);
    AttemptIsNext(second.live, b, AttemptPlan(first.live, a, p).0);
  }

  // What a plan returns without restarting, the view changing between draws.
  function Nexts(p: PlanState, envs: seq<Env>): (PlanState, seq<Url>) {
    if envs == [] then (p, [])
    else
      var before := Nexts(p, envs[..|envs| - 1]);
      var r := Next(before.0, envs[|envs| - 1]);
      (r.1, before.1 + if r.0.Some? then [r.0.value] else [])
  }

  // Without a restart no node is returned twice, whatever happens to membership
  // and to the counter.
  lemma {:induction false} NoNodeTwice(envs: seq<Env>)
    ensures var r := Nexts(RoundRobinPlan({}), envs);
            Distinct(r.1) && r.0 == RoundRobinPlan(Elements(r.1))
  {
    if envs != [] {
      var n := |envs| - 1;
      NoNodeTwice(envs[..n]);
      var before := Nexts(RoundRobinPlan({}), envs[..n]);
      RoundRobinMeaning(envs[n].live, envs[n].counter, Elements(before.1));
      var r := Next(before.0, envs[n]);
      if r.0.Some? {
        assert Elements(before.1 + [r.0.value]) == Elements(before.1) + {r.0.value};
      }
    }
  }
}
