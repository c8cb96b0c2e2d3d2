/** Query plans: the order in which one request tries the nodes. */
module QueryPlans {
  import opened Wrappers
  import Text
  import opened Sorting
  import opened Refresh
  import opened DeterministicRng

  // ----- Round robin -----

  function Cyclic(live: seq<Url>, k: nat): (u: Url)
    requires live != []
    ensures u in live
  {
    live[k % |live|]
  }

  // The first unused node from `start` on, cyclically, `i` places having been
  // looked at.
  function FirstUnused(live: seq<Url>, start: nat, used: set<Url>, i: nat): Option<Url>
    requires live != []
    decreases |live| - i
  {
    if i >= |live| then None
    else if Cyclic(live, start + i) !in used then Some(Cyclic(live, start + i))
    else FirstUnused(live, start, used, i + 1)
  }

  // The node and the shared counter after one call; the counter is a 64-bit
  // word that wraps.
  function RoundRobin(live: seq<Url>, counter: nat, used: set<Url>): (Option<Url>, nat) {
    if forall u :: u in live ==> u in used then (None, counter)
    else (FirstUnused(live, counter % |live|, used, 0), (counter + 1) % TWO_TO_THE_64)
  }

  lemma Residue(start: nat, k: nat, n: nat) returns (i: nat)
    requires start < n && k < n
    ensures i < n && (start + i) % n == k
  {
    i := if start <= k then k - start else k + n - start;
  }

  lemma {:induction false} FirstUnusedMeaning(live: seq<Url>, start: nat, used: set<Url>, i: nat, k: nat)
    requires live != [] && i <= |live|
    ensures var r := FirstUnused(live, start, used, i);
            && (r.Some? ==> r.value in live && r.value !in used)
            && (i <= k < |live| && Cyclic(live, start + k) !in used ==> r.Some?)
    decreases |live| - i
  {
    if i < |live| && Cyclic(live, start + i) in used {
      FirstUnusedMeaning(live, start, used, i + 1, k);
    }
  }

  // A node that is live and not yet used is returned whenever there is one,
  // and the counter advances exactly when a node is returned.
  lemma RoundRobinMeaning(live: seq<Url>, counter: nat, used: set<Url>)
    ensures var r := RoundRobin(live, counter, used);
            && (r.0.Some? <==> exists u :: u in live && u !in used)
            && (r.0.Some? ==> r.0.value in live && r.0.value !in used && r.1 == (counter + 1) % TWO_TO_THE_64)
            && (r.0.None? ==> r.1 == counter)
  {
    if u :| u in live && u !in used {
      var n := |live|;
      var k :| 0 <= k < n && live[k] == u;
      var i := Residue(counter % n, k, n);
      FirstUnusedMeaning(live, counter % n, used, 0, i);
    }
  }

  class LiveNodes {
    var live: seq<Url>
    var counter: nat

    constructor (nodes: seq<Url>)
      ensures live == nodes && counter == 0
    {
      live, counter := nodes, 0;
    }

    method GetNextNodeRoundRobin(used: set<Url>) returns (node: Option<Url>)
      modifies this`counter
      ensures (node, counter) == RoundRobin(live, old(counter), used)
    {
      var len := |live|;
      if len == 0 || forall u :: u in live ==> u in used {
        return None;
      }
      var start := counter % len;
      counter := (counter + 1) % TWO_TO_THE_64;
      var i := 0;
      while i < len
        invariant 0 <= i <= len
        invariant FirstUnused(live, start, used, i) == FirstUnused(live, start, used, 0)
      {
        var candidate := Cyclic(live, start + i);
        if candidate !in used {
          return Some(candidate);
        }
        i := i + 1;
      }
      return None;
    }
  }

  // ----- Captured orders -----

  function SwapRemove<T>(s: seq<T>, i: nat): seq<T>
    requires i < |s|
  {
    if i == |s| - 1 then s[..i] else s[i := s[|s| - 1]][..|s| - 1]
  }

  lemma SwapRemoveMeaning<T>(s: seq<T>, i: nat)
    requires i < |s|
    ensures multiset(SwapRemove(s, i)) + multiset{s[i]} == multiset(s) && |SwapRemove(s, i)| == |s| - 1
  {
    var last := s[|s| - 1];
    assert s == s[..|s| - 1] + [last];
    if i < |s| - 1 {
      assert s[i := last][..|s| - 1] == s[..|s| - 1][i := last];
    }
  }

  // The seeded shuffle of what remains, from a generator state.
  function ShuffleFrom(v: bv64, remaining: seq<Url>): seq<Url>
    requires |remaining| < TWO_TO_THE_64
    decreases |remaining|
  {
    if remaining == [] then []
    else
      var i := IndexFrom(v, |remaining|);
      SwapRemoveMeaning(remaining, i);
      [remaining[i]] + ShuffleFrom(NextState(v), SwapRemove(remaining, i))
  }

  lemma ShuffleStep(v: bv64, remaining: seq<Url>, i: nat, left: seq<Url>)
    requires 0 < |remaining| < TWO_TO_THE_64 && i == IndexFrom(v, |remaining|)
    requires left == SwapRemove(remaining, i)
    ensures |left| == |remaining| - 1
    ensures ShuffleFrom(v, remaining) == [remaining[i]] + ShuffleFrom(NextState(v), left)
  {
    SwapRemoveMeaning(remaining, i);
  }

  function SortedNodes(live: seq<Url>): seq<Url> {
    Sort(Text.AtMost, live)
  }

  lemma SortedNodesMeaning(live: seq<Url>)
    ensures multiset(SortedNodes(live)) == multiset(live) && |SortedNodes(live)| == |live|
    ensures Sorted(Text.AtMost, SortedNodes(live))
  {
    AtMostIsTotalOrder();
    SortSorts(Text.AtMost, live);
  }

  function SeededOrder(live: seq<Url>, seed: bv64): seq<Url>
    requires |live| < TWO_TO_THE_64
  {
    SortedNodesMeaning(live);
    ShuffleFrom(Seeded(seed), SortedNodes(live))
  }

  function PreferredNode(sorted: seq<Url>, seed: bv64): (r: Option<Url>)
    requires |sorted| < TWO_TO_THE_64
    ensures r.Some? <==> sorted != []
    ensures r.Some? ==> r.value in sorted
  {
    if sorted == [] then None
    else
      Some(sorted[IndexFrom(Seeded(seed), |sorted|)])
  }

  lemma {:induction false} ShuffleIsPermutation(v: bv64, remaining: seq<Url>)
    requires |remaining| < TWO_TO_THE_64
    ensures multiset(ShuffleFrom(v, remaining)) == multiset(remaining)
    ensures |ShuffleFrom(v, remaining)| == |remaining|
    decreases |remaining|
  {
    if remaining != [] {
      var i := IndexFrom(v, |remaining|);
      SwapRemoveMeaning(remaining, i);
      ShuffleIsPermutation(NextState(v), SwapRemove(remaining, i));
    }
  }

  // A seeded plan tries every member once, begins with the node that votes
  // are cast for, and is the same for every order in which the same
  // membership, with its repetitions, was published.
  lemma SeededPlan(live: seq<Url>, other: seq<Url>, seed: bv64)
    requires |live| < TWO_TO_THE_64 && multiset(live) == multiset(other)
    ensures multiset(SeededOrder(live, seed)) == multiset(live)
    ensures |SortedNodes(live)| == |live| && |other| == |live|
    ensures PreferredNode(SortedNodes(live), seed) == if live == [] then None else Some(SeededOrder(live, seed)[0])
    ensures SeededOrder(live, seed) == SeededOrder(other, seed)
  {
    SortedNodesMeaning(live);
    assert |multiset(live)| == |multiset(other)|;
    ShuffleIsPermutation(Seeded(seed), SortedNodes(live));
    AtMostIsTotalOrder();
    SortCanonical(Text.AtMost, live, other);
  }

  // Preferred nodes first, one occurrence each, then what remains in order.
  function Prefer(preferred: seq<Url>, nodes: seq<Url>): seq<Url> {
    if preferred == [] then nodes
    else if preferred[0] in nodes then [preferred[0]] + Prefer(preferred[1..], RemoveFirst(nodes, preferred[0]))
    else Prefer(preferred[1..], nodes)
  }

  function RemoveFirst(nodes: seq<Url>, x: Url): seq<Url>
    requires x in nodes
  {
    if nodes[0] == x then nodes[1..]
    else assert nodes == [nodes[0]] + nodes[1..]; [nodes[0]] + RemoveFirst(nodes[1..], x)
  }

  lemma {:induction false} RemoveFirstBag(nodes: seq<Url>, x: Url)
    requires x in nodes
    ensures multiset(RemoveFirst(nodes, x)) + multiset{x} == multiset(nodes)
  {
    assert nodes == [nodes[0]] + nodes[1..];
    if nodes[0] != x {
      RemoveFirstBag(nodes[1..], x);
    }
  }

  lemma {:induction false} RemoveFirstMeaning(le: (Url, Url) -> bool, nodes: seq<Url>, x: Url)
    requires x in nodes
    ensures multiset(RemoveFirst(nodes, x)) + multiset{x} == multiset(nodes)
    ensures Sorted(le, nodes) ==> Sorted(le, RemoveFirst(nodes, x))
  {
    RemoveFirstBag(nodes, x);
    var tail := nodes[1..];
    assert nodes == [nodes[0]] + tail;
    if nodes[0] != x && Sorted(le, nodes) {
      RemoveFirstMeaning(le, tail, x);
      var r := RemoveFirst(tail, x);
      forall y | y in r ensures le(nodes[0], y) {
        assert y in multiset(r);
        assert y in multiset(tail);
        var k :| 0 <= k < |tail| && tail[k] == y;
        assert nodes[k + 1] == y;
      }
    } else if Sorted(le, nodes) {
      assert Sorted(le, tail);
    }
  }

  lemma {:induction false} RemoveFirstAt(nodes: seq<Url>, x: Url, i: nat)
    requires i < |nodes| && nodes[i] == x && x !in nodes[..i]
    ensures RemoveFirst(nodes, x) == nodes[..i] + nodes[i + 1..]
  {
    if i > 0 {
      assert nodes[0] in nodes[..i];
      var t := nodes[1..];
      assert t[..i - 1] == nodes[..i][1..];
      RemoveFirstAt(t, x, i - 1);
      assert nodes[..i] == [nodes[0]] + t[..i - 1];
      assert t[i - 1 + 1..] == nodes[i + 1..];
    }
  }

  // Every preferred node first, in the order given, then the rest of the
  // snapshot in its order; nothing lost or added.
  lemma {:induction false} PreferMeaning(le: (Url, Url) -> bool, preferred: seq<Url>, nodes: seq<Url>)
    requires Distinct(preferred) && Sorted(le, nodes)
    requires forall p :: p in preferred ==> p in nodes
    ensures var r := Prefer(preferred, nodes);
            && multiset(r) == multiset(nodes)
            && |r| >= |preferred| && r[..|preferred|] == preferred
            && Sorted(le, r[|preferred|..])
  {
    if preferred != [] {
      var x, rest := preferred[0], preferred[1..];
      var left := RemoveFirst(nodes, x);
      RemoveFirstMeaning(le, nodes, x);
      forall p | p in rest ensures p in left {
        assert p in preferred;
        assert p in multiset(nodes) && p != x;
        assert p in multiset(left);
      }
      PreferMeaning(le, rest, left);
      PrependPreferred(le, x, rest, Prefer(rest, left));
      assert preferred == [x] + rest;
    }
  }

  lemma PrependPreferred(le: (Url, Url) -> bool, x: Url, rest: seq<Url>, r: seq<Url>)
    requires |r| >= |rest| && r[..|rest|] == rest && Sorted(le, r[|rest|..])
    ensures var p, q := [x] + rest, [x] + r; q[..|p|] == p && Sorted(le, q[|p|..])
    ensures multiset([x] + r) == multiset(r) + multiset{x}
  {
    assert ([x] + r)[|rest| + 1..] == r[|rest|..];
  }

  // ----- The plan object -----

  datatype PlanState =
    | RoundRobinPlan(used: set<Url>)
    | OrderedPlan(nodes: seq<Url>, next: nat)

  // What a call reads of the shared view.
  datatype Env = Env(live: seq<Url>, counter: nat)

  // The node, the plan and the counter after `next_node`.
  function Next(p: PlanState, env: Env): (Option<Url>, PlanState, nat) {
    match p
    case RoundRobinPlan(used) =>
      var r := RoundRobin(env.live, env.counter, used);
      (r.0, if r.0.Some? then RoundRobinPlan(used + {r.0.value}) else p, r.1)
    case OrderedPlan(nodes, next) =>
      if next < |nodes| then (Some(nodes[next]), OrderedPlan(nodes, next + 1), env.counter) else (None, p, env.counter)
  }

  function Restarted(p: PlanState): PlanState {
    match p
    case RoundRobinPlan(_) => RoundRobinPlan({})
    case OrderedPlan(nodes, _) => OrderedPlan(nodes, 0)
  }

  // `next_node_or_restart`; the view may change between its two attempts.
  function NextOrRestart(p: PlanState, first: Env, second: Env): (Option<Url>, PlanState) {
    var r := Next(p, first);
    if r.0.Some? then (r.0, r.1)
    else var t := Next(Restarted(r.1), second); (t.0, t.1)
  }

  predicate UsableOrder(p: PlanState) {
    p.OrderedPlan? ==> p.nodes != []
  }

  // A request is always routed: no plan runs out while membership has a node,
  // even if topology changes between the two attempts.
  lemma AlwaysRouted(p: PlanState, first: Env, second: Env)
    requires second.live != [] && UsableOrder(p)
    ensures var r := NextOrRestart(p, first, second);
            && r.0.Some? && UsableOrder(r.1)
            && (p.RoundRobinPlan? ==> r.0.value in first.live || r.0.value in second.live)
            && (p.OrderedPlan? ==> r.0.value in p.nodes)
  {
    if p.RoundRobinPlan? {
      RoundRobinMeaning(first.live, first.counter, p.used);
      RoundRobinMeaning(second.live, second.counter, {});
      assert second.live[0] in second.live;
    }
  }

  // The plan after drawing once in each of the given surroundings.
  function Draws(p: PlanState, envs: seq<(Env, Env)>): (PlanState, seq<Option<Url>>) {
    if envs == [] then (p, [])
    else
      var before := Draws(p, envs[..|envs| - 1]);
      var e := envs[|envs| - 1];
      var r := NextOrRestart(before.0, e.0, e.1);
      (r.1, before.1 + [r.0])
  }

  lemma NextModulo(k: nat, n: nat)
    requires n > 0
    ensures (k + 1) % n == if k % n == n - 1 then 0 else k % n + 1
  {
    var q, r := k / n, k % n;
    assert k == n * q + r;
    if r == n - 1 {
      assert k + 1 == n * (q + 1);
      Remainder(k + 1, n, q + 1, 0);
    } else {
      Remainder(k + 1, n, q, r + 1);
    }
  }

  lemma Remainder(a: nat, n: nat, q: nat, r: nat)
    requires a == n * q + r && r < n
    ensures a % n == r
  {
    Quotient(a, n, q, r);
  }

  lemma OrderedDraw(nodes: seq<Url>, next: nat, first: Env, second: Env)
    requires nodes != []
    ensures var at := if next < |nodes| then next else 0;
            NextOrRestart(OrderedPlan(nodes, next), first, second) == (Some(nodes[at]), OrderedPlan(nodes, at + 1))
  {
  }

  // Where a captured order stands after `draws` restarting draws.
  function Standing(draws: nat, n: nat): nat
    requires n > 0
  {
    if draws == 0 then 0 else (draws - 1) % n + 1
  }

  lemma StandingStep(draws: nat, n: nat)
    requires n > 0
    ensures var at := if Standing(draws, n) < n then Standing(draws, n) else 0;
            at == draws % n && Standing(draws + 1, n) == at + 1
  {
    if draws > 0 {
      NextModulo(draws - 1, n);
    }
  }

  // The k-th restarting draw of a captured order is node k mod n of it,
  // whatever happens to the topology.
  lemma {:induction false} OrderedDraws(nodes: seq<Url>, envs: seq<(Env, Env)>)
    requires nodes != []
    ensures var r := Draws(OrderedPlan(nodes, 0), envs);
            && |r.1| == |envs|
            && (forall k :: 0 <= k < |envs| ==> r.1[k] == Some(Cyclic(nodes, k)))
            && r.0 == OrderedPlan(nodes, Standing(|envs|, |nodes|))
  {
    if envs != [] {
      var m := |envs| - 1;
      OrderedDraws(nodes, envs[..m]);
      StandingStep(m, |nodes|);
      OrderedDraw(nodes, Standing(m, |nodes|), envs[m].0, envs[m].1);
    }
  }

  // One turn of the seeded loop.
  method DrawNode(rng: Rng, remaining: seq<Url>) returns (node: Url, left: seq<Url>)
    requires 0 < |remaining| < TWO_TO_THE_64
    modifies rng
    ensures |left| == |remaining| - 1
    ensures ShuffleFrom(old(rng.state), remaining) == [node] + ShuffleFrom(rng.state, left)
  {
    ghost var v := rng.state;
    var index := rng.Index(|remaining|);
    node := remaining[index];
    left := SwapRemove(remaining, index);
    ShuffleStep(v, remaining, index, left);
  }

  // `nodes` have been drawn, and `remaining` from state `v` completes `whole`.
  ghost predicate Drawn(v: bv64, remaining: seq<Url>, nodes: seq<Url>, whole: seq<Url>) {
    |remaining| < TWO_TO_THE_64 && nodes + ShuffleFrom(v, remaining) == whole
  }

  lemma DrawnStep(v: bv64, remaining: seq<Url>, nodes: seq<Url>, whole: seq<Url>, w: bv64, left: seq<Url>, node: Url)
    requires Drawn(v, remaining, nodes, whole) && |left| < TWO_TO_THE_64
    requires ShuffleFrom(v, remaining) == [node] + ShuffleFrom(w, left)
    ensures Drawn(w, left, nodes + [node], whole)
  {
    assert nodes + ([node] + ShuffleFrom(w, left)) == nodes + [node] + ShuffleFrom(w, left);
  }

  method DrawAll(rng: Rng, sorted: seq<Url>) returns (nodes: seq<Url>)
    requires |sorted| < TWO_TO_THE_64
    modifies rng
    ensures nodes == ShuffleFrom(old(rng.state), sorted)
  {
    ghost var whole := ShuffleFrom(rng.state, sorted);
    var remaining := sorted;
    nodes := [];
    while remaining != []
      invariant Drawn(rng.state, remaining, nodes, whole)
      decreases |remaining|
    {
      ghost var v := rng.state;
      var node, left := DrawNode(rng, remaining);
      DrawnStep(v, remaining, nodes, whole, rng.state, left, node);
      nodes := nodes + [node];
      remaining := left;
    }
  }

  method SeededShuffle(sorted: seq<Url>, seed: bv64) returns (nodes: seq<Url>)
    requires |sorted| < TWO_TO_THE_64
    ensures nodes == ShuffleFrom(Seeded(seed), sorted)
  {
    var rng := new Rng(seed);
    nodes := DrawAll(rng, sorted);
  }

  method Position(nodes: seq<Url>, x: Url) returns (index: Option<nat>)
    ensures index.Some? ==> index.value < |nodes| && nodes[index.value] == x && x !in nodes[..index.value]
    ensures index.None? ==> x !in nodes
  {
    var i := 0;
    while i < |nodes|
      invariant 0 <= i <= |nodes| && x !in nodes[..i]
    {
      if nodes[i] == x {
        return Some(i);
      }
      i := i + 1;
    }
    return None;
  }

  class QueryPlan {
    const liveNodes: LiveNodes
    var state: PlanState

    constructor Basic(liveNodes: LiveNodes)
      ensures this.liveNodes == liveNodes && state == RoundRobinPlan({})
    {
      this.liveNodes := liveNodes;
      state := RoundRobinPlan({});
    }

    constructor WithHash(liveNodes: LiveNodes, seed: bv64)
      requires |liveNodes.live| < TWO_TO_THE_64
      ensures this.liveNodes == liveNodes
      ensures state == OrderedPlan(SeededOrder(liveNodes.live, seed), 0)
    {
      var remaining := SortedNodes(liveNodes.live);
      SortedNodesMeaning(liveNodes.live);
      var nodes := SeededShuffle(remaining, seed);
      this.liveNodes := liveNodes;
      state := OrderedPlan(nodes, 0);
    }

    constructor WithPreferredNodes(liveNodes: LiveNodes, preferredNodes: seq<Url>, snapshot: seq<Url>)
      ensures this.liveNodes == liveNodes
      ensures state == OrderedPlan(Prefer(preferredNodes, snapshot), 0)
    {
      var nodes, ordered := snapshot, [];
      var i := 0;
      assert preferredNodes[0..] == preferredNodes;
      while i < |preferredNodes|
        invariant 0 <= i <= |preferredNodes|
        invariant ordered + Prefer(preferredNodes[i..], nodes) == Prefer(preferredNodes, snapshot)
      {
        var preferredNode := preferredNodes[i];
        assert preferredNodes[i..][1..] == preferredNodes[i + 1..];
        var index := Position(nodes, preferredNode);
        if index.Some? {
          RemoveFirstAt(nodes, preferredNode, index.value);
          ordered := ordered + [nodes[index.value]];
          nodes := nodes[..index.value] + nodes[index.value + 1..];
        }
        i := i + 1;
      }
      assert preferredNodes[i..] == [];
      this.liveNodes := liveNodes;
      state := OrderedPlan(ordered + nodes, 0);
    }

    method NextNode() returns (node: Option<Url>)
      modifies this, liveNodes`counter
      ensures (node, state, liveNodes.counter) == Next(old(state), Env(liveNodes.live, old(liveNodes.counter)))
    {
      match state
      case RoundRobinPlan(used) =>
        node := liveNodes.GetNextNodeRoundRobin(used);
        if node.Some? {
          state := RoundRobinPlan(used + {node.value});
        }
      case OrderedPlan(nodes, next) =>
        if next < |nodes| {
          node := Some(nodes[next]);
          state := OrderedPlan(nodes, next + 1);
        } else {
          node := None;
        }
    }

    method Restart()
      modifies this
      ensures state == Restarted(old(state))
    {
      match state
      case RoundRobinPlan(_) => state := RoundRobinPlan({});
      case OrderedPlan(nodes, _) => state := OrderedPlan(nodes, 0);
    }

    // `meanwhile` is what refreshes and other plans have made of the shared view
    // when the second attempt looks at it.
    method NextNodeOrRestart(meanwhile: Env) returns (node: Option<Url>)
      modifies this, liveNodes
      ensures var first := Env(old(liveNodes.live), old(liveNodes.counter));
              var attempt := Next(old(state), first);
              && (node, state) == NextOrRestart(old(state), first, meanwhile)
              && Env(liveNodes.live, liveNodes.counter) ==
                 if attempt.0.Some? then Env(first.live, attempt.2)
                 else Env(meanwhile.live, Next(Restarted(attempt.1), meanwhile).2)
      ensures meanwhile.live != [] && UsableOrder(old(state)) ==> node.Some? && UsableOrder(state)
    {
      if meanwhile.live != [] && UsableOrder(state) {
        AlwaysRouted(state, Env(liveNodes.live, liveNodes.counter), meanwhile);
      }
      node := NextNode();
      if node.Some? {
        return;
      }
      liveNodes.live, liveNodes.counter := meanwhile.live, meanwhile.counter;
      Restart();
      node := NextNode();
    }
  }
}
