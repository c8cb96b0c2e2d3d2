/** Routing a request's attempts while membership is being refreshed. */
module Routing {
  import DeterministicRng
  import opened Refresh
  import opened Interleaving
  import opened QueryPlans

  // `live` is what some run of refreshes from `init` makes of membership.
  ghost predicate Membership(init: System, live: seq<Url>) {
    exists acts: seq<Action> :: Exec(init, acts).Some? && Exec(init, acts).value.view.live == live
  }

  lemma MembershipIsNeverEmpty(init: System, live: seq<Url>)
    requires Init(init) && Membership(init, live)
    ensures live != []
  {
    var acts: seq<Action> :| Exec(init, acts).Some? && Exec(init, acts).value.view.live == live;
    EveryRunIsSafe(init, acts, []);
  }

  // The plans a request can be given, built from a membership of the view.
  ghost predicate FreshPlan(init: System, p: PlanState) {
    || p == RoundRobinPlan({})
    || (exists live: seq<Url>, seed: bv64 ::
          && |live| < DeterministicRng.TWO_TO_THE_64 && Membership(init, live)
          && p == OrderedPlan(SeededOrder(live, seed), 0))
    || (exists live: seq<Url>, preferred: seq<Url> ::
          Membership(init, live) && p == OrderedPlan(Prefer(preferred, SortedNodes(live)), 0))
  }

  lemma {:induction false} PreferKeepsSome(preferred: seq<Url>, nodes: seq<Url>)
    requires nodes != []
    ensures Prefer(preferred, nodes) != []
  {
    if preferred != [] && preferred[0] !in nodes {
      PreferKeepsSome(preferred[1..], nodes);
    }
  }

  lemma FreshPlanIsUsable(init: System, p: PlanState)
    requires Init(init) && FreshPlan(init, p)
    ensures UsableOrder(p)
  {
    if p.OrderedPlan? {
      if live: seq<Url>, seed: bv64 :|
        |live| < DeterministicRng.TWO_TO_THE_64 && Membership(init, live) && p == OrderedPlan(SeededOrder(live, seed), 0)
      {
        MembershipIsNeverEmpty(init, live);
        SeededPlan(live, live, seed);
        assert |multiset(SeededOrder(live, seed))| == |live|;
      } else {
        var live: seq<Url>, preferred: seq<Url> :|
          Membership(init, live) && p == OrderedPlan(Prefer(preferred, SortedNodes(live)), 0);
        MembershipIsNeverEmpty(init, live);
        SortedNodesMeaning(live);
        PreferKeepsSome(preferred, SortedNodes(live));
      }
    }
  }

  ghost predicate DuringRefreshes(init: System, envs: seq<(Env, Env)>) {
    forall k :: 0 <= k < |envs| ==> Membership(init, envs[k].0.live) && Membership(init, envs[k].1.live)
  }

  // However many attempts a request makes, and whatever refreshes publish
  // before, between and within them, every attempt is given a node.
  lemma {:induction false} EveryAttemptIsRouted(init: System, p: PlanState, envs: seq<(Env, Env)>)
    requires Init(init) && FreshPlan(init, p) && DuringRefreshes(init, envs)
    ensures var r := Draws(p, envs);
            UsableOrder(r.0) && |r.1| == |envs| && forall k :: 0 <= k < |envs| ==> r.1[k].Some?
  {
    FreshPlanIsUsable(init, p);
    if envs != [] {
      var n := |envs| - 1;
      EveryAttemptIsRouted(init, p, envs[..n]);
      MembershipIsNeverEmpty(init, envs[n].1.live);
      AlwaysRouted(Draws(p, envs[..n]).0, envs[n].0, envs[n].1);
    }
  }
}
