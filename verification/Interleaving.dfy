/** Any number of refreshes of one view, ordinary and affinity, started,
    interleaved and cancelled in any way. */
module Interleaving {
  import opened Wrappers
  import opened Sorting
  import RoutingScopes
  import opened Refresh
  import opened WalkResults
  import NodeViews

  datatype Member = Member(cfg: Config, phase: Phase)

  // `publishers` records the generations that have changed the view.
  datatype System = System(
    chain: seq<RoutingScopes.Level>,
    seeds: seq<Url>,
    view: View,
    refreshes: map<nat, Member>,
    publishers: set<nat>)

  datatype Action = Start(cfg: Config) | Step(gen: nat, e: Event)

  ghost predicate Init(s: System) {
    s.chain != [] && s.seeds != [] && s.view == View(s.seeds, 0, 0) && s.refreshes == map[] && s.publishers == {}
  }

  ghost predicate Possible(s: System, a: Action) {
    match a
    case Start(cfg) => cfg.chain == s.chain && cfg.seeds == s.seeds && s.view.next < NodeViews.U64_MAX
    case Step(gen, e) => gen in s.refreshes && Enabled(s.refreshes[gen].cfg, s.view, s.refreshes[gen].phase, e)
  }

  ghost function Do(s: System, a: Action): System
    requires Possible(s, a)
  {
    match a
    case Start(cfg) =>
      var gen := s.view.next + 1;
      s.(view := s.view.(next := gen), refreshes := s.refreshes[gen := Member(cfg, Begun)])
    case Step(gen, e) =>
      var m := s.refreshes[gen];
      var r := Advance(m.cfg, gen, s.view, m.phase, e);
      s.(view := r.0,
         refreshes := s.refreshes[gen := Member(m.cfg, r.1)],
         publishers := if (e.Merge? || e.Publish?) && s.view.latest <= gen then s.publishers + {gen} else s.publishers)
  }

  ghost function Exec(s: System, acts: seq<Action>): Option<System> {
    if acts == [] then Some(s)
    else
      match Exec(s, acts[..|acts| - 1])
      case None => None
      case Some(t) => if Possible(t, acts[|acts| - 1]) then Some(Do(t, acts[|acts| - 1])) else None
  }

  // ----- The invariant -----

  // Only results with a node reach publication, and the queue runs dry only
  // after the seeds have been loaded.
  ghost predicate PhaseOk(p: Phase) {
    match p
    case Choosing(w) => w.queue == [] ==> w.usingSeeds
    case Passing(_, _, _, found, got) => found != [] ==> got
    case Asking(_, _, _, found, got, _) => found != [] ==> got
    case Merging(_, _, _, found) => found != []
    case Publishing(_, nodes) => nodes != []
    case Finished(_, published) => published.Some? ==> published.value != []
    case _ => true
  }

  // Where the refresh that last changed the view can be.
  ghost predicate Holder(p: Phase, live: seq<Url>) {
    || (p.Finished? && p.published == Some(live))
    || ((p.Passing? || p.Asking? || p.Merging?) && p.found != [])
    || p.Publishing?
    || p.Cancelled?
  }

  ghost predicate Inv(s: System) {
    && s.chain != [] && s.seeds != [] && s.view.live != []
    && s.view.latest <= s.view.next
    && (forall g :: g in s.refreshes ==>
          && 1 <= g <= s.view.next && s.refreshes[g].cfg.chain == s.chain && s.refreshes[g].cfg.seeds == s.seeds
          && PhaseOk(s.refreshes[g].phase)
          && (s.refreshes[g].phase.Finished? && s.refreshes[g].phase.published.Some? ==> g <= s.view.latest))
    && (forall g :: g in s.publishers ==> g in s.refreshes && g <= s.view.latest)
    && (if s.view.latest == 0 then s.publishers == {} && s.view.live == s.seeds
        else s.view.latest in s.publishers && Holder(s.refreshes[s.view.latest].phase, s.view.live))
  }

  lemma ResolvePhaseOk(cfg: Config, w: Walk, host: Url, result: Option<seq<Url>>)
    requires w.at < |cfg.chain| && cfg.seeds != []
    ensures PhaseOk(Resolve(cfg, w, host, result))
  {
  }

  lemma AskPhaseOk(p: Phase, answer: Option<seq<Url>>, live: seq<Url>)
    requires p.Asking? && PhaseOk(p)
    ensures PhaseOk(AskNext(p, answer)) && (Holder(p, live) ==> Holder(AskNext(p, answer), live))
  {
    if answer.Some? {
      SortDedupMeaning(p.found + answer.value);
    }
  }

  lemma StepPhaseOk(cfg: Config, gen: nat, v: View, p: Phase, e: Event)
    requires Enabled(cfg, v, p, e) && cfg.seeds != [] && v.live != [] && PhaseOk(p)
    ensures var r := Advance(cfg, gen, v, p, e);
            && PhaseOk(r.1) && r.0.live != [] && r.0.next == v.next
            && (r.1.Finished? && r.1.published.Some? ==> gen <= r.0.latest)
            && (!e.Merge? && !e.Publish? ==> r.0 == v)
            && (Holder(p, v.live) ==> Holder(r.1, r.0.live) || r.0.latest > gen)
            && (e.Merge? || e.Publish? ==> Holder(r.1, r.0.live) || r.0.latest > gen)
  {
    match e
    case Load(order) => assert |multiset(order)| == |multiset(v.live)|;
    case Choose(_) =>
      if p.w.queue != [] {
        var op := RoutingScopes.OperationOf(cfg.chain[p.w.at]);
        if op in p.w.outcomes {
          ResolvePhaseOk(cfg, p.w.(queue := p.w.queue[1..]), p.w.queue[0], Some(p.w.outcomes[op]));
        }
      }
    case Reply(answer) =>
      if p.Probing? {
        ResolvePhaseOk(cfg, p.w, p.host, answer);
      } else {
        AskPhaseOk(p, answer, v.live);
      }
    case Pass =>
      SortDedupMeaning(p.found);
      if p.rest == [] { ResolvePhaseOk(cfg, p.w, p.host, if p.got then Some(SortDedup(p.found)) else None); }
    case Merge => SortDedupMeaning(v.live + p.found);
    case Publish =>
    case Cancel =>
  }

  lemma DoKeepsInv(s: System, a: Action)
    requires Inv(s) && Possible(s, a)
    ensures Inv(Do(s, a))
    ensures s.view.latest <= Do(s, a).view.latest && s.view.next <= Do(s, a).view.next
  {
    match a
    case Start(_) =>
    case Step(gen, e) =>
      var m := s.refreshes[gen];
      StepPhaseOk(m.cfg, gen, s.view, m.phase, e);
  }

  lemma {:induction false} ExecKeepsInv(s: System, acts: seq<Action>)
    requires Inv(s) && Exec(s, acts).Some?
    ensures Inv(Exec(s, acts).value)
    ensures s.view.latest <= Exec(s, acts).value.view.latest
    ensures s.view.next <= Exec(s, acts).value.view.next
  {
    if acts != [] {
      var before := acts[..|acts| - 1];
      ExecKeepsInv(s, before);
      DoKeepsInv(Exec(s, before).value, acts[|acts| - 1]);
    }
  }

  lemma InitInv(s: System)
    requires Init(s)
    ensures Inv(s)
  {
  }

  // ----- Membership and generations over every run -----

  // Membership never becomes empty, the published generation never decreases
  // and never exceeds the issued one, and no walk gives up before its seeds.
  lemma EveryRunIsSafe(init: System, acts: seq<Action>, more: seq<Action>)
    requires Init(init) && Exec(init, acts).Some? && Exec(Exec(init, acts).value, more).Some?
    ensures var s, t := Exec(init, acts).value, Exec(Exec(init, acts).value, more).value;
            && t.view.live != []
            && s.view.latest <= t.view.latest <= t.view.next && s.view.next <= t.view.next
            && forall g :: g in t.refreshes && t.refreshes[g].phase.Choosing? && t.refreshes[g].phase.w.queue == []
                           ==> t.refreshes[g].phase.w.usingSeeds
  {
    InitInv(init);
    ExecKeepsInv(init, acts);
    ExecKeepsInv(Exec(init, acts).value, more);
  }

  lemma {:induction false} FinishedStays(s: System, acts: seq<Action>, g: nat)
    requires Inv(s) && Exec(s, acts).Some? && g in s.refreshes && s.refreshes[g].phase.Finished?
    ensures var t := Exec(s, acts).value; g in t.refreshes && t.refreshes[g] == s.refreshes[g]
  {
    if acts != [] {
      var before := acts[..|acts| - 1];
      ExecKeepsInv(s, before);
      FinishedStays(s, before, g);
    }
  }

  // Once generation `g` has published its completed result, nothing an older
  // generation does changes the view again.
  lemma OlderGenerationsAreSuperseded(init: System, acts: seq<Action>, g: nat, more: seq<Action>, older: nat, e: Event)
    requires Init(init) && Exec(init, acts).Some? && Exec(Exec(init, acts).value, more).Some?
    requires var s := Exec(init, acts).value;
             g in s.refreshes && s.refreshes[g].phase.Finished? && s.refreshes[g].phase.published.Some?
    requires older < g && Possible(Exec(Exec(init, acts).value, more).value, Step(older, e))
    ensures var t := Exec(Exec(init, acts).value, more).value; Do(t, Step(older, e)).view == t.view
  {
    InitInv(init);
    ExecKeepsInv(init, acts);
    var s := Exec(init, acts).value;
    ExecKeepsInv(s, more);
    FinishedStays(s, more, g);
  }

  // A partial publication only adds nodes.
  lemma PartialOnlyAdds(s: System, g: nat)
    requires Possible(s, Step(g, Merge))
    ensures Elements(s.view.live) <= Elements(Do(s, Step(g, Merge)).view.live)
  {
    var found := s.refreshes[g].phase.found;
    SortDedupMeaning(s.view.live + found);
    assert Elements(s.view.live + found) == Elements(s.view.live) + Elements(found);
  }

  // A publication is dropped exactly when a newer generation has published:
  // a newer refresh that published nothing suppresses no result.
  lemma SuppressedOnlyByPublishers(init: System, acts: seq<Action>, g: nat, e: Event)
    requires Init(init) && Exec(init, acts).Some?
    requires Possible(Exec(init, acts).value, Step(g, e)) && (e.Publish? || e.Merge?)
    ensures var s := Exec(init, acts).value;
            var t := Do(s, Step(g, e));
            if exists n :: n in s.publishers && n > g then t.view == s.view && t.publishers == s.publishers
            else t.view.latest == g && g in t.publishers
                 && (e.Publish? ==> t.view.live == s.refreshes[g].phase.nodes)
  {
    InitInv(init);
    ExecKeepsInv(init, acts);
    var s := Exec(init, acts).value;
    if s.view.latest > g { assert s.view.latest in s.publishers; }
  }

  ghost predicate Settled(s: System) {
    forall g :: g in s.refreshes ==> Ended(s.refreshes[g].phase)
  }

  // When every refresh has ended, membership is the result of the newest one
  // that published, however their steps were interleaved; only if that one was
  // cancelled after a partial publication is it something else.
  lemma NewestPublisherWins(init: System, acts: seq<Action>)
    requires Init(init) && Exec(init, acts).Some? && Settled(Exec(init, acts).value)
    ensures var s := Exec(init, acts).value;
            && (s.view.latest == 0 ==> s.view.live == init.seeds)
            && (s.view.latest != 0 ==>
                  && s.view.latest in s.refreshes
                  && var p := s.refreshes[s.view.latest].phase;
                     p.Cancelled? || (p.Finished? && p.published == Some(s.view.live)))
            && forall g :: g in s.refreshes && s.refreshes[g].phase.Finished? && s.refreshes[g].phase.published.Some?
                           ==> g <= s.view.latest
  {
    InitInv(init);
    ExecKeepsInv(init, acts);
    ExecKeepsSeeds(init, acts);
  }

  lemma {:induction false} ExecKeepsSeeds(s: System, acts: seq<Action>)
    requires Exec(s, acts).Some?
    ensures Exec(s, acts).value.seeds == s.seeds && Exec(s, acts).value.chain == s.chain
  {
    if acts != [] {
      ExecKeepsSeeds(s, acts[..|acts| - 1]);
    }
  }

  // ----- Consistent hosts -----

  ghost predicate HonestAction(world: World, s: System, a: Action) {
    match a
    case Start(cfg) => ConfigOk(world, cfg)
    case Step(gen, e) => gen in s.refreshes ==> Honest(world, s.refreshes[gen].cfg, s.refreshes[gen].phase, e)
  }

  ghost predicate HonestRun(world: World, s: System, acts: seq<Action>) {
    forall k :: 0 <= k < |acts| && Exec(s, acts[..k]).Some? ==> HonestAction(world, Exec(s, acts[..k]).value, acts[k])
  }

  // Every refresh has someone to ask: a seed that responds, or a responding
  // node among the candidates handed to it, as the affinity view is handed the
  // nodes of the ordinary one.
  ghost predicate Supported(world: World, seeds: seq<Url>, acts: seq<Action>) {
    forall k :: 0 <= k < |acts| && acts[k].Start? ==> HasSupport(world, seeds, acts[k].cfg)
  }

  ghost predicate HasSupport(world: World, seeds: seq<Url>, cfg: Config) {
    Responder(world, seeds) || Responder(world, cfg.additional)
  }

  ghost predicate AllRight(world: World, s: System) {
    forall g :: g in s.refreshes ==>
      && ConfigOk(world, s.refreshes[g].cfg)
      && HasSupport(world, s.seeds, s.refreshes[g].cfg)
      && Sound(world, s.refreshes[g].cfg, s.refreshes[g].phase)
      && Hopeful(world, s.refreshes[g].cfg, s.refreshes[g].phase)
  }

  lemma SupportIsAvailable(world: World, s: System, cfg: Config)
    requires Inv(s) && HasSupport(world, s.seeds, cfg) && cfg.seeds == s.seeds
    ensures Available(world, cfg, s.view)
  {
    if Responder(world, s.seeds) {
      var u :| u in s.seeds && world.responds(u);
      assert u in Listed(cfg, s.view);
    } else {
      var u :| u in cfg.additional && world.responds(u);
      assert u in Listed(cfg, s.view);
    }
  }

  lemma DoKeepsRight(world: World, s: System, a: Action)
    requires Inv(s) && AllRight(world, s) && Possible(s, a) && HonestAction(world, s, a)
    requires a.Start? ==> HasSupport(world, s.seeds, a.cfg)
    ensures AllRight(world, Do(s, a))
  {
    if a.Step? {
      var m := s.refreshes[a.gen];
      SupportIsAvailable(world, s, m.cfg);
      StepSound(world, m.cfg, a.gen, s.view, m.phase, a.e);
      StepHopeful(world, m.cfg, a.gen, s.view, m.phase, a.e);
    }
  }

  lemma {:induction false} ExecKeepsRight(world: World, s: System, acts: seq<Action>)
    requires Inv(s) && AllRight(world, s) && Exec(s, acts).Some? && HonestRun(world, s, acts)
    requires Supported(world, s.seeds, acts)
    ensures AllRight(world, Exec(s, acts).value)
  {
    if acts != [] {
      var n := |acts| - 1;
      var before := acts[..n];
      forall k | 0 <= k < n ensures before[..k] == acts[..k] && before[k] == acts[k] {
      }
      ExecKeepsRight(world, s, before);
      ExecKeepsSeeds(s, before);
      ExecKeepsInv(s, before);
      DoKeepsRight(world, Exec(s, before).value, acts[n]);
    }
  }

  // If responding hosts are consistent and every refresh has someone to ask,
  // each one that ends, in any interleaving, has the answer of the first
  // non-empty scope.
  lemma InterleavedRefinement(world: World, init: System, acts: seq<Action>)
    requires Init(init) && Exec(init, acts).Some? && HonestRun(world, init, acts)
    requires Supported(world, init.seeds, acts)
    ensures var s := Exec(init, acts).value;
            forall g :: g in s.refreshes && s.refreshes[g].phase.Finished? ==>
              s.refreshes[g].phase.published == Expected(world, init.chain)
  {
    InitInv(init);
    ExecKeepsInv(init, acts);
    ExecKeepsSeeds(init, acts);
    ExecKeepsRight(world, init, acts);
  }

  // Membership settles on that answer once a refresh has ended and none that
  // published was cancelled.
  lemma MembershipSettles(world: World, init: System, acts: seq<Action>, g: nat)
    requires Init(init) && Exec(init, acts).Some? && HonestRun(world, init, acts)
    requires Supported(world, init.seeds, acts) && Settled(Exec(init, acts).value)
    requires var s := Exec(init, acts).value;
             && g in s.refreshes && s.refreshes[g].phase.Finished?
             && (s.view.latest in s.refreshes ==> !s.refreshes[s.view.latest].phase.Cancelled?)
    ensures Exec(init, acts).value.view.live
         == if Expected(world, init.chain).Some? then Expected(world, init.chain).value else init.seeds
  {
    InterleavedRefinement(world, init, acts);
    NewestPublisherWins(init, acts);
    InitInv(init);
    ExecKeepsInv(init, acts);
    var s := Exec(init, acts).value;
    assert s.refreshes[g].phase.published == Expected(world, init.chain);
    assert s.view.latest != 0 ==> s.refreshes[s.view.latest].phase.published == Expected(world, init.chain);
  }
}
