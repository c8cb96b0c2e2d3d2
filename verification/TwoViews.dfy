/** The ordinary view and the affinity view together: each affinity refresh
    takes over the outcomes of an ordinary one and asks the ordinary nodes too. */
module TwoViews {
  import opened Wrappers
  import opened RoutingScopes
  import opened Refresh
  import opened WalkResults
  import opened Interleaving

  // What an affinity task is given when it is installed; it may begin later.
  datatype Handover = Handover(outcomes: map<Operation, seq<Url>>, additional: seq<Url>)

  // `installed`: the affinity tasks that have not begun.
  datatype Pair = Pair(ordinary: System, affinity: System, installed: map<nat, Handover>)

  datatype Move =
    | Ordinary(a: Action)
    | Install(task: nat, from: nat)     // the ordinary refresh `from` has ended
    | Begin(task: nat, cfg: Config)     // an installed task starts its refresh
    | Affinity(gen: nat, e: Event)

  ghost predicate Begins(p: Pair) {
    && Init(p.ordinary) && Init(p.affinity)
    && p.affinity.chain == Widen(p.ordinary.chain) && p.affinity.seeds == p.ordinary.seeds
    && p.installed == map[]
  }

  // An ordinary refresh starts from nothing and reuses nothing.
  predicate StartsPlain(a: Action) {
    a.Start? ==> !a.cfg.reuse && a.cfg.outcomes == map[] && a.cfg.additional == []
  }

  predicate Ended(p: Pair, from: nat) {
    from in p.ordinary.refreshes && p.ordinary.refreshes[from].phase.Finished?
  }

  function HandedOver(p: Pair, from: nat): Handover
    requires Ended(p, from)
  {
    Handover(p.ordinary.refreshes[from].phase.w.outcomes, p.ordinary.view.live)
  }

  predicate Given(t: Handover, cfg: Config) {
    cfg.reuse && cfg.outcomes == t.outcomes && cfg.additional == t.additional
  }

  ghost predicate Allowed(p: Pair, m: Move) {
    match m
    case Ordinary(a) => Possible(p.ordinary, a) && StartsPlain(a)
    case Install(_, from) => Ended(p, from)
    case Begin(t, cfg) => t in p.installed && Given(p.installed[t], cfg) && Possible(p.affinity, Start(cfg))
    case Affinity(gen, e) => Possible(p.affinity, Step(gen, e))
  }

  ghost function Make(p: Pair, m: Move): Pair
    requires Allowed(p, m)
  {
    match m
    case Ordinary(a) => p.(ordinary := Do(p.ordinary, a))
    case Install(t, from) => p.(installed := p.installed[t := HandedOver(p, from)])
    case Begin(t, cfg) => p.(affinity := Do(p.affinity, Start(cfg)), installed := p.installed - {t})
    case Affinity(gen, e) => p.(affinity := Do(p.affinity, Step(gen, e)))
  }

  ghost function Run(p: Pair, ms: seq<Move>): Option<Pair> {
    if ms == [] then Some(p)
    else
      match Run(p, ms[..|ms| - 1])
      case None => None
      case Some(q) => if Allowed(q, ms[|ms| - 1]) then Some(Make(q, ms[|ms| - 1])) else None
  }

  // Every reply is the one answer the host has, whichever view asked.
  ghost predicate HonestMove(world: World, p: Pair, m: Move) {
    match m
    case Ordinary(Step(gen, e)) =>
      gen in p.ordinary.refreshes ==>
        Honest(world, p.ordinary.refreshes[gen].cfg, p.ordinary.refreshes[gen].phase, e)
    case Affinity(gen, e) =>
      gen in p.affinity.refreshes ==>
        Honest(world, p.affinity.refreshes[gen].cfg, p.affinity.refreshes[gen].phase, e)
    case _ => true
  }

  ghost predicate HonestMoves(world: World, p: Pair, ms: seq<Move>) {
    forall k :: 0 <= k < |ms| && Run(p, ms[..k]).Some? ==> HonestMove(world, Run(p, ms[..k]).value, ms[k])
  }

  // A rack comes with a datacenter, as the constructors see to.
  ghost predicate WellFormedChain(chain: seq<Level>) {
    forall l :: l in chain ==> (IsCluster(l) <==> OperationOf(l) == Cluster)
  }

  ghost predicate Right(world: World, p: Pair) {
    && Inv(p.ordinary) && AllRight(world, p.ordinary) && WellFormedChain(p.ordinary.chain)
    && Inv(p.affinity) && AllRight(world, p.affinity) && WellFormedChain(p.affinity.chain)
    && (forall t :: t in p.installed ==> OutcomesOk(world, p.installed[t].outcomes))
  }

  lemma BeginsRight(world: World, p: Pair)
    requires Begins(p) && WellFormedChain(p.ordinary.chain)
    ensures Right(world, p)
  {
    InitInv(p.ordinary);
    InitInv(p.affinity);
    WidenMeaning(p.ordinary.chain);
  }

  // What an ordinary refresh hands over is right: it was learnt from the hosts.
  lemma HandedOverIsRight(world: World, p: Pair, from: nat)
    requires Right(world, p) && Ended(p, from)
    ensures OutcomesOk(world, HandedOver(p, from).outcomes)
  {
    var m := p.ordinary.refreshes[from];
    assert Sound(world, m.cfg, m.phase);
  }

  lemma SeedsSupport(world: World, seeds: seq<Url>, cfg: Config)
    requires Responder(world, seeds)
    ensures HasSupport(world, seeds, cfg)
  {
  }

  lemma OrdinaryKeepsRight(world: World, s: System, a: Action)
    requires Inv(s) && AllRight(world, s) && WellFormedChain(s.chain) && Responder(world, s.seeds)
    requires Possible(s, a) && StartsPlain(a)
    requires a.Step? ==> HonestAction(world, s, a)
    ensures Inv(Do(s, a)) && AllRight(world, Do(s, a)) && Do(s, a).chain == s.chain && Do(s, a).seeds == s.seeds
  {
    if a.Start? {
      SeedsSupport(world, s.seeds, a.cfg);
    }
    DoKeepsInv(s, a);
    DoKeepsRight(world, s, a);
  }

  lemma MoveKeepsRight(world: World, p: Pair, m: Move)
    requires Right(world, p) && Allowed(p, m) && HonestMove(world, p, m)
    requires Responder(world, p.ordinary.seeds) && Responder(world, p.affinity.seeds)
    ensures var q := Make(p, m);
            && Right(world, q)
            && q.ordinary.chain == p.ordinary.chain && q.ordinary.seeds == p.ordinary.seeds
            && q.affinity.chain == p.affinity.chain && q.affinity.seeds == p.affinity.seeds
  {
    match m
    case Ordinary(a) => OrdinaryKeepsRight(world, p.ordinary, a);
    case Install(_, from) => HandedOverIsRight(world, p, from);
    case Begin(_, cfg) =>
      SeedsSupport(world, p.affinity.seeds, cfg);
      DoKeepsInv(p.affinity, Start(cfg));
      DoKeepsRight(world, p.affinity, Start(cfg));
    case Affinity(gen, e) =>
      DoKeepsInv(p.affinity, Step(gen, e));
      DoKeepsRight(world, p.affinity, Step(gen, e));
  }

  lemma {:induction false} RunKeepsRight(world: World, p: Pair, ms: seq<Move>)
    requires Right(world, p) && HonestMoves(world, p, ms) && Run(p, ms).Some?
    requires Responder(world, p.ordinary.seeds) && Responder(world, p.affinity.seeds)
    ensures var q := Run(p, ms).value;
            && Right(world, q)
            && q.ordinary.chain == p.ordinary.chain && q.ordinary.seeds == p.ordinary.seeds
            && q.affinity.chain == p.affinity.chain && q.affinity.seeds == p.affinity.seeds
  {
    if ms != [] {
      var n := |ms| - 1;
      var before := ms[..n];
      forall k | 0 <= k < n ensures before[..k] == ms[..k] && before[k] == ms[k] {
      }
      RunKeepsRight(world, p, before);
      MoveKeepsRight(world, Run(p, before).value, ms[n]);
    }
  }

  lemma FinishedIsExpected(world: World, s: System)
    requires Inv(s) && AllRight(world, s)
    ensures forall g :: g in s.refreshes && s.refreshes[g].phase.Finished? ==>
              s.refreshes[g].phase.published == Expected(world, s.chain)
  {
    forall g | g in s.refreshes && s.refreshes[g].phase.Finished?
      ensures s.refreshes[g].phase.published == Expected(world, s.chain)
    {
      assert Hopeful(world, s.refreshes[g].cfg, s.refreshes[g].phase);
    }
  }

  // With hosts that answer each operation one way and a seed that responds,
  // however the refreshes of the two views are interleaved, each ordinary
  // refresh that ends has the answer of the first non-empty scope, and each
  // affinity refresh, with what it was handed, that of the first non-empty
  // scope of the widened chain.
  lemma BothViewsRefine(world: World, p: Pair, ms: seq<Move>)
    requires Begins(p) && WellFormedChain(p.ordinary.chain) && Responder(world, p.ordinary.seeds)
    requires HonestMoves(world, p, ms) && Run(p, ms).Some?
    ensures var q := Run(p, ms).value;
            && (forall g :: g in q.ordinary.refreshes && q.ordinary.refreshes[g].phase.Finished? ==>
                  q.ordinary.refreshes[g].phase.published == Expected(world, p.ordinary.chain))
            && (forall g :: g in q.affinity.refreshes && q.affinity.refreshes[g].phase.Finished? ==>
                  q.affinity.refreshes[g].phase.published == Expected(world, Widen(p.ordinary.chain)))
  {
    BeginsRight(world, p);
    RunKeepsRight(world, p, ms);
    FinishedIsExpected(world, Run(p, ms).value.ordinary);
    FinishedIsExpected(world, Run(p, ms).value.affinity);
  }

  // Each of the two views, on its own, makes a run of its own.
  lemma {:induction false} ViewsRun(p: Pair, ms: seq<Move>) returns (os: seq<Action>, fs: seq<Action>)
    requires Run(p, ms).Some?
    ensures Exec(p.ordinary, os) == Some(Run(p, ms).value.ordinary)
    ensures Exec(p.affinity, fs) == Some(Run(p, ms).value.affinity)
  {
    os, fs := [], [];
    if ms != [] {
      var before, m := ms[..|ms| - 1], ms[|ms| - 1];
      os, fs := ViewsRun(p, before);
      match m
      case Ordinary(a) =>
        assert (os + [a])[..|os|] == os;
        os := os + [a];
      case Install(_, _) =>
      case Begin(_, cfg) =>
        assert (fs + [Start(cfg)])[..|fs|] == fs;
        fs := fs + [Start(cfg)];
      case Affinity(gen, e) =>
        assert (fs + [Step(gen, e)])[..|fs|] == fs;
        fs := fs + [Step(gen, e)];
    }
  }
}
