/** One refresh of a node view as a state machine. Each step is what the code
    does between two points at which another refresh can run: a lock region or
    an await. `NodeViews` runs this machine alone, `Interleaving` runs many. */
module Refresh {
  import opened Wrappers
  import opened Sorting
  import opened RoutingScopes

  // A node is the text of its URL; two texts are the same node iff equal.
  type Url = string

  // Host and port, by which a cluster pass recognises a reported node.
  datatype Endpoint = Endpoint(host: Option<string>, port: Option<nat>)

  // What the refreshes of one view share.
  datatype View = View(live: seq<Url>, next: nat, latest: nat)

  datatype Config = Config(
    chain: seq<Level>,
    seeds: seq<Url>,
    additional: seq<Url>,
    reuse: bool,
    outcomes: map<Operation, seq<Url>>,
    endpoint: Url -> Endpoint)

  // The locals of the scope walk; `sent` records the requests made.
  datatype Walk = Walk(
    at: nat,
    queue: seq<Url>,
    usingSeeds: bool,
    outcomes: map<Operation, seq<Url>>,
    sent: seq<Operation>)

  datatype Phase =
    | Begun                                      // generation drawn, membership not read
    | Choosing(w: Walk)                          // top of the queue loop
    | Probing(w: Walk, host: Url)                // scoped request in flight
    | Passing(w: Walk, host: Url, rest: seq<Url>, found: seq<Url>, got: bool)
    | Asking(w: Walk, host: Url, rest: seq<Url>, found: seq<Url>, got: bool, node: Url)
    | Merging(w: Walk, host: Url, rest: seq<Url>, found: seq<Url>)
    | Publishing(w: Walk, nodes: seq<Url>)       // complete result, lock not taken
    | Finished(w: Walk, published: Option<seq<Url>>)
    | Cancelled

  datatype Event =
    | Load(order: seq<Url>)
    | Choose(candidates: seq<Url>)
    | Reply(answer: Option<seq<Url>>)
    | Pass
    | Merge
    | Publish
    | Cancel

  // ----- Publication -----

  function PublishPartial(v: View, gen: nat, found: seq<Url>): View {
    if gen < v.latest then v else v.(live := SortDedup(v.live + found), latest := gen)
  }

  function PublishComplete(v: View, gen: nat, nodes: seq<Url>): View {
    if gen < v.latest then v else v.(live := nodes, latest := gen)
  }

  // ----- The walk -----

  predicate InList(endpoint: Url -> Endpoint, node: Url, nodes: seq<Url>) {
    exists k :: 0 <= k < |nodes| && endpoint(nodes[k]) == endpoint(node)
  }

  function AppendMissing(nodes: seq<Url>, additional: seq<Url>): (r: seq<Url>)
    ensures nodes <= r
    ensures forall x :: x in r <==> x in nodes || x in additional
    decreases |additional|
  {
    if additional == [] then nodes
    else
      var n := if additional[0] in nodes then nodes else nodes + [additional[0]];
      AppendMissing(n, additional[1..])
  }

  function ClusterCandidates(cfg: Config, v: View): seq<Url> {
    SortDedup(v.live + cfg.seeds + cfg.additional)
  }

  // A probe result: failures drop the host, an empty list moves to the next
  // scope and keeps the host, anything else ends the walk.
  function Resolve(cfg: Config, w: Walk, host: Url, result: Option<seq<Url>>): Phase
    requires w.at < |cfg.chain|
  {
    match result
    case None =>
      if IsCluster(cfg.chain[w.at]) then Finished(w, None)
      else if w.queue == [] && !w.usingSeeds then Choosing(w.(usingSeeds := true, queue := cfg.seeds))
      else Choosing(w)
    case Some(nodes) =>
      var w' := w.(outcomes := w.outcomes[OperationOf(cfg.chain[w.at]) := nodes]);
      if nodes != [] then Publishing(w', nodes)
      else if w.at + 1 < |cfg.chain| then Choosing(w'.(at := w.at + 1, queue := w.queue + [host]))
      else Finished(w', None)
  }

  function ChooseNext(cfg: Config, w: Walk, candidates: seq<Url>): Phase
    requires w.at < |cfg.chain|
  {
    if w.queue == [] then Finished(w, None)
    else
      var host, w' := w.queue[0], w.(queue := w.queue[1..]);
      var op := OperationOf(cfg.chain[w.at]);
      if cfg.reuse && op in w.outcomes then Resolve(cfg, w', host, Some(w.outcomes[op]))
      else if IsCluster(cfg.chain[w.at]) then Passing(w', host, candidates, [], false)
      else Probing(w'.(sent := w.sent + [op]), host)
  }

  function PassNext(cfg: Config, p: Phase): Phase
    requires p.Passing? && p.w.at < |cfg.chain|
  {
    if p.rest == [] then Resolve(cfg, p.w, p.host, if p.got then Some(SortDedup(p.found)) else None)
    else if InList(cfg.endpoint, p.rest[0], p.found) then Passing(p.w, p.host, p.rest[1..], p.found, p.got)
    else Asking(p.w.(sent := p.w.sent + [Cluster]), p.host, p.rest[1..], p.found, p.got, p.rest[0])
  }

  function AskNext(p: Phase, answer: Option<seq<Url>>): Phase
    requires p.Asking?
  {
    match answer
    case None => Passing(p.w, p.host, p.rest, p.found, p.got)
    case Some(nodes) =>
      var found := SortDedup(p.found + nodes);
      if nodes != [] then Merging(p.w, p.host, p.rest, found)
      else Passing(p.w, p.host, p.rest, found, true)
  }

  predicate InChain(cfg: Config, p: Phase) {
    cfg.chain != [] && (p.Begun? || p.Cancelled? || p.w.at < |cfg.chain|)
  }

  predicate Ended(p: Phase) {
    p.Finished? || p.Cancelled?
  }

  ghost predicate Enabled(cfg: Config, v: View, p: Phase, e: Event) {
    && InChain(cfg, p)
    && match e
       case Load(order) => p.Begun? && multiset(order) == multiset(v.live)
       case Choose(candidates) => p.Choosing? && multiset(candidates) == multiset(ClusterCandidates(cfg, v))
       case Reply(_) => p.Probing? || p.Asking?
       case Pass => p.Passing?
       case Merge => p.Merging?
       case Publish => p.Publishing?
       case Cancel => !Ended(p)
  }

  ghost function Advance(cfg: Config, gen: nat, v: View, p: Phase, e: Event): (r: (View, Phase))
    requires Enabled(cfg, v, p, e)
    ensures InChain(cfg, r.1)
  {
    match e
    case Load(order) =>
      (v, Choosing(Walk(0, AppendMissing(order, cfg.additional), false, cfg.outcomes, [])))
    case Choose(candidates) => (v, ChooseNext(cfg, p.w, candidates))
    case Reply(answer) => (v, if p.Probing? then Resolve(cfg, p.w, p.host, answer) else AskNext(p, answer))
    case Pass => (v, PassNext(cfg, p))
    case Merge => (PublishPartial(v, gen, p.found), Passing(p.w, p.host, p.rest, p.found, true))
    case Publish => (PublishComplete(v, gen, p.nodes), Finished(p.w, Some(p.nodes)))
    case Cancel => (v, Cancelled)
  }

  // ----- Termination -----

  datatype Rank = Rank(scopes: nat, seeds: nat, queue: nat, inner: nat)

  predicate Below(a: Rank, b: Rank) {
    || a.scopes < b.scopes
    || (a.scopes == b.scopes && a.seeds < b.seeds)
    || (a.scopes == b.scopes && a.seeds == b.seeds && a.queue < b.queue)
    || (a.scopes == b.scopes && a.seeds == b.seeds && a.queue == b.queue && a.inner < b.inner)
  }

  function WalkRank(cfg: Config, w: Walk, inner: nat): Rank
    requires w.at < |cfg.chain|
  {
    Rank(|cfg.chain| - w.at, if w.usingSeeds then 0 else 1, |w.queue|, inner)
  }

  // Scopes left, seeds not yet loaded, queue length; inside a cluster pass,
  // the candidates left.
  function RankOf(cfg: Config, p: Phase): Rank
    requires InChain(cfg, p)
  {
    match p
    case Begun => Rank(|cfg.chain| + 1, 0, 0, 0)
    case Choosing(w) => WalkRank(cfg, w, 0)
    case Probing(w, _) => WalkRank(cfg, w, 1)
    case Passing(w, _, rest, _, _) => WalkRank(cfg, w, 3 * |rest| + 2)
    case Merging(w, _, rest, _) => WalkRank(cfg, w, 3 * |rest| + 3)
    case Asking(w, _, rest, _, _, _) => WalkRank(cfg, w, 3 * |rest| + 4)
    case Publishing(_, _) => Rank(0, 0, 0, 1)
    case Finished(_, _) => Rank(0, 0, 0, 0)
    case Cancelled => Rank(0, 0, 0, 0)
  }

  lemma ResolveDescends(cfg: Config, w: Walk, host: Url, result: Option<seq<Url>>, inner: nat)
    requires w.at < |cfg.chain| && inner > 0
    ensures Below(RankOf(cfg, Resolve(cfg, w, host, result)), WalkRank(cfg, w, inner))
  {
  }

  lemma ChooseDescends(cfg: Config, w: Walk, candidates: seq<Url>)
    requires w.at < |cfg.chain|
    ensures Below(RankOf(cfg, ChooseNext(cfg, w, candidates)), WalkRank(cfg, w, 0))
  {
    if w.queue != [] {
      var op := OperationOf(cfg.chain[w.at]);
      if cfg.reuse && op in w.outcomes {
        ResolveDescends(cfg, w.(queue := w.queue[1..]), w.queue[0], Some(w.outcomes[op]), 1);
      }
    }
  }

  lemma StepDescends(cfg: Config, gen: nat, v: View, p: Phase, e: Event)
    requires Enabled(cfg, v, p, e)
    ensures Below(RankOf(cfg, Advance(cfg, gen, v, p, e).1), RankOf(cfg, p))
  {
    match e
    case Load(_) =>
    case Choose(candidates) => ChooseDescends(cfg, p.w, candidates);
    case Reply(answer) => if p.Probing? { ResolveDescends(cfg, p.w, p.host, answer, 1); }
    case Pass =>
      if p.rest == [] {
        ResolveDescends(cfg, p.w, p.host, if p.got then Some(SortDedup(p.found)) else None, 2);
      }
    case Merge =>
    case Publish =>
    case Cancel =>
  }

  ghost predicate OwnStep(cfg: Config, gen: nat, p: Phase, q: Phase) {
    exists v, e :: Enabled(cfg, v, p, e) && q == Advance(cfg, gen, v, p, e).1
  }

  // A refresh that keeps being scheduled ends, whatever the hosts answer and
  // whatever other refreshes publish between its steps.
  lemma EveryRefreshEnds(cfg: Config, gen: nat, run: nat -> Phase)
    requires InChain(cfg, run(0))
    requires forall n: nat :: !Ended(run(n)) ==> OwnStep(cfg, gen, run(n), run(n + 1))
    ensures exists n: nat :: Ended(run(n))
  {
    EndsFrom(cfg, gen, run, 0);
  }

  lemma {:induction false} EndsFrom(cfg: Config, gen: nat, run: nat -> Phase, n: nat)
    requires InChain(cfg, run(n))
    requires forall k: nat :: !Ended(run(k)) ==> OwnStep(cfg, gen, run(k), run(k + 1))
    ensures exists k: nat :: Ended(run(k))
    decreases RankOf(cfg, run(n)).scopes, RankOf(cfg, run(n)).seeds, RankOf(cfg, run(n)).queue, RankOf(cfg, run(n)).inner
  {
    if !Ended(run(n)) {
      var v, e :| Enabled(cfg, v, run(n), e) && run(n + 1) == Advance(cfg, gen, v, run(n), e).1;
      StepDescends(cfg, gen, v, run(n), e);
      EndsFrom(cfg, gen, run, n + 1);
    }
  }

  // ----- Request bound -----

  // What the cluster levels from `at` on may cost, at `most` candidates each.
  function ClusterCost(chain: seq<Level>, at: nat, most: nat): nat
    requires at <= |chain|
    decreases |chain| - at
  {
    if at == |chain| then 0
    else (if IsCluster(chain[at]) then most else 0) + ClusterCost(chain, at + 1, most)
  }

  function WalkBudget(cfg: Config, w: Walk): nat
    requires w.at < |cfg.chain|
  {
    |w.sent| + |w.queue| + (if w.usingSeeds then 0 else |cfg.seeds|) + (|cfg.chain| - 1 - w.at)
  }

  // Requests made so far plus the most that can still be made.
  function Budget(cfg: Config, p: Phase, most: nat): nat
    requires InChain(cfg, p) && !p.Begun?
  {
    match p
    case Choosing(w) => WalkBudget(cfg, w) + ClusterCost(cfg.chain, w.at, most)
    case Probing(w, _) => WalkBudget(cfg, w) + ClusterCost(cfg.chain, w.at, most)
    case Passing(w, _, rest, _, _) => WalkBudget(cfg, w) + |rest| + ClusterCost(cfg.chain, w.at + 1, most)
    case Asking(w, _, rest, _, _, _) => WalkBudget(cfg, w) + |rest| + ClusterCost(cfg.chain, w.at + 1, most)
    case Merging(w, _, rest, _) => WalkBudget(cfg, w) + |rest| + ClusterCost(cfg.chain, w.at + 1, most)
    case Publishing(w, _) => |w.sent|
    case Finished(w, _) => |w.sent|
    case Cancelled => 0
  }

  lemma ResolveBudget(cfg: Config, w: Walk, host: Url, result: Option<seq<Url>>, most: nat)
    requires w.at < |cfg.chain|
    ensures Budget(cfg, Resolve(cfg, w, host, result), most)
         <= WalkBudget(cfg, w) + ClusterCost(cfg.chain, w.at + 1, most)
            + if result.None? && !IsCluster(cfg.chain[w.at]) then ClusterCost(cfg.chain, w.at, most) else 0
  {
  }

  predicate ProbesAreScoped(cfg: Config, p: Phase) {
    InChain(cfg, p) && (p.Probing? ==> !IsCluster(cfg.chain[p.w.at]))
  }

  lemma ChooseBudget(cfg: Config, w: Walk, candidates: seq<Url>, most: nat)
    requires w.at < |cfg.chain| && |candidates| <= most
    ensures var q := ChooseNext(cfg, w, candidates);
            ProbesAreScoped(cfg, q) && !q.Begun? && Budget(cfg, q, most) <= Budget(cfg, Choosing(w), most)
  {
    if w.queue != [] {
      var w' := w.(queue := w.queue[1..]);
      var op := OperationOf(cfg.chain[w.at]);
      if cfg.reuse && op in w.outcomes { ResolveBudget(cfg, w', w.queue[0], Some(w.outcomes[op]), most); }
    }
  }

  lemma PassBudget(cfg: Config, p: Phase, most: nat)
    requires p.Passing? && p.w.at < |cfg.chain|
    ensures var q := PassNext(cfg, p);
            ProbesAreScoped(cfg, q) && !q.Begun? && Budget(cfg, q, most) <= Budget(cfg, p, most)
  {
    if p.rest == [] {
      ResolveBudget(cfg, p.w, p.host, if p.got then Some(SortDedup(p.found)) else None, most);
    }
  }

  lemma BudgetNeverGrows(cfg: Config, gen: nat, v: View, p: Phase, e: Event, most: nat)
    requires Enabled(cfg, v, p, e) && !p.Begun? && ProbesAreScoped(cfg, p)
    requires e.Choose? ==> |e.candidates| <= most
    ensures var q := Advance(cfg, gen, v, p, e).1;
            !q.Begun? && ProbesAreScoped(cfg, q) && Budget(cfg, q, most) <= Budget(cfg, p, most)
  {
    match e
    case Load(_) =>
    case Choose(candidates) => ChooseBudget(cfg, p.w, candidates, most);
    case Reply(answer) => if p.Probing? { ResolveBudget(cfg, p.w, p.host, answer, most); }
    case Pass => PassBudget(cfg, p, most);
    case Merge =>
    case Publish =>
    case Cancel =>
  }
}
