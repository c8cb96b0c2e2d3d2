/** What a refresh does over its whole life, while other refreshes publish
    between any two of its steps. */
module WalkResults {
  import opened Wrappers
  import opened Sorting
  import opened RoutingScopes
  import opened Refresh

  // One step of a refresh, with the view as it was found.
  datatype Moment = Moment(v: View, e: Event)

  // The phase a refresh reaches from `p` by the given steps, if they are possible.
  ghost function After(cfg: Config, gen: nat, p: Phase, ms: seq<Moment>): (r: Option<Phase>)
    ensures r.Some? ==> InChain(cfg, r.value)
  {
    if ms == [] then if InChain(cfg, p) then Some(p) else None
    else
      var m := ms[|ms| - 1];
      match After(cfg, gen, p, ms[..|ms| - 1])
      case None => None
      case Some(q) => if Enabled(cfg, m.v, q, m.e) then Some(Advance(cfg, gen, m.v, q, m.e).1) else None
  }

  predicate HasWalk(p: Phase) {
    !p.Begun? && !p.Cancelled?
  }

  lemma {:induction false} LoadComesFirst(cfg: Config, gen: nat, ms: seq<Moment>)
    requires After(cfg, gen, Begun, ms) == Some(Begun)
    ensures ms == []
  {
  }

  // ----- What it reads of the view -----

  // Besides loading its queue, a refresh reads membership only to list the
  // candidates of a cluster pass.
  predicate Looks(cfg: Config, p: Phase, e: Event) {
    && e.Choose? && p.Choosing? && p.w.queue != [] && p.w.at < |cfg.chain| && IsCluster(cfg.chain[p.w.at])
    && !(cfg.reuse && OperationOf(cfg.chain[p.w.at]) in p.w.outcomes)
  }

  ghost function ClusterLooks(cfg: Config, gen: nat, ms: seq<Moment>): seq<View>
    requires After(cfg, gen, Begun, ms).Some?
  {
    if ms == [] then []
    else
      var before, m := ms[..|ms| - 1], ms[|ms| - 1];
      ClusterLooks(cfg, gen, before) + if Looks(cfg, After(cfg, gen, Begun, before).value, m.e) then [m.v] else []
  }

  // The nodes there are to ask.
  function Listed(cfg: Config, v: View): set<Url> {
    Elements(v.live + cfg.seeds + cfg.additional)
  }

  // ----- How many requests -----

  lemma {:induction false} BudgetOverLife(cfg: Config, gen: nat, ms: seq<Moment>, most: nat)
    requires ms != [] && After(cfg, gen, Begun, ms).Some?
    requires forall m :: m in ms && m.e.Choose? ==> |m.e.candidates| <= most
    ensures var p := After(cfg, gen, Begun, ms).value;
            && !p.Begun? && ProbesAreScoped(cfg, p)
            && (ms[0].e.Load? ==>
                  Budget(cfg, p, most) <= |AppendMissing(ms[0].e.order, cfg.additional)| + |cfg.seeds|
                                          + |cfg.chain| - 1 + ClusterCost(cfg.chain, 0, most))
            && (!ms[0].e.Load? ==> p.Cancelled?)
  {
    var n := |ms| - 1;
    var m := ms[n];
    if n > 0 {
      BudgetOverLife(cfg, gen, ms[..n], most);
      BudgetNeverGrows(cfg, gen, m.v, After(cfg, gen, Begun, ms[..n]).value, m.e, most);
    } else {
      assert After(cfg, gen, Begun, ms[..n]) == Some(Begun);
    }
  }

  lemma {:induction false} NoClusterNoCost(chain: seq<Level>, at: nat, most: nat)
    requires at <= |chain| && forall l :: l in chain ==> !IsCluster(l)
    ensures ClusterCost(chain, at, most) == 0
    decreases |chain| - at
  {
    if at < |chain| {
      NoClusterNoCost(chain, at + 1, most);
    }
  }

  // However the hosts answer, a refresh asks at most one request per host in
  // its queue, one per seed and one per extra scope; each cluster level adds
  // at most one per candidate.
  lemma RequestBound(cfg: Config, gen: nat, ms: seq<Moment>, most: nat)
    requires ms != [] && ms[0].e.Load? && After(cfg, gen, Begun, ms).Some?
    requires HasWalk(After(cfg, gen, Begun, ms).value)
    requires forall m :: m in ms && m.e.Choose? ==> |m.e.candidates| <= most
    ensures var hosts := |AppendMissing(ms[0].e.order, cfg.additional)| + |cfg.seeds|;
            var requests := |After(cfg, gen, Begun, ms).value.w.sent|;
            && requests <= hosts + |cfg.chain| - 1 + ClusterCost(cfg.chain, 0, most)
            && ((forall l :: l in cfg.chain ==> !IsCluster(l)) ==> requests <= hosts + |cfg.chain| - 1)
  {
    BudgetOverLife(cfg, gen, ms, most);
    if forall l :: l in cfg.chain ==> !IsCluster(l) {
      NoClusterNoCost(cfg.chain, 0, most);
    }
  }

  // ----- What it publishes -----

  // A host that responds gives each operation its one answer.
  datatype World = World(responds: Url -> bool, answer: Operation -> seq<Url>)

  ghost function ResultOf(world: World, op: Operation): seq<Url> {
    if op == Cluster then SortDedup(world.answer(op)) else world.answer(op)
  }

  ghost function FirstFrom(world: World, chain: seq<Level>, at: nat): Option<seq<Url>>
    requires at <= |chain|
    decreases |chain| - at
  {
    if at == |chain| then None
    else if ResultOf(world, OperationOf(chain[at])) != [] then Some(ResultOf(world, OperationOf(chain[at])))
    else FirstFrom(world, chain, at + 1)
  }

  // The answer of the first scope in the chain that has a node.
  ghost function Expected(world: World, chain: seq<Level>): Option<seq<Url>> {
    FirstFrom(world, chain, 0)
  }

  ghost predicate Responder(world: World, hosts: seq<Url>) {
    exists u :: u in hosts && world.responds(u)
  }

  ghost predicate Honest(world: World, cfg: Config, p: Phase, e: Event) {
    && (p.Probing? && e.Reply? && p.w.at < |cfg.chain| ==>
          e.answer == if world.responds(p.host) then Some(world.answer(OperationOf(cfg.chain[p.w.at]))) else None)
    && (p.Asking? && e.Reply? ==> e.answer == if world.responds(p.node) then Some(world.answer(Cluster)) else None)
  }

  ghost predicate ConfigOk(world: World, cfg: Config) {
    && (forall l :: l in cfg.chain ==> (IsCluster(l) <==> OperationOf(l) == Cluster))
    && OutcomesOk(world, cfg.outcomes)
  }

  ghost predicate OutcomesOk(world: World, outcomes: map<Operation, seq<Url>>) {
    forall op :: op in outcomes ==> outcomes[op] == ResultOf(world, op)
  }

  ghost predicate Known(world: World, cfg: Config, w: Walk) {
    && w.at < |cfg.chain|
    && (forall i :: 0 <= i < w.at ==> ResultOf(world, OperationOf(cfg.chain[i])) == [])
    && OutcomesOk(world, w.outcomes)
  }

  // Everything a refresh has learnt is right.
  ghost predicate Sound(world: World, cfg: Config, p: Phase) {
    match p
    case Begun => true
    case Cancelled => true
    case Choosing(w) => Known(world, cfg, w)
    case Probing(w, _) => Known(world, cfg, w) && !IsCluster(cfg.chain[w.at])
    case Passing(w, _, _, found, got) =>
      Known(world, cfg, w) && IsCluster(cfg.chain[w.at]) && found == if got then ResultOf(world, Cluster) else []
    case Asking(w, _, _, found, got, _) =>
      Known(world, cfg, w) && IsCluster(cfg.chain[w.at]) && found == if got then ResultOf(world, Cluster) else []
    case Merging(w, _, _, found) =>
      Known(world, cfg, w) && IsCluster(cfg.chain[w.at]) && found == ResultOf(world, Cluster) != []
    case Publishing(w, nodes) => OutcomesOk(world, w.outcomes) && nodes != [] && Expected(world, cfg.chain) == Some(nodes)
    case Finished(w, published) =>
      OutcomesOk(world, w.outcomes)
      && (published.Some? ==> published.value != [] && Expected(world, cfg.chain) == published)
  }

  lemma {:induction false} FirstFromSkips(world: World, chain: seq<Level>, from: nat, at: nat)
    requires from <= at <= |chain|
    requires forall i :: from <= i < at ==> ResultOf(world, OperationOf(chain[i])) == []
    ensures FirstFrom(world, chain, from) == FirstFrom(world, chain, at)
    decreases at - from
  {
    if from < at {
      FirstFromSkips(world, chain, from + 1, at);
    }
  }

  lemma ResolveSound(world: World, cfg: Config, w: Walk, host: Url, result: Option<seq<Url>>)
    requires Known(world, cfg, w)
    requires result.Some? ==> result.value == ResultOf(world, OperationOf(cfg.chain[w.at]))
    ensures Sound(world, cfg, Resolve(cfg, w, host, result))
  {
    FirstFromSkips(world, cfg.chain, 0, w.at);
  }

  // A second responding candidate adds nothing to the union.
  lemma UnionOfSameAnswer(world: World, found: seq<Url>)
    requires found == [] || found == ResultOf(world, Cluster)
    ensures SortDedup(found + world.answer(Cluster)) == ResultOf(world, Cluster)
    ensures SortDedup(ResultOf(world, Cluster)) == ResultOf(world, Cluster)
    ensures ResultOf(world, Cluster) == [] <==> world.answer(Cluster) == []
  {
    var a := world.answer(Cluster);
    SortDedupMeaning(a);
    assert Elements(found + a) == Elements(a) by {
      forall x | x in found ensures x in Elements(a) { assert x in Elements(SortDedup(a)); }
    }
    SortDedupCanonical(found + a, a);
    SortDedupFixed(SortDedup(a));
  }

  lemma StepSound(world: World, cfg: Config, gen: nat, v: View, p: Phase, e: Event)
    requires ConfigOk(world, cfg) && Enabled(cfg, v, p, e) && Honest(world, cfg, p, e) && Sound(world, cfg, p)
    ensures Sound(world, cfg, Advance(cfg, gen, v, p, e).1)
  {
    match e
    case Load(_) =>
    case Choose(candidates) =>
      if p.w.queue != [] {
        var op := OperationOf(cfg.chain[p.w.at]);
        if cfg.reuse && op in p.w.outcomes {
          ResolveSound(world, cfg, p.w.(queue := p.w.queue[1..]), p.w.queue[0], Some(p.w.outcomes[op]));
        }
      }
    case Reply(answer) =>
      if p.Probing? {
        ResolveSound(world, cfg, p.w, p.host, answer);
      } else if answer.Some? {
        UnionOfSameAnswer(world, p.found);
      }
    case Pass =>
      UnionOfSameAnswer(world, []);
      if p.rest == [] {
        ResolveSound(world, cfg, p.w, p.host, if p.got then Some(SortDedup(p.found)) else None);
      }
    case Merge =>
    case Publish =>
    case Cancel =>
  }

  // A scoped level that the walk will come to and has to ask a host about.
  ghost predicate MustAsk(world: World, cfg: Config, outcomes: map<Operation, seq<Url>>, at: nat, i: nat) {
    && at <= i < |cfg.chain| && !IsCluster(cfg.chain[i])
    && !(cfg.reuse && OperationOf(cfg.chain[i]) in outcomes)
    && forall j :: 0 <= j < i ==> ResultOf(world, OperationOf(cfg.chain[j])) == []
  }

  ghost predicate ScopedAhead(world: World, cfg: Config, outcomes: map<Operation, seq<Url>>, at: nat) {
    exists i: nat :: MustAsk(world, cfg, outcomes, at, i)
  }

  ghost predicate Reach(world: World, cfg: Config, w: Walk, current: seq<Url>) {
    Responder(world, w.queue + current) || (!w.usingSeeds && Responder(world, cfg.seeds))
  }

  ghost predicate Expectant(world: World, cfg: Config, w: Walk, current: seq<Url>) {
    if ScopedAhead(world, cfg, w.outcomes, w.at)
    then Reach(world, cfg, w, current) && (w.queue + current == [] ==> w.usingSeeds)
    else w.queue + current != []
  }

  // While a scoped level has to be asked a responding host is never lost: it is
  // queued, being asked, or a seed that is still to be loaded.
  ghost predicate Hopeful(world: World, cfg: Config, p: Phase) {
    match p
    case Begun => true
    case Cancelled => true
    case Choosing(w) => Expectant(world, cfg, w, [])
    case Probing(w, host) => Reach(world, cfg, w, [host])
    case Passing(w, host, rest, _, got) => Expectant(world, cfg, w, [host]) && (got || Responder(world, rest))
    case Asking(w, host, rest, _, got, node) =>
      Expectant(world, cfg, w, [host]) && (got || Responder(world, [node] + rest))
    case Merging(w, host, _, _) => Expectant(world, cfg, w, [host])
    case Publishing(_, _) => true
    case Finished(_, published) => published == Expected(world, cfg.chain)
  }

  lemma ReachQueue(world: World, cfg: Config, w: Walk, host: Url)
    requires Reach(world, cfg, w, [host])
    ensures Reach(world, cfg, w.(queue := w.queue + [host]), [])
    ensures !world.responds(host) ==> Reach(world, cfg, w, [])
  {
    if Responder(world, w.queue + [host]) {
      var u :| u in w.queue + [host] && world.responds(u);
      assert u in (w.queue + [host]) + [];
      if !world.responds(host) { assert u in w.queue + []; }
    }
  }

  // An empty answer: the host goes back to the queue, for the next level.
  lemma EmptyIsExpectant(world: World, cfg: Config, w: Walk, host: Url, op: Operation)
    requires Expectant(world, cfg, w, [host])
    ensures Expectant(world, cfg, w.(outcomes := w.outcomes[op := []], at := w.at + 1, queue := w.queue + [host]), [])
  {
    var outcomes := w.outcomes[op := []];
    assert w.queue + [host] + [] != [];
    if ScopedAhead(world, cfg, outcomes, w.at + 1) {
      var i: nat :| MustAsk(world, cfg, outcomes, w.at + 1, i);
      assert MustAsk(world, cfg, w.outcomes, w.at, i);
      ReachQueue(world, cfg, w, host);
    }
  }

  lemma AnswerIsHopeful(world: World, cfg: Config, w: Walk, host: Url, nodes: seq<Url>)
    requires Known(world, cfg, w) && Expectant(world, cfg, w, [host])
    requires nodes == ResultOf(world, OperationOf(cfg.chain[w.at]))
    ensures Hopeful(world, cfg, Resolve(cfg, w, host, Some(nodes)))
  {
    FirstFromSkips(world, cfg.chain, 0, w.at);
    if nodes == [] {
      EmptyIsExpectant(world, cfg, w, host, OperationOf(cfg.chain[w.at]));
    }
  }

  lemma ReplyIsHopeful(world: World, cfg: Config, w: Walk, host: Url, answer: Option<seq<Url>>)
    requires Known(world, cfg, w) && !IsCluster(cfg.chain[w.at]) && Reach(world, cfg, w, [host])
    requires answer.Some? ==> answer.value == ResultOf(world, OperationOf(cfg.chain[w.at]))
    requires answer.None? ==> !world.responds(host)
    ensures Hopeful(world, cfg, Resolve(cfg, w, host, answer))
  {
    assert w.queue + [host] != [];
    match answer
    case Some(nodes) =>
      if !ScopedAhead(world, cfg, w.outcomes, w.at) {
        assert Expectant(world, cfg, w, [host]);
      }
      AnswerIsHopeful(world, cfg, w, host, nodes);
    case None => FailureIsHopeful(world, cfg, w, host);
  }

  lemma FailureIsHopeful(world: World, cfg: Config, w: Walk, host: Url)
    requires w.at < |cfg.chain| && !IsCluster(cfg.chain[w.at])
    requires Reach(world, cfg, w, [host]) && !world.responds(host)
    ensures Hopeful(world, cfg, Resolve(cfg, w, host, None))
  {
    ReachQueue(world, cfg, w, host);
    assert w.queue + [] == w.queue && cfg.seeds + [] == cfg.seeds;
  }

  ghost predicate SomeoneResponds(world: World, cfg: Config, v: View) {
    exists u :: u in Listed(cfg, v) && world.responds(u)
  }

  // The queue a refresh starts with is not empty.
  predicate HasQueue(cfg: Config, v: View) {
    v.live != [] || cfg.additional != []
  }

  // What the load has to find.
  ghost predicate GoodStart(world: World, cfg: Config, v: View) {
    HasQueue(cfg, v) && (ScopedAhead(world, cfg, cfg.outcomes, 0) ==> SomeoneResponds(world, cfg, v))
  }

  ghost predicate Available(world: World, cfg: Config, v: View) {
    HasQueue(cfg, v) && SomeoneResponds(world, cfg, v)
  }

  lemma CandidatesRespond(world: World, cfg: Config, v: View, candidates: seq<Url>)
    requires multiset(candidates) == multiset(ClusterCandidates(cfg, v))
    ensures SomeoneResponds(world, cfg, v) <==> Responder(world, candidates)
  {
    var all := v.live + cfg.seeds + cfg.additional;
    SortDedupMeaning(all);
    forall u ensures u in candidates <==> u in Listed(cfg, v) {
      assert u in candidates <==> u in multiset(candidates);
      assert u in SortDedup(all) <==> u in Elements(SortDedup(all));
    }
  }

  lemma LoadHopeful(world: World, cfg: Config, v: View, order: seq<Url>)
    requires GoodStart(world, cfg, v) && multiset(order) == multiset(v.live)
    ensures Expectant(world, cfg, Walk(0, AppendMissing(order, cfg.additional), false, cfg.outcomes, []), [])
  {
    var q := AppendMissing(order, cfg.additional);
    assert |multiset(order)| == |multiset(v.live)|;
    assert cfg.additional != [] ==> cfg.additional[0] in q;
    assert q + [] == q != [];
    if ScopedAhead(world, cfg, cfg.outcomes, 0) {
      var u :| u in Listed(cfg, v) && world.responds(u);
      if u !in cfg.seeds {
        assert u in v.live ==> u in multiset(order);
        assert u in q;
      }
    }
  }

  lemma StepHopeful(world: World, cfg: Config, gen: nat, v: View, p: Phase, e: Event)
    requires ConfigOk(world, cfg) && Enabled(cfg, v, p, e) && Honest(world, cfg, p, e)
    requires Sound(world, cfg, p) && Hopeful(world, cfg, p)
    requires (e.Load? ==> GoodStart(world, cfg, v)) && (Looks(cfg, p, e) ==> SomeoneResponds(world, cfg, v))
    ensures Hopeful(world, cfg, Advance(cfg, gen, v, p, e).1)
  {
    match e
    case Load(order) => LoadHopeful(world, cfg, v, order);
    case Choose(candidates) => ChooseHopeful(world, cfg, v, p.w, candidates);
    case Reply(answer) =>
      if p.Probing? {
        ReplyIsHopeful(world, cfg, p.w, p.host, answer);
      } else if !p.got && answer.None? {
        var u :| u in [p.node] + p.rest && world.responds(u);
        assert u in p.rest;
      }
    case Pass => PassHopeful(world, cfg, p);
    case Merge =>
    case Publish =>
    case Cancel =>
  }

  lemma ChooseHopeful(world: World, cfg: Config, v: View, w: Walk, candidates: seq<Url>)
    requires ConfigOk(world, cfg) && Known(world, cfg, w) && Expectant(world, cfg, w, [])
    requires multiset(candidates) == multiset(ClusterCandidates(cfg, v))
    requires Looks(cfg, Choosing(w), Choose(candidates)) ==> SomeoneResponds(world, cfg, v)
    ensures Hopeful(world, cfg, ChooseNext(cfg, w, candidates))
  {
    CandidatesRespond(world, cfg, v, candidates);
    assert w.queue + [] == w.queue != [];
    var host, w' := w.queue[0], w.(queue := w.queue[1..]);
    TakenIsExpectant(world, cfg, w);
    var op := OperationOf(cfg.chain[w.at]);
    if cfg.reuse && op in w.outcomes {
      AnswerIsHopeful(world, cfg, w', host, w.outcomes[op]);
    } else if !IsCluster(cfg.chain[w.at]) {
      assert MustAsk(world, cfg, w.outcomes, w.at, w.at);
    }
  }

  lemma TakenIsExpectant(world: World, cfg: Config, w: Walk)
    requires w.queue != [] && Expectant(world, cfg, w, [])
    ensures Expectant(world, cfg, w.(queue := w.queue[1..]), [w.queue[0]])
  {
    assert w.queue + [] == w.queue == [w.queue[0]] + w.queue[1..];
    assert w.queue[1..] + [w.queue[0]] != [];
    if Responder(world, w.queue) {
      var u :| u in w.queue && world.responds(u);
      assert u in w.queue[1..] + [w.queue[0]];
    }
  }

  lemma PassHopeful(world: World, cfg: Config, p: Phase)
    requires ConfigOk(world, cfg) && p.Passing? && Sound(world, cfg, p) && Hopeful(world, cfg, p)
    ensures Hopeful(world, cfg, PassNext(cfg, p))
  {
    UnionOfSameAnswer(world, []);
    if p.rest == [] {
      assert p.got;
      AnswerIsHopeful(world, cfg, p.w, p.host, SortDedup(p.found));
    } else if !p.got {
      assert !InList(cfg.endpoint, p.rest[0], p.found);
      assert [p.rest[0]] + p.rest[1..] == p.rest;
    }
  }

  ghost predicate HonestLife(world: World, cfg: Config, gen: nat, ms: seq<Moment>) {
    forall k :: 0 <= k < |ms| ==>
      (After(cfg, gen, Begun, ms[..k]).Some? ==> Honest(world, cfg, After(cfg, gen, Begun, ms[..k]).value, ms[k].e))
  }

  lemma HonestPrefix(world: World, cfg: Config, gen: nat, ms: seq<Moment>, n: nat)
    requires n <= |ms| && HonestLife(world, cfg, gen, ms)
    ensures HonestLife(world, cfg, gen, ms[..n])
  {
    forall k | 0 <= k < n ensures ms[..n][..k] == ms[..k] && ms[..n][k] == ms[k] {
    }
  }

  lemma {:induction false} LifeSound(world: World, cfg: Config, gen: nat, ms: seq<Moment>)
    requires ConfigOk(world, cfg) && HonestLife(world, cfg, gen, ms) && After(cfg, gen, Begun, ms).Some?
    ensures Sound(world, cfg, After(cfg, gen, Begun, ms).value)
  {
    if ms != [] {
      var n := |ms| - 1;
      HonestPrefix(world, cfg, gen, ms, n);
      LifeSound(world, cfg, gen, ms[..n]);
      StepSound(world, cfg, gen, ms[n].v, After(cfg, gen, Begun, ms[..n]).value, ms[n].e);
    }
  }

  // ----- Exactly when it publishes -----

  // Whether the load and each cluster pass found what they need.
  ghost predicate LooksWell(world: World, cfg: Config, gen: nat, ms: seq<Moment>)
    requires After(cfg, gen, Begun, ms).Some?
  {
    && (ms != [] && ms[0].e.Load? ==> GoodStart(world, cfg, ms[0].v))
    && forall v :: v in ClusterLooks(cfg, gen, ms) ==> SomeoneResponds(world, cfg, v)
  }

  lemma {:induction false} LifeHopeful(world: World, cfg: Config, gen: nat, ms: seq<Moment>)
    requires ConfigOk(world, cfg) && HonestLife(world, cfg, gen, ms) && After(cfg, gen, Begun, ms).Some?
    requires LooksWell(world, cfg, gen, ms)
    ensures Hopeful(world, cfg, After(cfg, gen, Begun, ms).value)
  {
    if ms != [] {
      var n := |ms| - 1;
      HonestPrefix(world, cfg, gen, ms, n);
      LifeSound(world, cfg, gen, ms[..n]);
      LifeHopeful(world, cfg, gen, ms[..n]);
      if ms[n].e.Load? {
        LoadComesFirst(cfg, gen, ms[..n]);
      }
      StepHopeful(world, cfg, gen, ms[n].v, After(cfg, gen, Begun, ms[..n]).value, ms[n].e);
    }
  }

  // A cluster pass that reaches nobody ends the walk without a result.
  ghost predicate Doomed(world: World, p: Phase) {
    match p
    case Passing(_, _, rest, found, got) => !got && found == [] && !Responder(world, rest)
    case Asking(_, _, rest, found, got, node) =>
      !got && found == [] && !Responder(world, rest) && !world.responds(node)
    case Finished(_, published) => published.None?
    case Cancelled => true
    case _ => false
  }

  lemma StepDoomed(world: World, cfg: Config, gen: nat, v: View, p: Phase, e: Event)
    requires Enabled(cfg, v, p, e) && Honest(world, cfg, p, e)
    requires (p.Passing? || p.Asking? ==> IsCluster(cfg.chain[p.w.at]))
    requires Doomed(world, p) || (Looks(cfg, p, e) && !SomeoneResponds(world, cfg, v))
    ensures Doomed(world, Advance(cfg, gen, v, p, e).1)
  {
    if Looks(cfg, p, e) {
      CandidatesRespond(world, cfg, v, e.candidates);
    }
  }

  lemma {:induction false} BadLookDooms(world: World, cfg: Config, gen: nat, ms: seq<Moment>, v: View)
    requires ConfigOk(world, cfg) && HonestLife(world, cfg, gen, ms) && After(cfg, gen, Begun, ms).Some?
    requires v in ClusterLooks(cfg, gen, ms) && !SomeoneResponds(world, cfg, v)
    ensures Doomed(world, After(cfg, gen, Begun, ms).value)
  {
    var n := |ms| - 1;
    HonestPrefix(world, cfg, gen, ms, n);
    LifeSound(world, cfg, gen, ms[..n]);
    if v in ClusterLooks(cfg, gen, ms[..n]) {
      BadLookDooms(world, cfg, gen, ms[..n], v);
    }
    StepDoomed(world, cfg, gen, ms[n].v, After(cfg, gen, Begun, ms[..n]).value, ms[n].e);
  }

  // A walk that nobody answers does not get past the scoped level `i`.
  ghost predicate Stuck(world: World, cfg: Config, p: Phase, i: nat) {
    && !p.Publishing? && !(p.Finished? && p.published.Some?)
    && (HasWalk(p) && !p.Finished? ==>
          && MustAsk(world, cfg, p.w.outcomes, p.w.at, i) && !Responder(world, p.w.queue))
    && (p.Probing? || p.Passing? || p.Asking? || p.Merging? ==> !world.responds(p.host))
  }

  lemma NobodyQueued(world: World, cfg: Config, v: View, order: seq<Url>)
    requires !SomeoneResponds(world, cfg, v) && multiset(order) == multiset(v.live)
    ensures !Responder(world, AppendMissing(order, cfg.additional)) && !Responder(world, cfg.seeds)
  {
    forall u | u in AppendMissing(order, cfg.additional) || u in cfg.seeds ensures !world.responds(u) {
      if u in order { assert u in multiset(order); }
      assert u in Listed(cfg, v);
    }
  }

  lemma ResolveStuck(world: World, cfg: Config, w: Walk, host: Url, result: Option<seq<Url>>, i: nat)
    requires MustAsk(world, cfg, w.outcomes, w.at, i) && !Responder(world, cfg.seeds)
    requires !Responder(world, w.queue) && !world.responds(host)
    requires result.Some? ==> result.value == ResultOf(world, OperationOf(cfg.chain[w.at])) && w.at != i
    requires result.Some? ==> IsCluster(cfg.chain[w.at]) || OperationOf(cfg.chain[w.at]) in w.outcomes
    requires ConfigOk(world, cfg)
    ensures Stuck(world, cfg, Resolve(cfg, w, host, result), i)
  {
    forall u | u in w.queue + [host] ensures !world.responds(u) {
    }
  }

  lemma StepStuck(world: World, cfg: Config, gen: nat, v: View, p: Phase, e: Event, i: nat)
    requires ConfigOk(world, cfg) && Enabled(cfg, v, p, e) && Honest(world, cfg, p, e) && !p.Begun?
    requires Sound(world, cfg, p) && Stuck(world, cfg, p, i) && !Responder(world, cfg.seeds)
    ensures Stuck(world, cfg, Advance(cfg, gen, v, p, e).1, i)
  {
    match e
    case Choose(candidates) =>
      if p.w.queue != [] {
        var op := OperationOf(cfg.chain[p.w.at]);
        assert p.w.queue == [p.w.queue[0]] + p.w.queue[1..];
        if cfg.reuse && op in p.w.outcomes {
          ResolveStuck(world, cfg, p.w.(queue := p.w.queue[1..]), p.w.queue[0], Some(p.w.outcomes[op]), i);
        }
      }
    case Reply(answer) =>
      if p.Probing? {
        ResolveStuck(world, cfg, p.w, p.host, answer, i);
      }
    case Pass =>
      UnionOfSameAnswer(world, []);
      if p.rest == [] {
        ResolveStuck(world, cfg, p.w, p.host, if p.got then Some(SortDedup(p.found)) else None, i);
      }
    case Merge =>
    case Publish =>
    case Cancel =>
  }

  lemma {:induction false} BadStartIsStuck(world: World, cfg: Config, gen: nat, ms: seq<Moment>, i: nat)
    requires ConfigOk(world, cfg) && HonestLife(world, cfg, gen, ms) && After(cfg, gen, Begun, ms).Some?
    requires ms != [] && !SomeoneResponds(world, cfg, ms[0].v) && MustAsk(world, cfg, cfg.outcomes, 0, i)
    ensures !After(cfg, gen, Begun, ms).value.Begun? && Stuck(world, cfg, After(cfg, gen, Begun, ms).value, i)
  {
    var n := |ms| - 1;
    if n == 0 {
      assert After(cfg, gen, Begun, ms[..n]) == Some(Begun);
      if ms[0].e.Load? {
        NobodyQueued(world, cfg, ms[0].v, ms[0].e.order);
      }
    } else {
      HonestPrefix(world, cfg, gen, ms, n);
      LifeSound(world, cfg, gen, ms[..n]);
      BadStartIsStuck(world, cfg, gen, ms[..n], i);
      NobodyQueued(world, cfg, ms[0].v, ms[0].v.live);
      StepStuck(world, cfg, gen, ms[n].v, After(cfg, gen, Begun, ms[..n]).value, ms[n].e, i);
    }
  }

  lemma {:induction false} NoQueueNoResult(cfg: Config, gen: nat, ms: seq<Moment>)
    requires After(cfg, gen, Begun, ms).Some? && ms != [] && !HasQueue(cfg, ms[0].v)
    ensures var p := After(cfg, gen, Begun, ms).value;
            (p.Choosing? && p.w.queue == []) || (p.Finished? && p.published.None?) || p.Cancelled?
  {
    var n := |ms| - 1;
    if n == 0 {
      assert After(cfg, gen, Begun, ms[..n]) == Some(Begun);
      if ms[0].e.Load? {
        assert |multiset(ms[0].e.order)| == |multiset(ms[0].v.live)|;
      }
    } else {
      NoQueueNoResult(cfg, gen, ms[..n]);
    }
  }

  // A refresh that ends hands to publication the answer of the first scope with
  // a non-empty answer, or nothing if every scope is empty, exactly when its
  // queue was not empty to begin with, a responding node was listed then if a
  // scoped level had to be asked, and one was listed at each cluster pass.
  // What the view is at any other step does not matter.
  lemma PublishesExactlyWhen(world: World, cfg: Config, gen: nat, ms: seq<Moment>)
    requires ConfigOk(world, cfg) && HonestLife(world, cfg, gen, ms)
    requires After(cfg, gen, Begun, ms).Some? && After(cfg, gen, Begun, ms).value.Finished?
    ensures var p := After(cfg, gen, Begun, ms).value;
            && OutcomesOk(world, p.w.outcomes)
            && (p.published == Expected(world, cfg.chain) <==>
                  Expected(world, cfg.chain).None? || LooksWell(world, cfg, gen, ms))
  {
    LifeSound(world, cfg, gen, ms);
    if LooksWell(world, cfg, gen, ms) {
      LifeHopeful(world, cfg, gen, ms);
    } else if After(cfg, gen, Begun, ms).value.published.Some? {
      if v :| v in ClusterLooks(cfg, gen, ms) && !SomeoneResponds(world, cfg, v) {
        BadLookDooms(world, cfg, gen, ms, v);
      } else if !HasQueue(cfg, ms[0].v) {
        NoQueueNoResult(cfg, gen, ms);
      } else {
        var i: nat :| MustAsk(world, cfg, cfg.outcomes, 0, i);
        BadStartIsStuck(world, cfg, gen, ms, i);
      }
      assert false;
    }
  }

  // In particular if a responding node is listed whenever the refresh looks.
  lemma WalkPublishesFirstNonEmptyScope(world: World, cfg: Config, gen: nat, ms: seq<Moment>)
    requires ConfigOk(world, cfg) && HonestLife(world, cfg, gen, ms)
    requires After(cfg, gen, Begun, ms).Some? && After(cfg, gen, Begun, ms).value.Finished?
    requires Available(world, cfg, ms[0].v)
    requires forall v :: v in ClusterLooks(cfg, gen, ms) ==> SomeoneResponds(world, cfg, v)
    ensures After(cfg, gen, Begun, ms).value.published == Expected(world, cfg.chain)
    ensures OutcomesOk(world, After(cfg, gen, Begun, ms).value.w.outcomes)
  {
    PublishesExactlyWhen(world, cfg, gen, ms);
  }

  // ----- Outcome reuse -----

  // Whenever the walk that asks everything would publish, the walk that reuses
  // outcomes publishes the same list, if its load and each of its cluster
  // passes list at least what a load or a pass of the other listed. What is
  // published between these steps, by either of them or others, is arbitrary.
  lemma ReusePreservesPublication(world: World, asking: Config, g: nat, ms: seq<Moment>,
                                  reusing: Config, h: nat, rs: seq<Moment>)
    requires asking.chain == reusing.chain && !asking.reuse && reusing.reuse
    requires ConfigOk(world, asking) && ConfigOk(world, reusing)
    requires HonestLife(world, asking, g, ms) && HonestLife(world, reusing, h, rs)
    requires After(asking, g, Begun, ms).Some? && After(asking, g, Begun, ms).value.Finished?
    requires After(asking, g, Begun, ms).value.published.Some?
    requires After(reusing, h, Begun, rs).Some? && After(reusing, h, Begun, rs).value.Finished?
    requires HasQueue(reusing, rs[0].v) && Listed(asking, ms[0].v) <= Listed(reusing, rs[0].v)
    requires forall v :: v in ClusterLooks(reusing, h, rs) ==>
               exists u :: u in ClusterLooks(asking, g, ms) && Listed(asking, u) <= Listed(reusing, v)
    ensures After(reusing, h, Begun, rs).value.published == After(asking, g, Begun, ms).value.published
  {
    PublishesExactlyWhen(world, asking, g, ms);
    PublishesExactlyWhen(world, reusing, h, rs);
    LifeSound(world, asking, g, ms);
    FinishedHasLoaded(asking, g, ms);
    if ScopedAhead(world, reusing, reusing.outcomes, 0) {
      var i: nat :| MustAsk(world, reusing, reusing.outcomes, 0, i);
      assert MustAsk(world, asking, asking.outcomes, 0, i);
      var u :| u in Listed(asking, ms[0].v) && world.responds(u);
      assert u in Listed(reusing, rs[0].v);
    }
    forall v | v in ClusterLooks(reusing, h, rs) ensures SomeoneResponds(world, reusing, v) {
      var w :| w in ClusterLooks(asking, g, ms) && Listed(asking, w) <= Listed(reusing, v);
      var u :| u in Listed(asking, w) && world.responds(u);
      assert u in Listed(reusing, v);
    }
  }

  lemma {:induction false} FinishedHasLoaded(cfg: Config, gen: nat, ms: seq<Moment>)
    requires After(cfg, gen, Begun, ms).Some? && HasWalk(After(cfg, gen, Begun, ms).value)
    ensures ms != [] && ms[0].e.Load?
  {
    if ms != [] {
      var before := ms[..|ms| - 1];
      if After(cfg, gen, Begun, before).value.Begun? {
        LoadComesFirst(cfg, gen, before);
      } else {
        FinishedHasLoaded(cfg, gen, before);
      }
    }
  }

  ghost predicate NotAskedAgain(p: Phase, op: Operation, asked: nat) {
    HasWalk(p) ==>
      && op in p.w.outcomes && multiset(p.w.sent)[op] == asked
      && (p.Passing? || p.Asking? || p.Merging? ==> op != Cluster)
  }

  lemma ResolveNotAsked(cfg: Config, w: Walk, host: Url, result: Option<seq<Url>>, op: Operation)
    requires w.at < |cfg.chain| && op in w.outcomes
    ensures NotAskedAgain(Resolve(cfg, w, host, result), op, multiset(w.sent)[op])
  {
  }

  lemma OtherRequests(sent: seq<Operation>, other: Operation, op: Operation)
    requires other != op
    ensures multiset(sent + [other])[op] == multiset(sent)[op]
  {
  }

  lemma ChooseNotAskedAgain(cfg: Config, w: Walk, candidates: seq<Url>, op: Operation, asked: nat)
    requires cfg.reuse && w.at < |cfg.chain|
    requires forall l :: l in cfg.chain ==> (IsCluster(l) <==> OperationOf(l) == Cluster)
    requires NotAskedAgain(Choosing(w), op, asked)
    ensures NotAskedAgain(ChooseNext(cfg, w, candidates), op, asked)
  {
    if w.queue != [] {
      var key := OperationOf(cfg.chain[w.at]);
      if key in w.outcomes {
        ResolveNotAsked(cfg, w.(queue := w.queue[1..]), w.queue[0], Some(w.outcomes[key]), op);
      } else {
        OtherRequests(w.sent, key, op);
      }
    }
  }

  lemma PassNotAskedAgain(cfg: Config, p: Phase, op: Operation, asked: nat)
    requires p.Passing? && p.w.at < |cfg.chain| && NotAskedAgain(p, op, asked)
    ensures NotAskedAgain(PassNext(cfg, p), op, asked)
  {
    if p.rest == [] {
      ResolveNotAsked(cfg, p.w, p.host, if p.got then Some(SortDedup(p.found)) else None, op);
    } else {
      OtherRequests(p.w.sent, Cluster, op);
    }
  }

  lemma StepNotAskedAgain(cfg: Config, gen: nat, v: View, p: Phase, e: Event, op: Operation, asked: nat)
    requires cfg.reuse && Enabled(cfg, v, p, e) && !p.Begun?
    requires forall l :: l in cfg.chain ==> (IsCluster(l) <==> OperationOf(l) == Cluster)
    requires NotAskedAgain(p, op, asked)
    ensures var q := Advance(cfg, gen, v, p, e).1; !q.Begun? && NotAskedAgain(q, op, asked)
  {
    match e
    case Choose(candidates) => ChooseNotAskedAgain(cfg, p.w, candidates, op, asked);
    case Reply(answer) => if p.Probing? { ResolveNotAsked(cfg, p.w, p.host, answer, op); }
    case Pass => PassNotAskedAgain(cfg, p, op, asked);
    case _ =>
  }

  // With reuse, an operation that has an outcome, from the ordinary walk or
  // from this one, is never requested again.
  lemma {:induction false} AnsweredNeverAskedAgain(cfg: Config, gen: nat, p: Phase, ms: seq<Moment>, op: Operation)
    requires cfg.reuse && p.Choosing? && op in p.w.outcomes
    requires forall l :: l in cfg.chain ==> (IsCluster(l) <==> OperationOf(l) == Cluster)
    requires After(cfg, gen, p, ms).Some?
    ensures var q := After(cfg, gen, p, ms).value;
            !q.Begun? && NotAskedAgain(q, op, multiset(p.w.sent)[op])
  {
    if ms != [] {
      var n := |ms| - 1;
      AnsweredNeverAskedAgain(cfg, gen, p, ms[..n], op);
      StepNotAskedAgain(cfg, gen, ms[n].v, After(cfg, gen, p, ms[..n]).value, ms[n].e, op, multiset(p.w.sent)[op]);
    }
  }

  // In particular the outcomes it starts with cost it no request at all.
  lemma HandedOutcomesCostNothing(cfg: Config, gen: nat, order: seq<Url>, ms: seq<Moment>, op: Operation)
    requires cfg.reuse && op in cfg.outcomes && cfg.chain != []
    requires forall l :: l in cfg.chain ==> (IsCluster(l) <==> OperationOf(l) == Cluster)
    requires var loaded := Choosing(Walk(0, AppendMissing(order, cfg.additional), false, cfg.outcomes, []));
             After(cfg, gen, loaded, ms).Some? && HasWalk(After(cfg, gen, loaded, ms).value)
    ensures var loaded := Choosing(Walk(0, AppendMissing(order, cfg.additional), false, cfg.outcomes, []));
            op !in After(cfg, gen, loaded, ms).value.w.sent
  {
    var loaded := Choosing(Walk(0, AppendMissing(order, cfg.additional), false, cfg.outcomes, []));
    AnsweredNeverAskedAgain(cfg, gen, loaded, ms, op);
    var sent := After(cfg, gen, loaded, ms).value.w.sent;
    assert op in sent <==> op in multiset(sent);
  }

  // ----- Running out of hosts -----

  lemma {:induction false} NothingToAppend(nodes: seq<Url>, additional: seq<Url>)
    ensures AppendMissing(nodes, additional) == [] <==> nodes == [] && additional == []
    decreases |additional|
  {
    if additional != [] && nodes == [] {
      assert additional[0] in additional;
      assert additional[0] in AppendMissing(nodes, additional);
    }
  }

  // A queue runs dry before the seeds are loaded only if nothing was queued.
  predicate Stocked(p: Phase) {
    p.Choosing? && p.w.queue == [] ==> p.w.usingSeeds
  }

  lemma ResolveStocked(cfg: Config, w: Walk, host: Url, result: Option<seq<Url>>)
    requires w.at < |cfg.chain|
    ensures Stocked(Resolve(cfg, w, host, result))
  {
  }

  lemma StepStocked(cfg: Config, gen: nat, v: View, p: Phase, e: Event)
    requires Enabled(cfg, v, p, e) && !e.Load?
    ensures Stocked(Advance(cfg, gen, v, p, e).1)
  {
    match e
    case Choose(candidates) =>
      if p.w.queue != [] && OperationOf(cfg.chain[p.w.at]) in p.w.outcomes {
        var w := p.w.(queue := p.w.queue[1..]);
        ResolveStocked(cfg, w, p.w.queue[0], Some(w.outcomes[OperationOf(cfg.chain[w.at])]));
      }
    case Reply(answer) => if p.Probing? { ResolveStocked(cfg, p.w, p.host, answer); }
    case Pass =>
      if p.rest == [] {
        ResolveStocked(cfg, p.w, p.host, if p.got then Some(SortDedup(p.found)) else None);
      }
    case _ =>
  }

  // A walk stands before an empty queue without having loaded its seeds, and
  // then ends, exactly when it has just begun with an empty membership and no
  // additional candidates.
  lemma SeedsAreSkippedExactlyWhen(cfg: Config, gen: nat, ms: seq<Moment>)
    requires After(cfg, gen, Begun, ms).Some? && After(cfg, gen, Begun, ms).value.Choosing?
    ensures var w := After(cfg, gen, Begun, ms).value.w;
            w.queue == [] && !w.usingSeeds <==> |ms| == 1 && ms[0].v.live == [] && cfg.additional == []
  {
    var n := |ms| - 1;
    var before := After(cfg, gen, Begun, ms[..n]).value;
    if ms[n].e.Load? {
      LoadComesFirst(cfg, gen, ms[..n]);
      var order := ms[n].e.order;
      NothingToAppend(order, cfg.additional);
      assert |multiset(order)| == |multiset(ms[n].v.live)|;
    } else {
      StepStocked(cfg, gen, ms[n].v, before, ms[n].e);
    }
  }

  // An empty membership is then never repaired: the walk ends before it reaches
  // the seeds. (`Interleaving` shows membership never becomes empty.)
  lemma EmptyMembershipIsNeverRepaired(cfg: Config, gen: nat, v: View, candidates: seq<Url>)
    requires cfg.chain != [] && v.live == [] && cfg.additional == []
    requires multiset(candidates) == multiset(ClusterCandidates(cfg, v))
    ensures After(cfg, gen, Begun, [Moment(v, Load([])), Moment(v, Choose(candidates))])
         == Some(Finished(Walk(0, [], false, cfg.outcomes, []), None))
  {
    var ms := [Moment(v, Load([])), Moment(v, Choose(candidates))];
    assert ms[..1][..0] == [];
    assert ms[..1] == [ms[0]];
    assert After(cfg, gen, Begun, ms[..1]) == Some(Choosing(Walk(0, [], false, cfg.outcomes, [])));
  }
}
