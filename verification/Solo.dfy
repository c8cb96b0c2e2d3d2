/** A refresh with the view to itself, its requests answered by a network:
    the reading of the refresh machine that the code's own loops implement. */
module Solo {
  import opened Wrappers
  import opened Sorting
  import opened RoutingScopes
  import opened Refresh
  import opened WalkResults
  import opened ClusterUnion

  // The answer to the request in flight is the one the network gives to it.
  ghost predicate FromNetwork(net: Network, cfg: Config, p: Phase, e: Event) {
    e.Reply? ==>
      && (p.Probing? && p.w.at < |cfg.chain| && |p.w.sent| > 0 ==>
            e.answer == net(|p.w.sent| - 1, OperationOf(cfg.chain[p.w.at]), p.host))
      && (p.Asking? && |p.w.sent| > 0 ==> e.answer == net(|p.w.sent| - 1, Cluster, p.node))
      && ((p.Probing? || p.Asking?) ==> |p.w.sent| > 0)
  }

  ghost function Alone(net: Network, cfg: Config, gen: nat, v: View, es: seq<Event>): (r: Option<(View, Phase)>)
    ensures r.Some? ==> InChain(cfg, r.value.1)
  {
    if es == [] then if cfg.chain != [] then Some((v, Begun)) else None
    else
      var e := es[|es| - 1];
      match Alone(net, cfg, gen, v, es[..|es| - 1])
      case None => None
      case Some(s) =>
        if Enabled(cfg, s.0, s.1, e) && FromNetwork(net, cfg, s.1, e) && !e.Cancel?
        then Some(Advance(cfg, gen, s.0, s.1, e)) else None
  }

  lemma AloneStep(net: Network, cfg: Config, gen: nat, v: View, es: seq<Event>, s: (View, Phase), e: Event)
    requires Alone(net, cfg, gen, v, es) == Some(s)
    requires Enabled(cfg, s.0, s.1, e) && FromNetwork(net, cfg, s.1, e) && !e.Cancel?
    ensures Alone(net, cfg, gen, v, es + [e]) == Some(Advance(cfg, gen, s.0, s.1, e))
  {
    assert (es + [e])[..|es + [e]| - 1] == es;
  }

  // The same steps, as the life of a refresh that nobody disturbs.
  ghost function Life(net: Network, cfg: Config, gen: nat, v: View, es: seq<Event>): (ms: seq<Moment>)
    requires Alone(net, cfg, gen, v, es).Some?
    ensures |ms| == |es|
  {
    if es == [] then []
    else
      var init := es[..|es| - 1];
      Life(net, cfg, gen, v, init) + [Moment(Alone(net, cfg, gen, v, init).value.0, es[|es| - 1])]
  }

  lemma {:induction false} LifeReaches(net: Network, cfg: Config, gen: nat, v: View, es: seq<Event>)
    requires Alone(net, cfg, gen, v, es).Some?
    ensures After(cfg, gen, Begun, Life(net, cfg, gen, v, es)) == Some(Alone(net, cfg, gen, v, es).value.1)
  {
    if es != [] {
      var init := es[..|es| - 1];
      LifeReaches(net, cfg, gen, v, init);
      var ms := Life(net, cfg, gen, v, es);
      assert ms[..|ms| - 1] == Life(net, cfg, gen, v, init);
    }
  }

  // A network whose responding hosts are consistent.
  ghost predicate Consistent(world: World, net: Network) {
    forall t: nat, op, u :: net(t, op, u) == if world.responds(u) then Some(world.answer(op)) else None
  }

  lemma {:induction false} LifeIsHonest(world: World, net: Network, cfg: Config, gen: nat, v: View, es: seq<Event>)
    requires Consistent(world, net) && Alone(net, cfg, gen, v, es).Some?
    ensures HonestLife(world, cfg, gen, Life(net, cfg, gen, v, es))
  {
    if es != [] {
      var n := |es| - 1;
      LifeIsHonest(world, net, cfg, gen, v, es[..n]);
      LifeReaches(net, cfg, gen, v, es[..n]);
      var ms := Life(net, cfg, gen, v, es);
      var before := Life(net, cfg, gen, v, es[..n]);
      assert ms[..n] == before;
      NetworkIsHonest(world, net, cfg, Alone(net, cfg, gen, v, es[..n]).value.1, es[n]);
      HonestLonger(world, cfg, gen, ms);
    }
  }

  lemma NetworkIsHonest(world: World, net: Network, cfg: Config, p: Phase, e: Event)
    requires Consistent(world, net) && FromNetwork(net, cfg, p, e)
    ensures Honest(world, cfg, p, e)
  {
  }

  lemma HonestLonger(world: World, cfg: Config, gen: nat, ms: seq<Moment>)
    requires ms != [] && HonestLife(world, cfg, gen, ms[..|ms| - 1])
    requires After(cfg, gen, Begun, ms[..|ms| - 1]).Some?
    requires Honest(world, cfg, After(cfg, gen, Begun, ms[..|ms| - 1]).value, ms[|ms| - 1].e)
    ensures HonestLife(world, cfg, gen, ms)
  {
    forall k | 0 <= k < |ms| && After(cfg, gen, Begun, ms[..k]).Some?
      ensures Honest(world, cfg, After(cfg, gen, Begun, ms[..k]).value, ms[k].e)
    {
      if k < |ms| - 1 { HonestAt(world, cfg, gen, ms, k); }
    }
  }

  lemma HonestAt(world: World, cfg: Config, gen: nat, ms: seq<Moment>, k: nat)
    requires k < |ms| - 1 && HonestLife(world, cfg, gen, ms[..|ms| - 1])
    ensures After(cfg, gen, Begun, ms[..k]).Some? ==>
              Honest(world, cfg, After(cfg, gen, Begun, ms[..k]).value, ms[k].e)
  {
    var before := ms[..|ms| - 1];
    assert ms[..k] == before[..k] && ms[k] == before[k];
  }

  // Until it publishes its result, a refresh takes no node away, and unless a
  // cluster pass has reported nodes it changes nothing.
  ghost predicate Untouched(v: View, v': View, p: Phase) {
    && (!p.Finished? ==> Elements(v.live) <= Elements(v'.live))
    && (p.Begun? || p.Choosing? || p.Probing? ==> v' == v)
    && ((p.Passing? || p.Asking?) && p.found == [] ==> v' == v)
    && ((p.Passing? || p.Asking?) && p.found != [] ==> p.got)
    && (p.Merging? ==> p.found != [])
    && (p.Finished? && p.published.None? ==> v' == v)
  }

  lemma StepUntouched(cfg: Config, gen: nat, v: View, v': View, p: Phase, e: Event)
    requires Enabled(cfg, v', p, e) && !e.Cancel? && Untouched(v, v', p)
    ensures var s := Advance(cfg, gen, v', p, e); Untouched(v, s.0, s.1)
  {
    match e
    case Pass => SortDedupMeaning(p.found);
    case Merge => UnionKeepsAll(v'.live, p.found);
    case Reply(answer) =>
      if p.Asking? && answer.Some? {
        UnionIsEmpty(p.found, answer.value);
      }
    case _ =>
  }

  lemma UnionKeepsAll(a: seq<Url>, b: seq<Url>)
    ensures Elements(a) <= Elements(SortDedup(a + b))
  {
    SortDedupMeaning(a + b);
    assert Elements(a + b) == Elements(a) + Elements(b);
  }

  lemma UnionIsEmpty(a: seq<Url>, b: seq<Url>)
    ensures SortDedup(a + b) == [] <==> a == [] && b == []
  {
    SortDedupMeaning(a + b);
  }

  lemma {:induction false} AloneUntouched(net: Network, cfg: Config, gen: nat, v: View, es: seq<Event>)
    requires Alone(net, cfg, gen, v, es).Some?
    ensures var s := Alone(net, cfg, gen, v, es).value; Untouched(v, s.0, s.1)
    ensures forall m :: m in Life(net, cfg, gen, v, es) ==> Elements(v.live) <= Elements(m.v.live)
  {
    if es != [] {
      var init := es[..|es| - 1];
      AloneUntouched(net, cfg, gen, v, init);
      var s := Alone(net, cfg, gen, v, init).value;
      StepUntouched(cfg, gen, v, s.0, s.1, es[|es| - 1]);
    }
  }

  // The last step of a refresh that publishes is its publication.
  lemma LastStepPublishes(net: Network, cfg: Config, gen: nat, v: View, es: seq<Event>)
    requires Alone(net, cfg, gen, v, es).Some?
    requires var p := Alone(net, cfg, gen, v, es).value.1; p.Finished? && p.published.Some?
    requires v.latest <= gen
    ensures var s := Alone(net, cfg, gen, v, es).value;
            s.0.live == s.1.published.value && s.0.latest == gen
  {
    var before := Alone(net, cfg, gen, v, es[..|es| - 1]).value;
    LatestStaysBelow(net, cfg, gen, v, es[..|es| - 1]);
    FinishingPublishes(cfg, gen, before.0, before.1, es[|es| - 1]);
  }

  lemma FinishingPublishes(cfg: Config, gen: nat, v: View, p: Phase, e: Event)
    requires InChain(cfg, p) && Enabled(cfg, v, p, e) && v.latest <= gen
    ensures var s := Advance(cfg, gen, v, p, e);
            s.1.Finished? && s.1.published.Some? ==> s.0.live == s.1.published.value && s.0.latest == gen
  {
  }

  lemma {:induction false} LatestStaysBelow(net: Network, cfg: Config, gen: nat, v: View, es: seq<Event>)
    requires Alone(net, cfg, gen, v, es).Some? && v.latest <= gen
    ensures Alone(net, cfg, gen, v, es).value.0.latest <= gen
  {
    if es != [] {
      LatestStaysBelow(net, cfg, gen, v, es[..|es| - 1]);
    }
  }

  // Nobody else publishes and its own publications come after its looks, so
  // the refresh looks at the view it began with.
  lemma {:induction false} LooksSeeTheStart(net: Network, cfg: Config, gen: nat, v: View, es: seq<Event>)
    requires Alone(net, cfg, gen, v, es).Some?
    ensures After(cfg, gen, Begun, Life(net, cfg, gen, v, es)).Some?
    ensures var ms := Life(net, cfg, gen, v, es);
            && (es != [] ==> ms[0] == Moment(v, es[0]))
            && forall u :: u in ClusterLooks(cfg, gen, ms) ==> u == v
  {
    LifeReaches(net, cfg, gen, v, es);
    if es != [] {
      var init := es[..|es| - 1];
      LooksSeeTheStart(net, cfg, gen, v, init);
      AloneUntouched(net, cfg, gen, v, init);
      LifeReaches(net, cfg, gen, v, init);
      var ms := Life(net, cfg, gen, v, es);
      assert ms[..|ms| - 1] == Life(net, cfg, gen, v, init);
    }
  }

  // If responding hosts are consistent and one of the live, additional and
  // seed nodes responds, a refresh sets membership to the answer of the first
  // scope with a node, and changes nothing at all if every scope is empty.
  lemma SoloRefinement(world: World, net: Network, cfg: Config, gen: nat, v: View, es: seq<Event>)
    requires Consistent(world, net) && ConfigOk(world, cfg) && Available(world, cfg, v) && v.latest <= gen
    requires Alone(net, cfg, gen, v, es).Some? && Alone(net, cfg, gen, v, es).value.1.Finished?
    ensures var s := Alone(net, cfg, gen, v, es).value;
            && s.1.published == Expected(world, cfg.chain)
            && (if Expected(world, cfg.chain).Some? then s.0.live == Expected(world, cfg.chain).value && s.0.latest == gen
                else s.0 == v)
  {
    var ms := Life(net, cfg, gen, v, es);
    LifeReaches(net, cfg, gen, v, es);
    LifeIsHonest(world, net, cfg, gen, v, es);
    AloneUntouched(net, cfg, gen, v, es);
    LooksSeeTheStart(net, cfg, gen, v, es);
    WalkPublishesFirstNonEmptyScope(world, cfg, gen, ms);
    if Expected(world, cfg.chain).Some? {
      LastStepPublishes(net, cfg, gen, v, es);
    }
  }

  // ----- Reuse, undisturbed -----

  // A walk that asks everything and begins with a cluster level does a cluster
  // pass before it gets anywhere.
  lemma {:induction false} ClusterFirstLooks(cfg: Config, gen: nat, ms: seq<Moment>)
    requires After(cfg, gen, Begun, ms).Some? && !cfg.reuse && cfg.chain != [] && IsCluster(cfg.chain[0])
    ensures var p := After(cfg, gen, Begun, ms).value;
            ClusterLooks(cfg, gen, ms) == [] ==>
              || p.Begun? || p.Cancelled? || (p.Choosing? && p.w.at == 0) || (p.Finished? && p.published.None?)
  {
    if ms != [] {
      ClusterFirstLooks(cfg, gen, ms[..|ms| - 1]);
    }
  }

  lemma PublisherFoundSomeone(world: World, net: Network, cfg: Config, gen: nat, v: View, es: seq<Event>)
    requires Consistent(world, net) && ConfigOk(world, cfg) && !cfg.reuse && Alone(net, cfg, gen, v, es).Some?
    requires var p := Alone(net, cfg, gen, v, es).value.1; p.Finished? && p.published.Some?
    ensures SomeoneResponds(world, cfg, v) && Expected(world, cfg.chain) == Alone(net, cfg, gen, v, es).value.1.published
  {
    var ms := Life(net, cfg, gen, v, es);
    LifeReaches(net, cfg, gen, v, es);
    LifeIsHonest(world, net, cfg, gen, v, es);
    LifeSound(world, cfg, gen, ms);
    PublishesExactlyWhen(world, cfg, gen, ms);
    FinishedHasLoaded(cfg, gen, ms);
    LooksSeeTheStart(net, cfg, gen, v, es);
    if IsCluster(cfg.chain[0]) {
      ClusterFirstLooks(cfg, gen, ms);
      assert ClusterLooks(cfg, gen, ms)[0] in ClusterLooks(cfg, gen, ms);
    } else {
      assert MustAsk(world, cfg, cfg.outcomes, 0, 0);
    }
  }

  // If a refresh that asks everything would publish, one that reuses outcomes
  // publishes the same list, and leaves the same membership, if it starts with
  // at least the same nodes. They may meet different networks, as long as each
  // operation has one answer.
  lemma ReuseAlone(world: World, gen: nat, asking: Config, net: Network, v: View, es: seq<Event>,
                   reusing: Config, net': Network, v': View, fs: seq<Event>)
    requires Consistent(world, net) && Consistent(world, net')
    requires asking.chain == reusing.chain && !asking.reuse && reusing.reuse
    requires ConfigOk(world, asking) && ConfigOk(world, reusing)
    requires HasQueue(reusing, v') && Listed(asking, v) <= Listed(reusing, v') && v.latest <= gen && v'.latest <= gen
    requires Alone(net, asking, gen, v, es).Some? && Alone(net, asking, gen, v, es).value.1.Finished?
    requires Alone(net, asking, gen, v, es).value.1.published.Some?
    requires Alone(net', reusing, gen, v', fs).Some? && Alone(net', reusing, gen, v', fs).value.1.Finished?
    ensures var s, t := Alone(net, asking, gen, v, es).value, Alone(net', reusing, gen, v', fs).value;
            t.1.published == s.1.published && t.0.live == s.0.live == s.1.published.value
  {
    PublisherFoundSomeone(world, net, asking, gen, v, es);
    var u :| u in Listed(asking, v) && world.responds(u);
    assert u in Listed(reusing, v');
    SoloRefinement(world, net', reusing, gen, v', fs);
    LastStepPublishes(net, asking, gen, v, es);
  }
}
