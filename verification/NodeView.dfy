/** The node view and its refresh, with the loops, queue and fields of the
    code. The network is a parameter: any answer to any request. */
module NodeViews {
  import opened Wrappers
  import opened Sorting
  import opened RoutingScopes
  import opened Refresh
  import WalkResults
  import Outcomes
  import opened ClusterUnion
  import opened Solo

  const U64_MAX: nat := 0xffff_ffff_ffff_ffff

  // Some permutation: the order the random shuffle produces.
  method Shuffle(nodes: seq<Url>) returns (order: seq<Url>)
    ensures multiset(order) == multiset(nodes)
  {
    order := [];
    var left := nodes;
    while left != []
      invariant multiset(order) + multiset(left) == multiset(nodes)
      decreases |left|
    {
      var i: nat :| i < |left|;
      order := order + [left[i]];
      assert left == left[..i] + [left[i]] + left[i + 1..];
      left := left[..i] + left[i + 1..];
    }
  }

  class NodeView {
    const chain: seq<Level>
    var live: seq<Url>
    var nextGeneration: nat
    var latestPublished: nat

    constructor (chain: seq<Level>, nodes: seq<Url>)
      ensures this.chain == chain && State() == View(nodes, 0, 0)
    {
      this.chain := chain;
      live := nodes;
      nextGeneration, latestPublished := 0, 0;
    }

    ghost function State(): View
      reads this
    {
      View(live, nextGeneration, latestPublished)
    }

    // `None` is the overflow panic; it leaves the counter as it was.
    method BeginRefresh() returns (generation: Option<nat>)
      modifies this
      ensures generation == if old(nextGeneration) < U64_MAX then Some(old(nextGeneration) + 1) else None
      ensures State() == old(State()).(next := if generation.Some? then generation.value else old(nextGeneration))
    {
      if nextGeneration < U64_MAX {
        nextGeneration := nextGeneration + 1;
        generation := Some(nextGeneration);
      } else {
        generation := None;
      }
    }

    method PublishPartialClusterLiveNodes(generation: nat, discovered: seq<Url>)
      modifies this
      ensures State() == PublishPartial(old(State()), generation, discovered)
      ensures old(latestPublished) <= generation ==>
                StrictlySorted(live) && Elements(live) == Elements(old(live)) + Elements(discovered)
    {
      SortDedupMeaning(live + discovered);
      assert Elements(live + discovered) == Elements(live) + Elements(discovered);
      if generation < latestPublished {
        return;
      }
      var partial := SortDedup(live + discovered);
      if live != partial {
        live := partial;
      }
      latestPublished := generation;
    }

    method PublishLiveNodes(generation: nat, newNodes: seq<Url>)
      modifies this
      ensures State() == PublishComplete(old(State()), generation, newNodes)
    {
      if generation < latestPublished {
        return;
      }
      if live != newNodes {
        live := newNodes;
      }
      latestPublished := generation;
    }

    method ClusterDiscoveryCandidates(cfg: Config) returns (candidates: seq<Url>)
      ensures multiset(candidates) == multiset(ClusterCandidates(cfg, State()))
    {
      candidates := SortDedup(live + cfg.seeds + cfg.additional);
      candidates := Shuffle(candidates);
    }

    // Where a refresh that has the view to itself stands.
    ghost predicate Stands(net: Network, cfg: Config, generation: nat, v: View, es: seq<Event>, p: Phase)
      reads this
    {
      Alone(net, cfg, generation, v, es) == Some((State(), p))
    }

    method MergeFound(cfg: Config, net: Network, generation: nat, found: seq<Url>, ghost rest: seq<Url>,
                      ghost v: View, ghost before: seq<Event>, ghost w: Walk, ghost host: Url)
      returns (ghost es: seq<Event>)
      requires Stands(net, cfg, generation, v, before, Merging(w, host, rest, found))
      modifies this
      ensures Stands(net, cfg, generation, v, es, Passing(w, host, rest, found, true))
    {
      AloneStep(net, cfg, generation, v, before, (State(), Merging(w, host, rest, found)), Merge);
      es := before + [Merge];
      PublishPartialClusterLiveNodes(generation, found);
    }

    // A candidate that is not skipped.
    method AskCandidate(cfg: Config, net: Network, generation: nat, nodeAddr: Url, found: seq<Url>, got: bool, tick: nat,
                        ghost rest: seq<Url>, ghost v: View, ghost before: seq<Event>, ghost w: Walk, ghost host: Url)
      returns (newNodes: seq<Url>, gotResponse: bool, ghost es: seq<Event>)
      requires w.at < |cfg.chain| && tick + 1 == |w.sent|
      requires Stands(net, cfg, generation, v, before, Asking(w, host, rest, found, got, nodeAddr))
      modifies this
      ensures gotResponse == (got || net(tick, Cluster, nodeAddr).Some?)
      ensures newNodes == match net(tick, Cluster, nodeAddr)
                          case None => found
                          case Some(nodes) => SortDedup(found + nodes)
      ensures Stands(net, cfg, generation, v, es, Passing(w, host, rest, newNodes, gotResponse))
    {
      newNodes, gotResponse := found, got;
      var answer := net(tick, Cluster, nodeAddr);
      es := AskRun(net, cfg, generation, v, before, State(), Asking(w, host, rest, found, got, nodeAddr), answer);
      if answer.Some? {
        gotResponse := true;
        newNodes := SortDedup(newNodes + answer.value);
        if answer.value != [] {
          es := MergeFound(cfg, net, generation, newNodes, rest, v, es, w, host);
        }
      }
    }

    // One turn of the loop over candidates.
    method PassTurn(cfg: Config, net: Network, generation: nat, nodeAddr: Url, ghost rest: seq<Url>, found: seq<Url>,
                    got: bool, tick: nat, ghost v: View, ghost before: seq<Event>, ghost w: Walk,
                    ghost asked: seq<Operation>, ghost host: Url)
      returns (newNodes: seq<Url>, gotResponse: bool, requests: nat, ghost es: seq<Event>, ghost sent: seq<Operation>)
      requires w.at < |cfg.chain| && tick == |asked|
      requires Stands(net, cfg, generation, v, before,
                      Passing(w.(sent := asked), host, [nodeAddr] + rest, found, got))
      modifies this
      ensures requests == |sent|
      ensures PassFrom(cfg.endpoint, net, requests, rest, newNodes, gotResponse)
           == PassFrom(cfg.endpoint, net, tick, [nodeAddr] + rest, found, got)
      ensures Stands(net, cfg, generation, v, es, Passing(w.(sent := sent), host, rest, newNodes, gotResponse))
    {
      newNodes, gotResponse, requests, sent := found, got, tick, asked;
      assert ([nodeAddr] + rest)[1..] == rest;
      es := PassRun(net, cfg, generation, v, before, State(),
                    Passing(w.(sent := asked), host, [nodeAddr] + rest, found, got));
      if !InList(cfg.endpoint, nodeAddr, found) {
        sent := asked + [Cluster];
        newNodes, gotResponse, es :=
          AskCandidate(cfg, net, generation, nodeAddr, found, got, tick, rest, v, es, w.(sent := sent), host);
        requests := tick + 1;
      }
    }

    // `before`, `w` and `host` say where in its refresh the pass is run.
    method DiscoverClusterLiveNodesFrom(cfg: Config, net: Network, generation: nat, candidates: seq<Url>, tick: nat,
                                        ghost v: View, ghost before: seq<Event>, ghost w: Walk, ghost host: Url)
      returns (result: Option<seq<Url>>, requests: nat, ghost es: seq<Event>, ghost sent: seq<Operation>)
      requires w.at < |cfg.chain| && tick == |w.sent|
      requires Stands(net, cfg, generation, v, before, Passing(w, host, candidates, [], false))
      modifies this
      ensures var pass := PassFrom(cfg.endpoint, net, tick, candidates, [], false);
              result == (if pass.1 then Some(SortDedup(pass.0)) else None) && requests == pass.2
      ensures requests == |sent|
      ensures Stands(net, cfg, generation, v, es, Resolve(cfg, w.(sent := sent), host, result))
    {
      var newNodes, gotResponse := [], false;
      requests, es, sent := tick, before, w.sent;
      var i := 0;
      assert candidates[0..] == candidates;
      while i < |candidates|
        invariant 0 <= i <= |candidates| && requests == |sent|
        invariant PassFrom(cfg.endpoint, net, requests, candidates[i..], newNodes, gotResponse)
               == PassFrom(cfg.endpoint, net, tick, candidates, [], false)
        invariant Stands(net, cfg, generation, v, es,
                         Passing(w.(sent := sent), host, candidates[i..], newNodes, gotResponse))
      {
        assert candidates[i..] == [candidates[i]] + candidates[i + 1..];
        newNodes, gotResponse, requests, es, sent :=
          PassTurn(cfg, net, generation, candidates[i], candidates[i + 1..], newNodes, gotResponse, requests, v, es, w,
                   sent, host);
        i := i + 1;
      }
      assert candidates[i..] == [];
      es := PassRun(net, cfg, generation, v, es, State(), Passing(w.(sent := sent), host, [], newNodes, gotResponse));
      result := if gotResponse then Some(SortDedup(newNodes)) else None;
    }

    method ClusterResult(cfg: Config, net: Network, generation: nat, ghost nodeAddr: Url, tick: nat,
                         ghost v: View, ghost before: seq<Event>, ghost w: Walk)
      returns (result: Option<seq<Url>>, requests: nat, ghost es: seq<Event>, ghost w': Walk)
      requires w.at < |cfg.chain| && IsCluster(cfg.chain[w.at]) && tick == |w.sent|
      requires w.queue != [] && w.queue[0] == nodeAddr
      requires !(cfg.reuse && OperationOf(cfg.chain[w.at]) in w.outcomes)
      requires Stands(net, cfg, generation, v, before, Choosing(w))
      modifies this
      ensures requests == |w'.sent| && w' == w.(queue := w.queue[1..], sent := w'.sent)
      ensures Stands(net, cfg, generation, v, es, Resolve(cfg, w', nodeAddr, result))
    {
      var candidates := ClusterDiscoveryCandidates(cfg);
      es := ChooseRun(net, cfg, generation, v, before, State(), w, candidates);
      w' := w.(queue := w.queue[1..]);
      ghost var sent;
      result, requests, es, sent :=
        DiscoverClusterLiveNodesFrom(cfg, net, generation, candidates, tick, v, es, w', nodeAddr);
      w' := w'.(sent := sent);
    }

    // One result for the current scope: an outcome to reuse, a cluster pass,
    // or a request to the host taken from the queue.
    method Request(cfg: Config, net: Network, generation: nat, scope: nat, nodeAddr: Url,
                   outcomes: map<Operation, seq<Url>>, tick: nat, ghost v: View, ghost before: seq<Event>, ghost w: Walk)
      returns (result: Option<seq<Url>>, requests: nat, ghost es: seq<Event>, ghost w': Walk)
      requires cfg.chain == chain && scope < |chain| && w.at == scope && tick == |w.sent|
      requires w.queue != [] && w.queue[0] == nodeAddr && w.outcomes == outcomes
      requires Stands(net, cfg, generation, v, before, Choosing(w))
      modifies this
      ensures requests == |w'.sent| && w' == w.(queue := w.queue[1..], sent := w'.sent)
      ensures cfg.reuse && OperationOf(chain[scope]) in outcomes ==>
                result == Some(outcomes[OperationOf(chain[scope])]) && requests == tick
      ensures Stands(net, cfg, generation, v, es, Resolve(cfg, w', nodeAddr, result))
    {
      var key := OperationOf(chain[scope]);
      requests := tick;
      w' := w.(queue := w.queue[1..]);
      if cfg.reuse && key in outcomes {
        result := Some(outcomes[key]);
        es := ChooseRun(net, cfg, generation, v, before, State(), w, ClusterCandidates(cfg, State()));
      } else if IsCluster(chain[scope]) {
        result, requests, es, w' := ClusterResult(cfg, net, generation, nodeAddr, tick, v, before, w);
      } else {
        result := net(tick, key, nodeAddr);
        requests := tick + 1;
        w' := w'.(sent := w.sent + [key]);
        es := ScopedRun(net, cfg, generation, v, before, State(), w, result);
      }
    }

    method PublishResult(cfg: Config, net: Network, generation: nat, newNodes: seq<Url>, ghost v: View,
                         ghost before: seq<Event>, ghost w: Walk)
      returns (ghost es: seq<Event>)
      requires Stands(net, cfg, generation, v, before, Publishing(w, newNodes))
      modifies this
      ensures Stands(net, cfg, generation, v, es, Finished(w, Some(newNodes)))
    {
      AloneStep(net, cfg, generation, v, before, (State(), Publishing(w, newNodes)), Publish);
      es := before + [Publish];
      PublishLiveNodes(generation, newNodes);
    }

    // What the loop does with a result. A failure drops the host, an empty
    // list moves to the next scope and keeps it, anything else is published.
    method TakeResult(cfg: Config, net: Network, generation: nat, scope: nat, usingSeeds: bool, candidates: seq<Url>,
                      outcomes: map<Operation, seq<Url>>, nodeAddr: Url, result: Option<seq<Url>>,
                      ghost v: View, ghost before: seq<Event>, ghost w: Walk)
      returns (done: bool, scope': nat, usingSeeds': bool, candidates': seq<Url>, outcomes': map<Operation, seq<Url>>,
               published: Option<seq<Url>>, ghost es: seq<Event>, ghost w': Walk)
      requires cfg.chain == chain && scope < |chain| && w == Walk(scope, candidates, usingSeeds, outcomes, w.sent)
      requires Stands(net, cfg, generation, v, before, Resolve(cfg, w, nodeAddr, result))
      modifies this
      ensures w'.sent == w.sent
      ensures !done ==>
                && scope' < |chain| && published.None?
                && w' == Walk(scope', candidates', usingSeeds', outcomes', w.sent)
                && Stands(net, cfg, generation, v, es, Choosing(w'))
      ensures !done ==> scope' == scope + 1
                        || (scope' == scope && usingSeeds' && !usingSeeds)
                        || (scope' == scope && usingSeeds' == usingSeeds && candidates' == candidates)
      ensures done ==> w'.outcomes == outcomes' && Stands(net, cfg, generation, v, es, Finished(w', published))
    {
      done, scope', usingSeeds', candidates', outcomes' := false, scope, usingSeeds, candidates, outcomes;
      published, es, w' := None, before, w;
      match result
      case None =>
        if IsCluster(chain[scope]) {
          done := true;
        } else if candidates == [] && !usingSeeds {
          usingSeeds' := true;
          candidates' := cfg.seeds;
          w' := w.(usingSeeds := true, queue := cfg.seeds);
        }
      case Some(newNodes) =>
        outcomes' := outcomes[OperationOf(chain[scope]) := newNodes];
        w' := w.(outcomes := outcomes');
        if newNodes == [] {
          if scope + 1 == |chain| {
            done := true;
          } else {
            scope' := scope + 1;
            candidates' := candidates + [nodeAddr];
            w' := w'.(at := scope', queue := candidates');
          }
        } else {
          es := PublishResult(cfg, net, generation, newNodes, v, es, w');
          published := Some(newNodes);
          done := true;
        }
    }

    // The scope walk. `cfg` holds the inputs and the caller's flags; `None`
    // for the generation is the overflow panic of `begin_refresh`. The last
    // clause is the walk's meaning: with consistent hosts, one of which
    // responds, membership becomes the first non-empty scope's answer.
    method UpdateLiveNodesFrom(cfg: Config, net: Network, ghost world: WalkResults.World)
      returns (generation: Option<nat>, outcomes: map<Operation, seq<Url>>, published: Option<seq<Url>>,
               ghost es: seq<Event>, ghost w: Walk)
      requires cfg.chain == chain && chain != []
      modifies this
      ensures generation.Some? <==> old(nextGeneration) < U64_MAX
      ensures generation.None? ==> State() == old(State()) && published.None?
      ensures generation.Some? ==>
                && generation.value == old(nextGeneration) + 1
                && w.outcomes == outcomes && w.at < |chain| && Outcomes.OnRecord(cfg, Finished(w, published))
                && Stands(net, cfg, generation.value, old(State()).(next := generation.value), es, Finished(w, published))
      ensures generation.Some? && Consistent(world, net)
              && WalkResults.ConfigOk(world, cfg) && WalkResults.Available(world, cfg, old(State()))
              && old(latestPublished <= nextGeneration) ==>
                && published == WalkResults.Expected(world, chain)
                && live == (if published.Some? then published.value else old(live))
                && latestPublished == (if published.Some? then generation.value else old(latestPublished))
    {
      outcomes, published, es, w := cfg.outcomes, None, [], Walk(0, [], false, cfg.outcomes, []);
      generation := BeginRefresh();
      if generation.None? {
        return;
      }
      var g := generation.value;
      ghost var v := State();
      var scope, usingSeeds := 0, false;
      var nodes := Shuffle(live);
      es := LoadRun(net, cfg, g, v, nodes);
      var candidates := PushMissing(nodes, cfg.additional);
      w := Walk(0, candidates, false, outcomes, []);
      var requests, done := 0, false;
      while candidates != [] && !done
        invariant !done ==>
                    && scope < |chain| && requests == |w.sent| && published.None?
                    && w == Walk(scope, candidates, usingSeeds, outcomes, w.sent)
                    && Stands(net, cfg, g, v, es, Choosing(w))
        invariant done ==> w.outcomes == outcomes && Stands(net, cfg, g, v, es, Finished(w, published))
        decreases !done, |chain| - scope, !usingSeeds, |candidates|
      {
        var nodeAddr := candidates[0];
        candidates := candidates[1..];
        var result;
        result, requests, es, w := Request(cfg, net, g, scope, nodeAddr, outcomes, requests, v, es, w);
        done, scope, usingSeeds, candidates, outcomes, published, es, w :=
          TakeResult(cfg, net, g, scope, usingSeeds, candidates, outcomes, nodeAddr, result, v, es, w);
      }
      if !done {
        es := ChooseRun(net, cfg, g, v, es, State(), w, ClusterCandidates(cfg, State()));
      }
      RunRecords(net, cfg, g, v, es, State(), w, published);
      RunMeans(world, net, cfg, g, v, es, State(), w, published);
    }
  }

  lemma RunRecords(net: Network, cfg: Config, generation: nat, v: View, es: seq<Event>, now: View, w: Walk,
                   published: Option<seq<Url>>)
    requires Alone(net, cfg, generation, v, es) == Some((now, Finished(w, published)))
    ensures w.at < |cfg.chain| && Outcomes.OnRecord(cfg, Finished(w, published))
  {
    LifeReaches(net, cfg, generation, v, es);
    Outcomes.AnswersAreOnRecord(cfg, generation, Life(net, cfg, generation, v, es));
  }

  lemma RunMeans(world: WalkResults.World, net: Network, cfg: Config, generation: nat, v: View, es: seq<Event>,
                 now: View, w: Walk, published: Option<seq<Url>>)
    requires Alone(net, cfg, generation, v, es) == Some((now, Finished(w, published)))
    ensures Consistent(world, net) && WalkResults.ConfigOk(world, cfg) && WalkResults.Available(world, cfg, v)
            && v.latest <= generation ==>
              && published == WalkResults.Expected(world, cfg.chain)
              && now.live == (if published.Some? then published.value else v.live)
              && now.latest == (if published.Some? then generation else v.latest)
  {
    if Consistent(world, net) && WalkResults.ConfigOk(world, cfg) && WalkResults.Available(world, cfg, v)
       && v.latest <= generation
    {
      SoloRefinement(world, net, cfg, generation, v, es);
    }
  }

  lemma LoadRun(net: Network, cfg: Config, generation: nat, v: View, order: seq<Url>) returns (es: seq<Event>)
    requires cfg.chain != [] && multiset(order) == multiset(v.live)
    ensures Alone(net, cfg, generation, v, es)
         == Some((v, Choosing(Walk(0, AppendMissing(order, cfg.additional), false, cfg.outcomes, []))))
  {
    AloneStep(net, cfg, generation, v, [], (v, Begun), Load(order));
    es := [] + [Load(order)];
  }

  lemma ChooseRun(net: Network, cfg: Config, generation: nat, v: View, before: seq<Event>, now: View, w: Walk,
                  candidates: seq<Url>) returns (es: seq<Event>)
    requires Alone(net, cfg, generation, v, before) == Some((now, Choosing(w))) && w.at < |cfg.chain|
    requires multiset(candidates) == multiset(ClusterCandidates(cfg, now))
    ensures Alone(net, cfg, generation, v, es) == Some((now, ChooseNext(cfg, w, candidates)))
  {
    AloneStep(net, cfg, generation, v, before, (now, Choosing(w)), Choose(candidates));
    es := before + [Choose(candidates)];
  }

  lemma PassRun(net: Network, cfg: Config, generation: nat, v: View, before: seq<Event>, now: View, p: Phase)
    returns (es: seq<Event>)
    requires Alone(net, cfg, generation, v, before) == Some((now, p)) && p.Passing? && p.w.at < |cfg.chain|
    ensures Alone(net, cfg, generation, v, es) == Some((now, PassNext(cfg, p)))
  {
    AloneStep(net, cfg, generation, v, before, (now, p), Pass);
    es := before + [Pass];
  }

  lemma AskRun(net: Network, cfg: Config, generation: nat, v: View, before: seq<Event>, now: View, p: Phase,
               answer: Option<seq<Url>>) returns (es: seq<Event>)
    requires Alone(net, cfg, generation, v, before) == Some((now, p)) && p.Asking? && |p.w.sent| > 0
    requires answer == net(|p.w.sent| - 1, Cluster, p.node)
    ensures Alone(net, cfg, generation, v, es) == Some((now, AskNext(p, answer)))
  {
    AloneStep(net, cfg, generation, v, before, (now, p), Reply(answer));
    es := before + [Reply(answer)];
  }

  lemma ScopedRun(net: Network, cfg: Config, generation: nat, v: View, before: seq<Event>, now: View, w: Walk,
                  answer: Option<seq<Url>>) returns (es: seq<Event>)
    requires Alone(net, cfg, generation, v, before) == Some((now, Choosing(w)))
    requires w.at < |cfg.chain| && !IsCluster(cfg.chain[w.at]) && w.queue != []
    requires !(cfg.reuse && OperationOf(cfg.chain[w.at]) in w.outcomes)
    requires answer == net(|w.sent|, OperationOf(cfg.chain[w.at]), w.queue[0])
    ensures var w' := w.(queue := w.queue[1..], sent := w.sent + [OperationOf(cfg.chain[w.at])]);
            Alone(net, cfg, generation, v, es) == Some((now, Resolve(cfg, w', w.queue[0], answer)))
  {
    var w' := w.(queue := w.queue[1..], sent := w.sent + [OperationOf(cfg.chain[w.at])]);
    es := ChooseRun(net, cfg, generation, v, before, now, w, ClusterCandidates(cfg, now));
    AloneStep(net, cfg, generation, v, es, (now, Probing(w', w.queue[0])), Reply(answer));
    es := es + [Reply(answer)];
  }

  method PushMissing(nodes: seq<Url>, additional: seq<Url>) returns (r: seq<Url>)
    ensures r == AppendMissing(nodes, additional)
  {
    r := nodes;
    var i := 0;
    assert additional[0..] == additional;
    while i < |additional|
      invariant 0 <= i <= |additional| && AppendMissing(r, additional[i..]) == AppendMissing(nodes, additional)
    {
      assert additional[i..][1..] == additional[i + 1..];
      if additional[i] !in r {
        r := r + [additional[i]];
      }
      i := i + 1;
    }
    assert additional[i..] == [];
  }
}
