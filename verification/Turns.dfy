/** In which order a refresh turns to its hosts, and how often. */
module Turns {
  import opened Wrappers
  import Text
  import opened Sorting
  import opened RoutingScopes
  import opened Refresh
  import opened WalkResults

  // ----- Who is queued -----

  // The additional nodes are queued behind the others, none that is there
  // already, each once.
  lemma {:induction false} NothingIsQueuedTwice(nodes: seq<Url>, additional: seq<Url>, i: nat)
    requires |nodes| <= i < |AppendMissing(nodes, additional)|
    ensures AppendMissing(nodes, additional)[i] !in AppendMissing(nodes, additional)[..i]
    decreases |additional|
  {
    if additional != [] {
      var n := if additional[0] in nodes then nodes else nodes + [additional[0]];
      var r := AppendMissing(n, additional[1..]);
      if i < |n| {
        assert r[..i] == nodes && r[i] == additional[0];
      } else {
        NothingIsQueuedTwice(n, additional[1..], i);
      }
    }
  }

  // So the queue a refresh begins with has no repetition unless membership has,
  // and it has one place for each node that is live or additional.
  lemma QueueIsDistinct(nodes: seq<Url>, additional: seq<Url>)
    requires Distinct(nodes)
    ensures Distinct(AppendMissing(nodes, additional))
    ensures |AppendMissing(nodes, additional)| == |Elements(nodes + additional)|
  {
    var r := AppendMissing(nodes, additional);
    forall i, j | 0 <= i < j < |r| ensures r[i] != r[j] {
      if j >= |nodes| {
        NothingIsQueuedTwice(nodes, additional, j);
        assert r[i] in r[..j];
      } else {
        assert r[i] == nodes[i] && r[j] == nodes[j];
      }
    }
    DistinctSize(r);
    assert Elements(r) == Elements(nodes + additional);
  }

  // A cluster pass has each live, seed and additional node as a candidate once.
  lemma CandidatesAreListed(cfg: Config, v: View, candidates: seq<Url>)
    requires multiset(candidates) == multiset(ClusterCandidates(cfg, v))
    ensures Distinct(candidates) && Elements(candidates) == Listed(cfg, v) && |candidates| == |Listed(cfg, v)|
  {
    var c := ClusterCandidates(cfg, v);
    SortDedupMeaning(v.live + cfg.seeds + cfg.additional);
    forall i, j | 0 <= i < j < |c| ensures c[i] != c[j] {
      Text.LessIrreflexive(c[i]);
    }
    DistinctPermutation(c, candidates);
    forall u ensures u in candidates <==> u in c {
      assert u in candidates <==> u in multiset(candidates);
    }
    assert Elements(candidates) == Elements(c);
    DistinctSize(candidates);
  }

  lemma {:induction false} MomentsEnabled(cfg: Config, gen: nat, ms: seq<Moment>, m: Moment)
    requires After(cfg, gen, Begun, ms).Some? && m in ms
    ensures m.e.Load? ==> multiset(m.e.order) == multiset(m.v.live)
    ensures m.e.Choose? ==> multiset(m.e.candidates) == multiset(ClusterCandidates(cfg, m.v))
  {
    var before := ms[..|ms| - 1];
    if m in before {
      MomentsEnabled(cfg, gen, before, m);
    } else {
      assert m == ms[|ms| - 1];
    }
  }

  // Requests are bounded by distinct nodes: one for each that is live or
  // additional, one per seed and per extra scope, and at each cluster level one
  // for each node listed at its pass.
  lemma RequestsPerNode(cfg: Config, gen: nat, ms: seq<Moment>, nodes: set<Url>)
    requires ms != [] && ms[0].e.Load? && Distinct(ms[0].v.live)
    requires After(cfg, gen, Begun, ms).Some? && HasWalk(After(cfg, gen, Begun, ms).value)
    requires forall m :: m in ms && m.e.Choose? ==> Listed(cfg, m.v) <= nodes
    ensures |After(cfg, gen, Begun, ms).value.w.sent|
         <= |Elements(ms[0].v.live + cfg.additional)| + |cfg.seeds| + |cfg.chain| - 1
            + ClusterCost(cfg.chain, 0, |nodes|)
  {
    forall m | m in ms && m.e.Choose? ensures |m.e.candidates| <= |nodes| {
      MomentsEnabled(cfg, gen, ms, m);
      CandidatesAreListed(cfg, m.v, m.e.candidates);
      SmallerSet(Listed(cfg, m.v), nodes);
    }
    var order := ms[0].e.order;
    MomentsEnabled(cfg, gen, ms, ms[0]);
    DistinctPermutation(ms[0].v.live, order);
    QueueIsDistinct(order, cfg.additional);
    forall u ensures u in order <==> u in ms[0].v.live {
      assert u in order <==> u in multiset(order);
      assert u in ms[0].v.live <==> u in multiset(ms[0].v.live);
    }
    assert Elements(order + cfg.additional) == Elements(ms[0].v.live + cfg.additional);
    RequestBound(cfg, gen, ms, |nodes|);
  }

  lemma SmallerSet<T>(a: set<T>, b: set<T>)
    requires a <= b
    ensures |a| <= |b|
  {
    assert b == a + (b - a);
  }

  // ----- Whose turn it is -----

  // The hosts a refresh has taken from its queue, in that order.
  ghost function Taken(cfg: Config, gen: nat, ms: seq<Moment>): seq<Url>
    requires After(cfg, gen, Begun, ms).Some?
  {
    if ms == [] then []
    else
      var before := ms[..|ms| - 1];
      var p := After(cfg, gen, Begun, before).value;
      Taken(cfg, gen, before) + if ms[|ms| - 1].e.Choose? && p.Choosing? && p.w.queue != [] then [p.w.queue[0]] else []
  }

  ghost predicate Waits(p: Phase, taken: seq<Url>, initial: seq<Url>) {
    HasWalk(p) && !p.Finished? && !p.Publishing? ==> initial <= taken + p.w.queue
  }

  lemma TakeOne(taken: seq<Url>, queue: seq<Url>)
    requires queue != []
    ensures taken + queue == taken + [queue[0]] + queue[1..]
  {
  }

  lemma ResolveWaits(cfg: Config, w: Walk, host: Url, result: Option<seq<Url>>, taken: seq<Url>, initial: seq<Url>)
    requires w.at < |cfg.chain| && initial <= taken + w.queue
    ensures Waits(Resolve(cfg, w, host, result), taken, initial)
  {
    assert taken + w.queue <= taken + (w.queue + [host]);
    assert w.queue == [] ==> taken + w.queue == taken <= taken + cfg.seeds;
  }

  lemma StepWaits(cfg: Config, gen: nat, v: View, p: Phase, e: Event, taken: seq<Url>, initial: seq<Url>)
    requires Enabled(cfg, v, p, e) && !e.Load? && Waits(p, taken, initial)
    ensures var took := taken + if e.Choose? && p.Choosing? && p.w.queue != [] then [p.w.queue[0]] else [];
            Waits(Advance(cfg, gen, v, p, e).1, took, initial)
  {
    assert taken + [] == taken;
    match e
    case Choose(candidates) =>
      if p.w.queue != [] {
        TakeOne(taken, p.w.queue);
        var op := OperationOf(cfg.chain[p.w.at]);
        var w, took := p.w.(queue := p.w.queue[1..]), taken + [p.w.queue[0]];
        if cfg.reuse && op in p.w.outcomes {
          ResolveWaits(cfg, w, p.w.queue[0], Some(p.w.outcomes[op]), took, initial);
        }
      }
    case Reply(answer) =>
      if p.Probing? { ResolveWaits(cfg, p.w, p.host, answer, taken, initial); }
    case Pass =>
      if p.rest == [] {
        ResolveWaits(cfg, p.w, p.host, if p.got then Some(SortDedup(p.found)) else None, taken, initial);
      }
    case _ =>
  }

  // Hosts take turns: the refresh turns to the hosts it queued at its start one
  // after the other, and to none of them again before each has had its turn.
  lemma {:induction false} EveryHostGetsItsTurn(cfg: Config, gen: nat, ms: seq<Moment>)
    requires ms != [] && ms[0].e.Load? && After(cfg, gen, Begun, ms).Some?
    ensures var taken, initial := Taken(cfg, gen, ms), AppendMissing(ms[0].e.order, cfg.additional);
            && Waits(After(cfg, gen, Begun, ms).value, taken, initial)
            && (taken <= initial || initial <= taken)
  {
    var n := |ms| - 1;
    var initial := AppendMissing(ms[0].e.order, cfg.additional);
    var p := After(cfg, gen, Begun, ms[..n]).value;
    if n == 0 {
      assert p == Begun && Taken(cfg, gen, ms) == [];
    } else {
      EveryHostGetsItsTurn(cfg, gen, ms[..n]);
      var taken := Taken(cfg, gen, ms[..n]);
      if ms[n].e.Load? {
        LoadComesFirst(cfg, gen, ms[..n]);
      }
      StepWaits(cfg, gen, ms[n].v, p, ms[n].e, taken, initial);
      if ms[n].e.Choose? && p.w.queue != [] {
        TakeOne(taken, p.w.queue);
        assert taken + [p.w.queue[0]] <= taken + p.w.queue;
      } else {
        assert taken + [] == taken;
      }
    }
  }

  // ----- What is counted as a request -----

  ghost function Replies(ms: seq<Moment>): nat {
    if ms == [] then 0 else Replies(ms[..|ms| - 1]) + if ms[|ms| - 1].e.Reply? then 1 else 0
  }

  predicate InFlight(p: Phase) {
    p.Probing? || p.Asking?
  }

  ghost predicate Counted(cfg: Config, p: Phase, replies: nat)
    requires InChain(cfg, p)
  {
    && (p.Begun? ==> replies == 0)
    && (HasWalk(p) ==> |p.w.sent| == replies + if InFlight(p) then 1 else 0)
    && (p.Asking? ==> p.w.sent[|p.w.sent| - 1] == Cluster)
    && (p.Probing? ==> p.w.sent[|p.w.sent| - 1] == OperationOf(cfg.chain[p.w.at]))
  }

  lemma StepCounts(cfg: Config, gen: nat, v: View, p: Phase, e: Event, replies: nat)
    requires Enabled(cfg, v, p, e) && Counted(cfg, p, replies)
    ensures Counted(cfg, Advance(cfg, gen, v, p, e).1, replies + if e.Reply? then 1 else 0)
  {
  }

  // Every request is counted, once, with its operation: there are as many as
  // replies, and one more while one is in flight.
  lemma {:induction false} RequestsAreCounted(cfg: Config, gen: nat, ms: seq<Moment>)
    requires After(cfg, gen, Begun, ms).Some?
    ensures Counted(cfg, After(cfg, gen, Begun, ms).value, Replies(ms))
  {
    if ms != [] {
      var n := |ms| - 1;
      RequestsAreCounted(cfg, gen, ms[..n]);
      StepCounts(cfg, gen, ms[n].v, After(cfg, gen, Begun, ms[..n]).value, ms[n].e, Replies(ms[..n]));
    }
  }
}
