/** What a refresh leaves on record besides the list it publishes: the outcome of
    every scope it got an answer for, and the requests it made for them. */
module Outcomes {
  import opened Wrappers
  import opened Sorting
  import opened RoutingScopes
  import opened Refresh
  import opened WalkResults

  function OpAt(cfg: Config, i: nat): Operation
    requires i < |cfg.chain|
  {
    OperationOf(cfg.chain[i])
  }

  // The operation of one of the first `n` levels.
  ghost predicate IsPassed(cfg: Config, n: nat, op: Operation)
    requires n <= |cfg.chain|
  {
    exists i: nat :: i < n && OpAt(cfg, i) == op
  }

  ghost predicate EmptyUpTo(cfg: Config, outcomes: map<Operation, seq<Url>>, n: nat)
    requires n <= |cfg.chain|
  {
    forall i: nat :: i < n ==> OpAt(cfg, i) in outcomes && outcomes[OpAt(cfg, i)] == []
  }

  // Outcomes of other operations are those it was handed.
  ghost predicate OthersAsHanded(cfg: Config, outcomes: map<Operation, seq<Url>>, n: nat)
    requires n <= |cfg.chain|
  {
    forall op :: !IsPassed(cfg, n, op) ==>
      (op in outcomes <==> op in cfg.outcomes) && (op in outcomes ==> outcomes[op] == cfg.outcomes[op])
  }

  // The first `n` scopes were answered and empty, and there is no other answer.
  ghost predicate AllEmpty(cfg: Config, outcomes: map<Operation, seq<Url>>, n: nat)
    requires n <= |cfg.chain|
  {
    EmptyUpTo(cfg, outcomes, n) && OthersAsHanded(cfg, outcomes, n)
  }

  // Scope `k` was answered with `nodes`, and those before it were empty.
  ghost predicate AnsweredAt(cfg: Config, outcomes: map<Operation, seq<Url>>, k: nat, nodes: seq<Url>)
    requires k < |cfg.chain|
  {
    && nodes != [] && OpAt(cfg, k) in outcomes && outcomes[OpAt(cfg, k)] == nodes
    && (forall i: nat :: i < k && OpAt(cfg, i) != OpAt(cfg, k) ==>
          OpAt(cfg, i) in outcomes && outcomes[OpAt(cfg, i)] == [])
    && OthersAsHanded(cfg, outcomes, k + 1)
  }

  // What is on record at each point of the walk.
  ghost predicate OnRecord(cfg: Config, p: Phase)
    requires InChain(cfg, p)
  {
    match p
    case Begun => true
    case Cancelled => true
    case Publishing(w, nodes) => AnsweredAt(cfg, w.outcomes, w.at, nodes)
    case Finished(w, Some(nodes)) => AnsweredAt(cfg, w.outcomes, w.at, nodes)
    case Finished(w, None) =>
      AllEmpty(cfg, w.outcomes, w.at) || (w.at + 1 == |cfg.chain| && AllEmpty(cfg, w.outcomes, |cfg.chain|))
    case _ => AllEmpty(cfg, p.w.outcomes, p.w.at)
  }

  lemma EmptyAnswer(cfg: Config, outcomes: map<Operation, seq<Url>>, at: nat)
    requires at < |cfg.chain| && AllEmpty(cfg, outcomes, at)
    ensures AllEmpty(cfg, outcomes[OpAt(cfg, at) := []], at + 1)
  {
    var after := outcomes[OpAt(cfg, at) := []];
    forall op | !IsPassed(cfg, at + 1, op)
      ensures (op in after <==> op in cfg.outcomes) && (op in after ==> after[op] == cfg.outcomes[op])
    {
      assert op != OpAt(cfg, at);
      assert !IsPassed(cfg, at, op);
    }
  }

  lemma FullAnswer(cfg: Config, outcomes: map<Operation, seq<Url>>, at: nat, nodes: seq<Url>)
    requires at < |cfg.chain| && AllEmpty(cfg, outcomes, at) && nodes != []
    ensures AnsweredAt(cfg, outcomes[OpAt(cfg, at) := nodes], at, nodes)
  {
    var after := outcomes[OpAt(cfg, at) := nodes];
    forall op | !IsPassed(cfg, at + 1, op)
      ensures (op in after <==> op in cfg.outcomes) && (op in after ==> after[op] == cfg.outcomes[op])
    {
      assert op != OpAt(cfg, at);
      assert !IsPassed(cfg, at, op);
    }
  }

  lemma ResolveRecords(cfg: Config, w: Walk, host: Url, result: Option<seq<Url>>)
    requires w.at < |cfg.chain| && AllEmpty(cfg, w.outcomes, w.at)
    ensures OnRecord(cfg, Resolve(cfg, w, host, result))
  {
    if result.Some? && result.value == [] {
      EmptyAnswer(cfg, w.outcomes, w.at);
    } else if result.Some? {
      FullAnswer(cfg, w.outcomes, w.at, result.value);
    }
  }

  lemma StepRecords(cfg: Config, gen: nat, v: View, p: Phase, e: Event)
    requires Enabled(cfg, v, p, e) && OnRecord(cfg, p)
    ensures OnRecord(cfg, Advance(cfg, gen, v, p, e).1)
  {
    match e
    case Choose(candidates) =>
      if p.w.queue != [] {
        var op := OpAt(cfg, p.w.at);
        if cfg.reuse && op in p.w.outcomes {
          ResolveRecords(cfg, p.w.(queue := p.w.queue[1..]), p.w.queue[0], Some(p.w.outcomes[op]));
        }
      }
    case Reply(answer) => if p.Probing? { ResolveRecords(cfg, p.w, p.host, answer); }
    case Pass =>
      if p.rest == [] {
        ResolveRecords(cfg, p.w, p.host, if p.got then Some(SortDedup(p.found)) else None);
      }
    case _ =>
  }

  // Over every life of a refresh, whatever hosts answer: the operation of every
  // scope it has passed is on record with the empty list, one that publishes
  // has what it publishes on record for the scope it comes from, and of other
  // operations there is what it was handed.
  lemma {:induction false} AnswersAreOnRecord(cfg: Config, gen: nat, ms: seq<Moment>)
    requires After(cfg, gen, Begun, ms).Some?
    ensures OnRecord(cfg, After(cfg, gen, Begun, ms).value)
  {
    if ms != [] {
      var n := |ms| - 1;
      AnswersAreOnRecord(cfg, gen, ms[..n]);
      StepRecords(cfg, gen, ms[n].v, After(cfg, gen, Begun, ms[..n]).value, ms[n].e);
    }
  }

  // ----- What the record saves -----

  // Every scope up to `k` is on record, and `k` is the first that is not empty.
  ghost predicate KnownUpTo(cfg: Config, k: nat) {
    && cfg.reuse && k < |cfg.chain| && EmptyUpTo(cfg, cfg.outcomes, k)
    && OpAt(cfg, k) in cfg.outcomes && cfg.outcomes[OpAt(cfg, k)] != []
  }

  ghost predicate Silent(cfg: Config, p: Phase, k: nat, started: bool)
    requires KnownUpTo(cfg, k)
  {
    var nodes := cfg.outcomes[OpAt(cfg, k)];
    match p
    case Begun => true
    case Cancelled => true
    case Choosing(w) => w.sent == [] && w.at <= k && w.outcomes == cfg.outcomes && (started <==> w.queue != [])
    case Publishing(w, published) => w.sent == [] && started && published == nodes
    case Finished(w, published) => w.sent == [] && published == if started then Some(nodes) else None
    case _ => false
  }

  lemma StepSilent(cfg: Config, gen: nat, v: View, p: Phase, e: Event, k: nat, started: bool)
    requires KnownUpTo(cfg, k) && Enabled(cfg, v, p, e) && Silent(cfg, p, k, started)
    requires e.Load? ==> (started <==> HasQueue(cfg, v))
    ensures Silent(cfg, Advance(cfg, gen, v, p, e).1, k, started)
  {
    match e
    case Load(order) =>
      NothingToAppend(order, cfg.additional);
      assert |multiset(order)| == |multiset(v.live)|;
    case Choose(_) =>
      if p.w.queue != [] {
        var op := OpAt(cfg, p.w.at);
        assert op in cfg.outcomes;
        assert cfg.outcomes[op := cfg.outcomes[op]] == cfg.outcomes;
      }
    case _ =>
  }

  // A refresh that reuses what it knows up to the first scope with a node makes
  // no request at all, and publishes that outcome.
  lemma {:induction false} KnownScopesCostNothing(cfg: Config, gen: nat, ms: seq<Moment>, k: nat)
    requires KnownUpTo(cfg, k) && ms != [] && After(cfg, gen, Begun, ms).Some?
    ensures Silent(cfg, After(cfg, gen, Begun, ms).value, k, HasQueue(cfg, ms[0].v))
  {
    var n := |ms| - 1;
    if n == 0 {
      assert After(cfg, gen, Begun, ms[..n]) == Some(Begun);
    } else {
      KnownScopesCostNothing(cfg, gen, ms[..n], k);
      if ms[n].e.Load? {
        LoadComesFirst(cfg, gen, ms[..n]);
      }
    }
    StepSilent(cfg, gen, ms[n].v, After(cfg, gen, Begun, ms[..n]).value, ms[n].e, k, HasQueue(cfg, ms[0].v));
  }

  // What an ordinary refresh that published hands over is enough for an affinity
  // refresh whose scopes, up to the one published, are among those it passed:
  // it makes no request and publishes the same list.
  lemma HandedOverSaysItAll(ordinary: Config, g: nat, ms: seq<Moment>, affinity: Config, h: nat, rs: seq<Moment>, k: nat)
    requires After(ordinary, g, Begun, ms).Some? && After(ordinary, g, Begun, ms).value.Finished?
    requires After(ordinary, g, Begun, ms).value.published.Some?
    requires var w := After(ordinary, g, Begun, ms).value.w;
             && affinity.reuse && affinity.outcomes == w.outcomes && k < |affinity.chain|
             && OpAt(affinity, k) == OpAt(ordinary, w.at)
             && forall j: nat :: j < k ==>
                  OpAt(affinity, j) != OpAt(ordinary, w.at) && IsPassed(ordinary, w.at, OpAt(affinity, j))
    requires rs != [] && After(affinity, h, Begun, rs).Some? && HasQueue(affinity, rs[0].v)
    ensures var p, q := After(ordinary, g, Begun, ms).value, After(affinity, h, Begun, rs).value;
            && (HasWalk(q) ==> q.w.sent == [])
            && (q.Finished? ==> q.published == p.published)
  {
    AnswersAreOnRecord(ordinary, g, ms);
    var w := After(ordinary, g, Begun, ms).value.w;
    forall j: nat | j < k ensures OpAt(affinity, j) in w.outcomes && w.outcomes[OpAt(affinity, j)] == [] {
      var i: nat :| i < w.at && OpAt(ordinary, i) == OpAt(affinity, j);
    }
    KnownScopesCostNothing(affinity, h, rs, k);
  }

  ghost predicate RackFree(chain: seq<Level>) {
    forall l :: l in chain ==> l.rack.None?
  }

  lemma RackFreeIsWidened(chain: seq<Level>)
    requires RackFree(chain)
    ensures WidenAll(chain) == chain
  {
    forall i | 0 <= i < |chain| ensures WidenAll(chain)[i] == chain[i] {
      assert chain[i] in chain;
    }
  }

  ghost predicate ComesBefore(chain: seq<Level>, at: nat, l: Level)
    requires at <= |chain|
  {
    exists i: nat :: i < at && chain[i] == l
  }

  // The level of an operation is found in the widened chain behind nothing but
  // levels that come before it in the chain.
  lemma FoundInWidened(chain: seq<Level>, at: nat) returns (k: nat)
    requires RackFree(chain) && at < |chain|
    ensures k < |Widen(chain)| && Widen(chain)[k] == chain[at]
    ensures forall j: nat :: j < k ==>
              && OperationOf(Widen(chain)[j]) != OperationOf(chain[at])
              && ComesBefore(chain, at, Widen(chain)[j])
  {
    var w := Widen(chain);
    RackFreeIsWidened(chain);
    WidenMeaning(chain);
    assert chain[at] in w;
    k :| 0 <= k < |w| && w[k] == chain[at];
    forall j: nat | j < k ensures ComesBefore(chain, at, w[j]) {
      assert w[j] in w;
      var i := FirstIndex(chain, w[j]);
      assert i < FirstIndex(chain, w[k]) <= at;
    }
  }

  // Without racks an affinity refresh that follows an ordinary one that published
  // never makes a request: the widened chain asks nothing new.
  lemma WithoutRacksNothingIsAskedAgain(
    ordinary: Config, g: nat, ms: seq<Moment>, affinity: Config, h: nat, rs: seq<Moment>)
    requires RackFree(ordinary.chain) && affinity.chain == Widen(ordinary.chain)
    requires After(ordinary, g, Begun, ms).Some? && After(ordinary, g, Begun, ms).value.Finished?
    requires After(ordinary, g, Begun, ms).value.published.Some?
    requires affinity.reuse && affinity.outcomes == After(ordinary, g, Begun, ms).value.w.outcomes
    requires rs != [] && After(affinity, h, Begun, rs).Some? && HasQueue(affinity, rs[0].v)
    ensures var p, q := After(ordinary, g, Begun, ms).value, After(affinity, h, Begun, rs).value;
            && (HasWalk(q) ==> q.w.sent == [])
            && (q.Finished? ==> q.published == p.published)
  {
    var at := After(ordinary, g, Begun, ms).value.w.at;
    var k := FoundInWidened(ordinary.chain, at);
    forall j: nat | j < k ensures IsPassed(ordinary, at, OpAt(affinity, j)) {
      assert ComesBefore(ordinary.chain, at, affinity.chain[j]);
      var i: nat :| i < at && ordinary.chain[i] == affinity.chain[j];
      assert OpAt(ordinary, i) == OpAt(affinity, j);
    }
    HandedOverSaysItAll(ordinary, g, ms, affinity, h, rs, k);
  }
}
