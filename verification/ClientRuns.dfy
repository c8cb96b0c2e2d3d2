/** The handoff protocol and the two views in one system: the loops and the
    affinity tasks are what makes the refreshes, and a refresh takes a step only
    when the task it belongs to is polled. */
module ClientRuns {
  import opened Wrappers
  import opened Handoff
  import Refresh
  import Interleaving
  import opened WalkResults
  import RoutingScopes
  import TwoViews
  import DiscoveryManagers

  type Generation = nat

  // The refresh that each loop made last, and the one of each affinity task.
  datatype Client = Client(
    h: State,
    views: TwoViews.Pair,
    loopAt: map<Id, Generation>,
    taskAt: map<Id, Generation>)

  datatype Move =
    | Protocol(a: Action)
    | Begin(loop: Id, cfg: Refresh.Config)      // a loop begins a refresh
    | Turn(loop: Id, e: Refresh.Event)          // ... and takes its next step
    | BeginTask(task: Id, cfg: Refresh.Config)
    | TurnTask(task: Id, e: Refresh.Event)

  ghost predicate Begins(c: Client) {
    c.h == START && TwoViews.Begins(c.views) && c.loopAt == map[] && c.taskAt == map[]
  }

  predicate InProgress(s: Interleaving.System, g: Generation) {
    g in s.refreshes && !Refresh.Ended(s.refreshes[g].phase)
  }

  // The loop's last refresh has run to its end.
  predicate HasOutcomes(c: Client, l: Id) {
    l in c.loopAt && TwoViews.Ended(c.views, c.loopAt[l])
  }

  predicate TaskRuns(s: State, t: Id) {
    t in s.affinities && !s.affinities[t].gone
  }

  // What a step means for the two views. A task that ends takes the refresh it
  // is in with it.
  ghost function ViewMove(c: Client, m: Move): Option<TwoViews.Move> {
    match m
    case Protocol(BeginEnd(l)) =>
      if l in c.loopAt && InProgress(c.views.ordinary, c.loopAt[l])
      then Some(TwoViews.Ordinary(Interleaving.Step(c.loopAt[l], Refresh.Cancel))) else None
    case Protocol(EndAffinity(t)) =>
      if t in c.taskAt && InProgress(c.views.affinity, c.taskAt[t])
      then Some(TwoViews.Affinity(c.taskAt[t], Refresh.Cancel)) else None
    case Protocol(SpawnAffinity) =>
      if !c.h.closed && c.h.lock.Installing? && c.h.lock.loop in c.loopAt
      then Some(TwoViews.Install(c.h.nextId, c.loopAt[c.h.lock.loop])) else None
    case Protocol(_) => None
    case Begin(_, cfg) => Some(TwoViews.Ordinary(Interleaving.Start(cfg)))
    case Turn(l, e) => if l in c.loopAt then Some(TwoViews.Ordinary(Interleaving.Step(c.loopAt[l], e))) else None
    case BeginTask(t, cfg) => Some(TwoViews.Begin(t, cfg))
    case TurnTask(t, e) => if t in c.taskAt then Some(TwoViews.Affinity(c.taskAt[t], e)) else None
  }

  predicate Scheduled(c: Client, m: Move) {
    match m
    case Protocol(a) =>
      Possible(c.h, a) && !a.Poll? && (a.AskAffinity? ==> HasOutcomes(c, a.loop))
    case Begin(l, _) =>
      Running(c.h, l) && !HoldsLock(c.h, l) && (l in c.loopAt ==> !InProgress(c.views.ordinary, c.loopAt[l]))
    case Turn(l, e) => Running(c.h, l) && l in c.loopAt && !e.Cancel?
    case BeginTask(t, _) => TaskRuns(c.h, t) && t !in c.taskAt
    case TurnTask(t, e) => TaskRuns(c.h, t) && t in c.taskAt && !e.Cancel?
  }

  ghost predicate Allowed(c: Client, m: Move) {
    Scheduled(c, m) && (ViewMove(c, m).Some? ==> TwoViews.Allowed(c.views, ViewMove(c, m).value))
  }

  function HandoffStep(m: Move): Action {
    match m
    case Protocol(a) => a
    case Begin(l, _) => Poll(l)
    case Turn(l, _) => Poll(l)
    case BeginTask(t, _) => Poll(t)
    case TurnTask(t, _) => Poll(t)
  }

  ghost function Make(c: Client, m: Move): Client
    requires Allowed(c, m)
  {
    Client(
      Do(c.h, HandoffStep(m)),
      if ViewMove(c, m).Some? then TwoViews.Make(c.views, ViewMove(c, m).value) else c.views,
      if m.Begin? then c.loopAt[m.loop := c.views.ordinary.view.next + 1] else c.loopAt,
      if m.BeginTask? then c.taskAt[m.task := c.views.affinity.view.next + 1] else c.taskAt)
  }

  ghost function Run(c: Client, ms: seq<Move>): Option<Client> {
    if ms == [] then Some(c)
    else
      match Run(c, ms[..|ms| - 1])
      case None => None
      case Some(d) => if Allowed(d, ms[|ms| - 1]) then Some(Make(d, ms[|ms| - 1])) else None
  }

  // ----- Its parts -----

  lemma StepIsPossible(c: Client, m: Move)
    requires Allowed(c, m)
    ensures Possible(c.h, HandoffStep(m)) && Make(c, m).h == Do(c.h, HandoffStep(m))
  {
  }

  lemma {:induction false} IsProtocolRun(c: Client, ms: seq<Move>) returns (acts: seq<Action>)
    requires Run(c, ms).Some?
    ensures Exec(c.h, acts) == Some(Run(c, ms).value.h)
  {
    acts := [];
    if ms != [] {
      var before := ms[..|ms| - 1];
      acts := IsProtocolRun(c, before);
      var d, m := Run(c, before).value, ms[|ms| - 1];
      StepIsPossible(d, m);
      DiscoveryManagers.ExecStep(c.h, acts, d.h, HandoffStep(m));
      acts := acts + [HandoffStep(m)];
    }
  }

  // Every reply is the one answer the host has.
  ghost predicate HonestTurns(world: World, c: Client, ms: seq<Move>) {
    forall k :: 0 <= k < |ms| && Run(c, ms[..k]).Some? && ViewMove(Run(c, ms[..k]).value, ms[k]).Some? ==>
      var d := Run(c, ms[..k]).value; TwoViews.HonestMove(world, d.views, ViewMove(d, ms[k]).value)
  }

  lemma HonestBefore(world: World, c: Client, ms: seq<Move>, n: nat)
    requires n <= |ms| && HonestTurns(world, c, ms)
    ensures HonestTurns(world, c, ms[..n])
  {
    forall k | 0 <= k < n ensures ms[..n][..k] == ms[..k] && ms[..n][k] == ms[k] {
    }
  }

  lemma HonestLonger(world: World, p: TwoViews.Pair, vs: seq<TwoViews.Move>, v: TwoViews.Move)
    requires TwoViews.HonestMoves(world, p, vs) && TwoViews.Run(p, vs).Some?
    requires TwoViews.HonestMove(world, TwoViews.Run(p, vs).value, v)
    ensures TwoViews.HonestMoves(world, p, vs + [v])
  {
    var all := vs + [v];
    forall k | 0 <= k < |all| && TwoViews.Run(p, all[..k]).Some?
      ensures TwoViews.HonestMove(world, TwoViews.Run(p, all[..k]).value, all[k])
    {
      assert all[..k] == vs[..k];
      assert k == |vs| ==> vs[..k] == vs;
    }
  }

  lemma {:induction false} IsViewsRun(world: World, c: Client, ms: seq<Move>) returns (vs: seq<TwoViews.Move>)
    requires Run(c, ms).Some?
    ensures TwoViews.Run(c.views, vs) == Some(Run(c, ms).value.views)
    ensures HonestTurns(world, c, ms) ==> TwoViews.HonestMoves(world, c.views, vs)
  {
    vs := [];
    if ms != [] {
      var n := |ms| - 1;
      var before, m := ms[..n], ms[n];
      vs := IsViewsRun(world, c, before);
      var v := ViewMove(Run(c, before).value, m);
      if HonestTurns(world, c, ms) {
        HonestBefore(world, c, ms, n);
        if v.Some? {
          HonestLonger(world, c.views, vs, v.value);
        }
      }
      if v.Some? {
        assert (vs + [v.value])[..|vs|] == vs;
        vs := vs + [v.value];
      }
    }
  }

  // ----- Who is at work on what -----

  predicate LoopWorks(c: Client, l: Id, g: Generation) {
    Running(c.h, l) && l in c.loopAt && c.loopAt[l] == g
  }

  predicate TaskWorks(c: Client, t: Id, g: Generation) {
    TaskRuns(c.h, t) && t in c.taskAt && c.taskAt[t] == g
  }

  ghost predicate Manned(c: Client) {
    && (forall g: Generation :: InProgress(c.views.ordinary, g) ==> exists l: Id :: LoopWorks(c, l, g))
    && (forall g: Generation :: InProgress(c.views.affinity, g) ==> exists t: Id :: TaskWorks(c, t, g))
  }

  // A loop that is handing over has something to hand over.
  ghost predicate Ready(c: Client) {
    forall l: Id :: HoldsLock(c.h, l) ==> HasOutcomes(c, l)
  }

  ghost predicate InChains(s: Interleaving.System) {
    forall g :: g in s.refreshes ==> Refresh.InChain(s.refreshes[g].cfg, s.refreshes[g].phase)
  }

  ghost predicate Kept(c: Client) {
    && Interleaving.Inv(c.views.ordinary) && Interleaving.Inv(c.views.affinity)
    && InChains(c.views.ordinary) && InChains(c.views.affinity)
    && Manned(c) && Ready(c)
  }

  lemma ViewKeeps(s: Interleaving.System, a: Interleaving.Action)
    requires Interleaving.Inv(s) && InChains(s) && Interleaving.Possible(s, a)
    ensures Interleaving.Inv(Interleaving.Do(s, a)) && InChains(Interleaving.Do(s, a))
  {
    Interleaving.DoKeepsInv(s, a);
  }

  lemma ViewsKeep(p: TwoViews.Pair, m: TwoViews.Move)
    requires Interleaving.Inv(p.ordinary) && Interleaving.Inv(p.affinity) && TwoViews.Allowed(p, m)
    requires InChains(p.ordinary) && InChains(p.affinity)
    ensures var q := TwoViews.Make(p, m);
            && Interleaving.Inv(q.ordinary) && Interleaving.Inv(q.affinity)
            && InChains(q.ordinary) && InChains(q.affinity)
  {
    match m
    case Ordinary(a) => ViewKeeps(p.ordinary, a);
    case Install(_, _) =>
    case Begin(_, cfg) => ViewKeeps(p.affinity, Interleaving.Start(cfg));
    case Affinity(g, e) => ViewKeeps(p.affinity, Interleaving.Step(g, e));
  }

  // Only its own guard stops a loop, and only its own end an affinity task.
  lemma WorkersStay(s: State, a: Action)
    requires Possible(s, a)
    ensures forall l: Id :: Running(s, l) && a != BeginEnd(l) ==> Running(Do(s, a), l)
    ensures forall t: Id :: TaskRuns(s, t) && a != EndAffinity(t) ==> TaskRuns(Do(s, a), t)
  {
  }

  predicate EndsLoopOf(c: Client, m: Move, g: Generation) {
    m.Protocol? && m.a.BeginEnd? && m.a.loop in c.loopAt && c.loopAt[m.a.loop] == g
  }

  predicate EndsTaskOf(c: Client, m: Move, g: Generation) {
    m.Protocol? && m.a.EndAffinity? && m.a.task in c.taskAt && c.taskAt[m.a.task] == g
  }

  lemma StepInProgress(s: Interleaving.System, a: Interleaving.Action, g: Generation)
    requires Interleaving.Possible(s, a) && InProgress(Interleaving.Do(s, a), g)
    ensures (a.Start? && g == s.view.next + 1) || InProgress(s, g)
    ensures a != Interleaving.Step(g, Refresh.Cancel)
  {
  }

  // A refresh that is in progress was so before, unless a step begins it; and
  // the step does not end its worker.
  lemma LoopWasInProgress(c: Client, m: Move, g: Generation)
    requires Allowed(c, m) && InProgress(Make(c, m).views.ordinary, g)
    ensures (m.Begin? && g == c.views.ordinary.view.next + 1)
            || (InProgress(c.views.ordinary, g) && !EndsLoopOf(c, m, g))
  {
    var v := ViewMove(c, m);
    if v.Some? && v.value.Ordinary? {
      StepInProgress(c.views.ordinary, v.value.a, g);
    } else {
      assert Make(c, m).views.ordinary == c.views.ordinary;
    }
  }

  lemma TaskWasInProgress(c: Client, m: Move, g: Generation)
    requires Allowed(c, m) && InProgress(Make(c, m).views.affinity, g)
    ensures (m.BeginTask? && g == c.views.affinity.view.next + 1)
            || (InProgress(c.views.affinity, g) && !EndsTaskOf(c, m, g))
  {
    var v := ViewMove(c, m);
    if v.Some? && v.value.Begin? {
      StepInProgress(c.views.affinity, Interleaving.Start(v.value.cfg), g);
    } else if v.Some? && v.value.Affinity? {
      StepInProgress(c.views.affinity, Interleaving.Step(v.value.gen, v.value.e), g);
    } else {
      assert Make(c, m).views.affinity == c.views.affinity;
    }
  }

  lemma LoopWorksOn(c: Client, m: Move, l: Id, g: Generation)
    requires Allowed(c, m) && InProgress(c.views.ordinary, g) && LoopWorks(c, l, g) && !EndsLoopOf(c, m, g)
    ensures LoopWorks(Make(c, m), l, g)
  {
    WorkersStay(c.h, HandoffStep(m));
  }

  lemma TaskWorksOn(c: Client, m: Move, t: Id, g: Generation)
    requires Allowed(c, m) && TaskWorks(c, t, g) && !EndsTaskOf(c, m, g)
    ensures TaskWorks(Make(c, m), t, g)
  {
    WorkersStay(c.h, HandoffStep(m));
  }

  lemma BeginnerWorks(c: Client, m: Move)
    requires Allowed(c, m)
    ensures m.Begin? ==> LoopWorks(Make(c, m), m.loop, c.views.ordinary.view.next + 1)
    ensures m.BeginTask? ==> TaskWorks(Make(c, m), m.task, c.views.affinity.view.next + 1)
  {
    WorkersStay(c.h, HandoffStep(m));
  }

  lemma LoopStaysManned(c: Client, m: Move, g: Generation)
    requires Manned(c) && Allowed(c, m) && InProgress(Make(c, m).views.ordinary, g)
    ensures exists l: Id :: LoopWorks(Make(c, m), l, g)
  {
    BeginnerWorks(c, m);
    LoopWasInProgress(c, m, g);
    if !(m.Begin? && g == c.views.ordinary.view.next + 1) {
      var l: Id :| LoopWorks(c, l, g);
      LoopWorksOn(c, m, l, g);
    }
  }

  lemma TaskStaysManned(c: Client, m: Move, g: Generation)
    requires Manned(c) && Allowed(c, m) && InProgress(Make(c, m).views.affinity, g)
    ensures exists t: Id :: TaskWorks(Make(c, m), t, g)
  {
    BeginnerWorks(c, m);
    TaskWasInProgress(c, m, g);
    if !(m.BeginTask? && g == c.views.affinity.view.next + 1) {
      var t: Id :| TaskWorks(c, t, g);
      TaskWorksOn(c, m, t, g);
    }
  }

  lemma StaysManned(c: Client, m: Move)
    requires Manned(c) && Allowed(c, m)
    ensures Manned(Make(c, m))
  {
    forall g: Generation | InProgress(Make(c, m).views.ordinary, g) ensures exists l: Id :: LoopWorks(Make(c, m), l, g) {
      LoopStaysManned(c, m, g);
    }
    forall g: Generation | InProgress(Make(c, m).views.affinity, g) ensures exists t: Id :: TaskWorks(Make(c, m), t, g) {
      TaskStaysManned(c, m, g);
    }
  }

  lemma EndedStays(p: TwoViews.Pair, m: TwoViews.Move, g: Generation)
    requires Interleaving.Inv(p.ordinary) && TwoViews.Allowed(p, m) && TwoViews.Ended(p, g)
    ensures TwoViews.Ended(TwoViews.Make(p, m), g)
  {
  }

  lemma HolderBefore(s: State, a: Action, l: Id)
    requires Possible(s, a) && HoldsLock(Do(s, a), l)
    ensures HoldsLock(s, l) || a == AskAffinity(l)
  {
  }

  lemma OutcomesStay(c: Client, m: Move, l: Id)
    requires Kept(c) && Allowed(c, m) && HasOutcomes(c, l)
    requires m.Begin? ==> m.loop != l
    ensures HasOutcomes(Make(c, m), l)
  {
    if ViewMove(c, m).Some? {
      EndedStays(c.views, ViewMove(c, m).value, c.loopAt[l]);
    }
  }

  lemma StaysReady(c: Client, m: Move)
    requires Kept(c) && Allowed(c, m)
    ensures Ready(Make(c, m))
  {
    forall l: Id | HoldsLock(Make(c, m).h, l) ensures HasOutcomes(Make(c, m), l) {
      HolderBefore(c.h, HandoffStep(m), l);
      OutcomesStay(c, m, l);
    }
  }

  lemma MoveKeeps(c: Client, m: Move)
    requires Kept(c) && Allowed(c, m)
    ensures Kept(Make(c, m))
  {
    if ViewMove(c, m).Some? {
      ViewsKeep(c.views, ViewMove(c, m).value);
    }
    StaysManned(c, m);
    StaysReady(c, m);
  }

  lemma {:induction false} RunKeeps(c: Client, ms: seq<Move>)
    requires Kept(c) && Run(c, ms).Some?
    ensures Kept(Run(c, ms).value)
  {
    if ms != [] {
      var before := ms[..|ms| - 1];
      RunKeeps(c, before);
      MoveKeeps(Run(c, before).value, ms[|ms| - 1]);
    }
  }

  lemma BeginsKept(c: Client)
    requires Begins(c)
    ensures Kept(c)
  {
    Interleaving.InitInv(c.views.ordinary);
    Interleaving.InitInv(c.views.affinity);
  }

  // ----- Every run -----

  lemma CancelIsAllowed(s: Interleaving.System, g: Generation)
    requires InChains(s) && InProgress(s, g)
    ensures Interleaving.Possible(s, Interleaving.Step(g, Refresh.Cancel))
  {
  }

  lemma NotHeldUp(c: Client, a: Action)
    requires Kept(c) && Possible(c.h, a) && !a.Poll? && !a.AskAffinity?
    ensures Allowed(c, Protocol(a))
    ensures a.SpawnAffinity? && !c.h.closed ==> ViewMove(c, Protocol(a)).Some?
  {
    match a
    case BeginEnd(l) =>
      if l in c.loopAt && InProgress(c.views.ordinary, c.loopAt[l]) { CancelIsAllowed(c.views.ordinary, c.loopAt[l]); }
    case EndAffinity(t) =>
      if t in c.taskAt && InProgress(c.views.affinity, c.taskAt[t]) { CancelIsAllowed(c.views.affinity, c.taskAt[t]); }
    case SpawnAffinity => assert HoldsLock(c.h, c.h.lock.loop);
    case _ =>
  }

  // The views hold up no step of the protocol: a task that ends can always
  // take its refresh with it, and a loop that may install affinity work has
  // the outcomes to hand over.
  lemma ProtocolIsNotHeldUp(c: Client, ms: seq<Move>, a: Action)
    requires Begins(c) && Run(c, ms).Some? && Possible(Run(c, ms).value.h, a)
    requires !a.Poll? && !a.AskAffinity?
    ensures Allowed(Run(c, ms).value, Protocol(a))
    ensures a.SpawnAffinity? && !Run(c, ms).value.h.closed ==> ViewMove(Run(c, ms).value, Protocol(a)).Some?
  {
    BeginsKept(c);
    RunKeeps(c, ms);
    NotHeldUp(Run(c, ms).value, a);
  }

  // Of the refreshes of a view that are in progress, at most one belongs to a
  // task that has not been told to abort.
  lemma OneRefreshPerView(c: Client, ms: seq<Move>)
    requires Begins(c) && Run(c, ms).Some?
    ensures var d := Run(c, ms).value;
            && (forall g: Generation, g': Generation, l: Id, l': Id ::
                  LoopWorks(d, l, g) && LiveLoop(d.h, l) && LoopWorks(d, l', g') && LiveLoop(d.h, l') ==> g == g')
            && (forall g: Generation, g': Generation, t: Id, t': Id ::
                  TaskWorks(d, t, g) && LiveAffinity(d.h, t) && TaskWorks(d, t', g') && LiveAffinity(d.h, t') ==> g == g')
            && Manned(d)
  {
    BeginsKept(c);
    RunKeeps(c, ms);
    var acts := IsProtocolRun(c, ms);
    OneOwner(acts);
    OneAffinityTask(acts);
  }

  ghost predicate ShutDown(c: Client) {
    c.h.closed && Tracked(c.h) == {}
  }

  lemma NobodyWorks(c: Client)
    requires Kept(c) && ShutDown(c)
    ensures Interleaving.Settled(c.views.ordinary) && Interleaving.Settled(c.views.affinity)
    ensures forall l: Id :: !Running(c.h, l)
    ensures forall t: Id :: !TaskRuns(c.h, t)
  {
    assert forall l: Id :: Running(c.h, l) ==> l in Tracked(c.h);
    assert forall t: Id :: TaskRuns(c.h, t) ==> t in Tracked(c.h);
    forall g | g in c.views.ordinary.refreshes ensures !InProgress(c.views.ordinary, g) {
    }
    forall g | g in c.views.affinity.refreshes ensures !InProgress(c.views.affinity, g) {
    }
  }

  lemma NothingMoves(c: Client, m: Move)
    requires Kept(c) && ShutDown(c) && Allowed(c, m)
    ensures ShutDown(Make(c, m)) && Make(c, m).views == c.views
  {
    NobodyWorks(c);
    EmptyStays(c.h, HandoffStep(m));
    StoppedStep(c.h, HandoffStep(m));
  }

  lemma {:induction false} ViewsAreFrozen(c: Client, more: seq<Move>)
    requires Kept(c) && ShutDown(c) && Run(c, more).Some?
    ensures ShutDown(Run(c, more).value) && Run(c, more).value.views == c.views
  {
    if more != [] {
      var before := more[..|more| - 1];
      ViewsAreFrozen(c, before);
      RunKeeps(c, before);
      NothingMoves(Run(c, before).value, more[|more| - 1]);
    }
  }

  // What a view stays at: the seeds, or the result of the newest refresh that
  // published, unless that one was cut short.
  ghost predicate AtRest(s: Interleaving.System) {
    && Interleaving.Settled(s)
    && (s.view.latest == 0 ==> s.view.live == s.seeds)
    && (s.view.latest != 0 ==>
          && s.view.latest in s.refreshes
          && var p := s.refreshes[s.view.latest].phase;
             p.Cancelled? || (p.Finished? && p.published == Some(s.view.live)))
  }

  lemma RestsAtShutdown(world: World, c: Client, ms: seq<Move>) returns (vs: seq<TwoViews.Move>)
    requires Begins(c) && Run(c, ms).Some? && ShutDown(Run(c, ms).value)
    ensures var d := Run(c, ms).value; Kept(d) && AtRest(d.views.ordinary) && AtRest(d.views.affinity)
    ensures TwoViews.Run(c.views, vs) == Some(Run(c, ms).value.views)
    ensures HonestTurns(world, c, ms) ==> TwoViews.HonestMoves(world, c.views, vs)
  {
    BeginsKept(c);
    RunKeeps(c, ms);
    NobodyWorks(Run(c, ms).value);
    vs := IsViewsRun(world, c, ms);
    var os, fs := TwoViews.ViewsRun(c.views, vs);
    Interleaving.NewestPublisherWins(c.views.ordinary, os);
    Interleaving.ExecKeepsSeeds(c.views.ordinary, os);
    Interleaving.NewestPublisherWins(c.views.affinity, fs);
    Interleaving.ExecKeepsSeeds(c.views.affinity, fs);
  }

  // When `shutdown` returns, every refresh has ended, and whatever happens
  // afterwards neither view ever changes: its membership stays at the result of
  // the newest refresh that published.
  lemma ShutdownFreezesMembership(c: Client, ms: seq<Move>, more: seq<Move>)
    requires Begins(c) && Run(c, ms).Some? && ShutDown(Run(c, ms).value)
    requires Run(Run(c, ms).value, more).Some?
    ensures var d, e := Run(c, ms).value, Run(Run(c, ms).value, more).value;
            && e.views == d.views && ShutDown(e)
            && AtRest(d.views.ordinary) && AtRest(d.views.affinity)
  {
    var vs := RestsAtShutdown(World(_ => false, _ => []), c, ms);
    ViewsAreFrozen(Run(c, ms).value, more);
  }

  // What a view that is at rest holds if its refreshes learnt what is right.
  ghost predicate HoldsAnswer(world: World, s: Interleaving.System, chain: seq<RoutingScopes.Level>)
    requires AtRest(s)
  {
    s.view.latest != 0 && !s.refreshes[s.view.latest].phase.Cancelled? ==> Some(s.view.live) == Expected(world, chain)
  }

  // With hosts that answer each operation one way and a seed that responds, the
  // membership that is left is the answer of the first non-empty scope: of the
  // configured chain in the ordinary view, of the widened one in the other.
  lemma ShutdownLeavesTheAnswer(world: World, c: Client, ms: seq<Move>)
    requires Begins(c) && Run(c, ms).Some? && ShutDown(Run(c, ms).value) && HonestTurns(world, c, ms)
    requires TwoViews.WellFormedChain(c.views.ordinary.chain) && Responder(world, c.views.ordinary.seeds)
    ensures var d := Run(c, ms).value;
            && AtRest(d.views.ordinary) && AtRest(d.views.affinity)
            && HoldsAnswer(world, d.views.ordinary, c.views.ordinary.chain)
            && HoldsAnswer(world, d.views.affinity, RoutingScopes.Widen(c.views.ordinary.chain))
  {
    var vs := RestsAtShutdown(world, c, ms);
    TwoViews.BothViewsRefine(world, c.views, vs);
  }
}
