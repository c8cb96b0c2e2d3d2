# Verified model of the Alternator client's routing

A Dafny model of how the ScyllaDB Alternator client finds the nodes of a
cluster, decides which runtime does the finding, and routes each request, with
proofs of what those parts promise. `dafny verify dfyconfig.toml` checks all of
it.

| file | what it models |
|---|---|
| `RoutingScope.dfy` | the linked chain of fallback scopes, and the rack-free chain derived from it |
| `Refresh.dfy`, `WalkResults.dfy`, `Outcomes.dfy`, `Turns.dfy` | one refresh of a node view as a state machine; what it sends, publishes, records and reuses while others publish between its steps, and in which order it turns to hosts |
| `ClusterUnion.dfy`, `SkippingExactness.dfy` | the cluster pass, its skipping of nodes already reported, and exactly when that can lose a node |
| `Solo.dfy`, `NodeView.dfy` | the view object with the loops, queue and fields of the code, proved to run that machine |
| `Interleaving.dfy`, `PartialResults.dfy`, `TwoViews.dfy` | any number of refreshes of one view, interleaved and cancelled; what a cluster pass makes known before it ends; the ordinary and the affinity view together, with what one hands to the other |
| `ClientRuns.dfy` | the whole of discovery: the handoff protocol whose tasks make the refreshes of the two views, up to and after shutdown |
| `Handoff.dfy`, `DiscoveryManager.dfy`, `Probes.dfy`, `KeptOwner.dfy`, `DiscoveryTasks.dfy` | ownership of the discovery loop across runtimes, its liveness probes, the two combined, and the task registry with shutdown |
| `DeterministicRng.dfy`, `QueryPlan.dfy`, `StableOrders.dfy`, `RoundRobinRuns.dfy`, `SharedCounter.dfy`, `Votes.dfy`, `Routing.dfy` | seeded, round-robin and voted plans, plans that share the counter, and routing while membership changes |
| `Resolver.dfy`, `ResolverRuns.dfy`, `CooldownRuns.dfy` | partition-key discovery: its retry loop, every interleaving of triggers and tasks, and when the cooldown is missed |
| `OptimizeHeaders.dfy` | the SigV4 header filter: grammar, parser, stripping |
| `ContentEncoding.dfy`, `ResponseStreams.dfy`, `DecoderState.dfy`, `Decompression.dfy` | the stack of response decoders: what it makes of a whole body, and the poll-level readers |
| `Text.dfy`, `Sorting.dfy`, `Splitting.dfy`, `Wrappers.dfy` | order on text, sorting, splitting and trimming |

How to read it:

- A node is the text of its URL. Two URLs are the same node when their texts are
  equal; the host-and-port identity that the cluster pass uses is a function
  parameter, `Config.endpoint`.
- The network, the clock and every random choice (shuffles, jitter, chunk sizes,
  when a poll is not ready) are arbitrary. The murmur3 hash of a key is an
  opaque 64-bit word. A codec is any decoder whose output, once produced, stays.
- Objects that the code updates in place are classes. Each method is tied to a
  function or a state machine on values, and the laws are proved about those.
- Concurrency is a transition system whose steps are the lock regions and the
  await points of the code. `Enabled`/`Possible` say when a step can happen and
  `Advance`/`Do` what it does; theorems quantify over every sequence of steps.
- 64-bit arithmetic is exact: the generator works on 64-bit words with wrapping
  multiplication, the round-robin counter wraps at 2^64, and generation numbers
  stop at the overflow check.

Where the code does not meet a plausible expectation, there is a case in which
it does not and the exact condition under which it does:

- Plans that share the counter need not go round membership the same way in
  every pass (`RoundRobinRuns.SharedCounterBreaksThePeriod`). They do exactly
  when, at each draw after the first pass, the counter stands at the node the
  first pass drew then, or before it with only nodes of the current pass in
  between (`SharedCounters.RepeatsExactlyWhenOnTrack`, and draw by draw
  `NextDrawRepeatsExactlyWhen`); it is enough that the others return a multiple
  of n nodes per pass (`InStepIsPeriodic`).
- A discovery can start although its table is in cooldown
  (`ResolverRuns.CooldownCanBeMissed`): exactly when a task of the table recorded
  a permanent failure after the trigger had looked, and that record still stands
  and is not yet old
  (`CooldownRuns.DiscardsCoolingExactlyWhen`).
- The cluster pass can lose a node (`ClusterUnion.SkippingCanLoseANode`): exactly
  when candidates that do not report it, none named by an earlier one's answer,
  between them name every candidate that does
  (`SkippingExactness.MissedExactlyWhen`). Hence every shuffle gives the same
  list exactly when no reported node has such a chain
  (`SkippingExactness.OrderIsIrrelevantExactlyWhen`).

One case that looks like a fault cannot arise. A walk that begins with an empty
membership and no additional candidates, and only such a walk, runs out of hosts
without having loaded its seeds (`WalkResults.SeedsAreSkippedExactlyWhen`,
`EmptyMembershipIsNeverRepaired`); but membership is never empty
(`Interleaving.EveryRunIsSafe`).

## Model

| member | source | states |
|---|---|---|
| RoutingScopes.ClusterTestsAgree | src/routing_scope.rs:138-151 | `is_cluster` agrees with the discovery operation on exactly the levels where a rack implies a datacenter |
| RoutingScopes.FromRack | src/routing_scope.rs:99-111 | what each combination of empty names stands for, and that the two cluster tests agree on the result |
| RoutingScopes.RoutingScope.WithFallback | src/routing_scope.rs:123-130 | the walk to the tail and the write there give the concatenation of the two chains, still a proper chain; so appending is associative |
| RoutingScopes.RoutingScope.HasRackRestriction | src/routing_scope.rs:154-157 | true iff some level of the chain has a rack |
| RoutingScopes.RoutingScope.WithoutRack | src/routing_scope.rs:165-180 | builds new cells holding exactly the widened chain |
| RoutingScopes.WidenIsFirsts | src/routing_scope.rs:165-180 | the `seen`-set loop equals an independently defined list of first occurrences |
| RoutingScopes.WidenMeaning | src/routing_scope.rs:159-164 | exactly the widened operations, each once, in order of first occurrence, no rack left, never empty |
| RoutingScopes.WidenIdempotent | src/routing_scope.rs:159-164 | widening twice is widening once |
| RoutingScopes.WidenOfConcatenation | src/routing_scope.rs:159-180 | widen(a then b) = widen(widen(a) then widen(b)) |
| RoutingScopes.WidenIgnoresRacks | src/routing_scope.rs:161-163 | clients in different racks with the same datacenter sequence derive the same chain |
| Refresh.StepDescends | src/live_nodes.rs:1065-1107 | every step of a refresh lowers (scopes left, seeds not loaded, queue length, pass position), whatever hosts answer |
| Refresh.EveryRefreshEnds | src/live_nodes.rs:1065-1107 | no refresh that keeps being scheduled runs forever, whatever others publish meanwhile |
| WalkResults.RequestBound | src/live_nodes.rs:1056-1107 | at most one request per queued host, per seed and per extra scope, plus one per candidate for each cluster level; without cluster levels no more than hosts + seeds + scopes - 1 |
| Turns.RequestsPerNode | src/live_nodes.rs:1056-1107 | and by distinct nodes: one for each that is live or additional, one per seed and per extra scope, and at each cluster level one for each node listed at its pass |
| Turns.QueueIsDistinct | src/live_nodes.rs:1057-1064 | the queue of a refresh has no repetition unless membership has, and one place for each live or additional node |
| Turns.EveryHostGetsItsTurn | src/live_nodes.rs:1065-1104 | over every life the hosts queued at the start are turned to one after the other, and none again before each has had its turn |
| Turns.RequestsAreCounted | src/live_nodes.rs:1071-1104 | the requests on record are those answered and the one in flight, each with the operation of its scope |
| WalkResults.WalkPublishesFirstNonEmptyScope | src/live_nodes.rs:1047-1108 | with consistent hosts and a responding node listed whenever it looks, a finished refresh hands over exactly the answer of the first scope with a non-empty answer, or nothing if all are empty, with others publishing between its steps |
| WalkResults.PublishesExactlyWhen | src/live_nodes.rs:1047-1108 | with consistent hosts, over every life of a refresh, it hands over that answer iff there is none, or its queue was not empty to begin with, some node listed at the load responds if a scoped level has to be asked, and some node listed at each cluster pass responds |
| WalkResults.StepSound | src/live_nodes.rs:1086-1106 | every step keeps what the walk has learnt right: a failed host never counts as an empty scope and never advances the scope |
| WalkResults.StepHopeful | src/live_nodes.rs:1086-1104 | while a scoped level has to be asked, a responding host is never lost: it is queued, being asked, or a seed still to be loaded |
| WalkResults.ReusePreservesPublication | src/live_nodes.rs:1068-1105 | whenever the walk that asks everything would publish, the one that reuses outcomes publishes the same list, if its load and each of its cluster passes list what the load and some pass of the other listed; what is published in between is arbitrary |
| WalkResults.AnsweredNeverAskedAgain | src/live_nodes.rs:1071-1074 | with reuse, an operation that has an outcome is never requested again |
| WalkResults.HandedOutcomesCostNothing | src/live_nodes.rs:1039-1042 | the outcomes handed over by the ordinary walk cost the affinity walk no request |
| Outcomes.AnswersAreOnRecord | src/live_nodes.rs:1071-1106 | over every life, whatever hosts answer: every scope passed is on record with the empty list, what is published is on record for its scope, and of other operations there is what was handed over |
| Outcomes.KnownScopesCostNothing | src/live_nodes.rs:1071-1074 | a reusing refresh whose scopes are on record up to the first that is not empty makes no request and publishes that outcome |
| Outcomes.HandedOverSaysItAll | src/live_nodes.rs:1000-1043 | what an ordinary refresh that published hands over is enough for an affinity refresh whose scopes, up to the one published, are among those it passed: no request, the same list |
| Outcomes.WithoutRacksNothingIsAskedAgain | src/live_nodes.rs:1000-1043 | so for a chain without racks the affinity refresh that follows one that published never makes a request |
| WalkResults.EmptyMembershipIsNeverRepaired | src/live_nodes.rs:1065-1091 | from an empty membership without additional candidates the walk ends without loading the seeds |
| WalkResults.SeedsAreSkippedExactlyWhen | src/live_nodes.rs:1056-1107 | over every life of a refresh, its queue is empty with the seeds not loaded iff it has just begun with an empty membership and no additional candidates |
| ClusterUnion.SkippingIsSound | src/live_nodes.rs:809-843 | if a reported candidate's answer is covered by the report, skipping it still gives the sorted duplicate-free union of all answers, and a result iff someone answered |
| ClusterUnion.OrderIsIrrelevant | src/live_nodes.rs:771-773 | then every shuffle gives the same list |
| ClusterUnion.SkippingCanLoseANode | src/live_nodes.rs:820-822 | without that condition the shuffle decides whether a node is found |
| SkippingExactness.MissedExactlyWhen | src/live_nodes.rs:819-834 | for all answers, some shuffle misses a node iff there is a chain of responding candidates that do not report it, none named by an answer before its own, whose answers name every candidate that does |
| SkippingExactness.OrderIsIrrelevantExactlyWhen | src/live_nodes.rs:771-834 | every shuffle gives the same list iff no node that some responding candidate reports has its reporters hidden by such a chain |
| SkippingExactness.AskedIsChain | src/live_nodes.rs:819-834 | the candidates a pass asks and that respond are such a chain, and what it finds is what they say |
| Solo.SoloRefinement | src/live_nodes.rs:1047-1108 | a refresh alone sets membership to the first non-empty scope's answer and changes nothing at all if every scope is empty |
| Solo.ReuseAlone | src/live_nodes.rs:1068-1105 | undisturbed, from any two views of which the second lists at least the nodes of the first: if the asking walk publishes, the reusing one publishes the same list and leaves the same membership |
| NodeViews.NodeView.BeginRefresh | src/live_nodes.rs:775-785 | draws the next generation, or refuses at the overflow and leaves the counter alone |
| NodeViews.NodeView.PublishPartialClusterLiveNodes | src/live_nodes.rs:787-807 | dropped below the published generation, otherwise membership is strictly sorted and has the old nodes and all those discovered |
| NodeViews.NodeView.PublishLiveNodes | src/live_nodes.rs:1110-1122 | dropped below the published generation, otherwise the list becomes membership |
| NodeViews.NodeView.ClusterDiscoveryCandidates | src/live_nodes.rs:761-773 | some permutation of the sorted duplicate-free live, seed and additional nodes |
| NodeViews.NodeView.DiscoverClusterLiveNodesFrom | src/live_nodes.rs:809-843 | the loop is a run of the refresh machine and returns the pass over the candidates |
| NodeViews.NodeView.UpdateLiveNodesFrom | src/live_nodes.rs:1047-1108 | the queue loop is a run of the refresh machine from start to finish; the outcomes it hands over are those of `AnswersAreOnRecord`; with consistent hosts membership becomes the first non-empty scope's answer |
| Interleaving.EveryRunIsSafe | src/live_nodes.rs:775-807 | over every interleaving membership is never empty, the published generation never decreases or passes the issued one, and a walk with an empty queue has loaded its seeds |
| Interleaving.OlderGenerationsAreSuperseded | src/live_nodes.rs:1110-1122 | after generation g has published its completed result no older generation changes the view |
| Interleaving.PartialOnlyAdds | src/live_nodes.rs:797-805 | a partial publication removes no node |
| PartialResults.PartialAddsWhatWasFound | src/live_nodes.rs:787-807 | a partial publication that is not suppressed makes membership the strictly sorted union of what it was and what was found; a suppressed one changes nothing |
| PartialResults.ReportsAreAnnounced | src/live_nodes.rs:819-834 | over every run, what a candidate reports is in membership when the next candidate is asked and stays there, unless a newer generation publishes |
| PartialResults.SkippedExactlyWhenFound | src/live_nodes.rs:819-823 | a candidate is skipped iff a node found so far has its host and port; only one that is asked costs a request |
| Interleaving.SuppressedOnlyByPublishers | src/live_nodes.rs:1115-1121 | a publication is dropped exactly when a newer generation has published; one that published nothing suppresses nothing |
| Interleaving.NewestPublisherWins | src/live_nodes.rs:1110-1122 | when every refresh has ended, membership is the result of the newest one that published, unless that one was cancelled midway |
| Interleaving.InterleavedRefinement | src/live_nodes.rs:1047-1108 | with consistent hosts and, for every refresh, a responding seed or additional candidate, each refresh that ends in any interleaving has the first non-empty scope's answer |
| Interleaving.MembershipSettles | src/live_nodes.rs:1047-1122 | and membership settles on that answer |
| TwoViews.BothViewsRefine | src/live_nodes.rs:1000-1043 | however the refreshes of the two views are interleaved, each ordinary one that ends has the first non-empty scope's answer and each affinity one, given the outcomes of an ended ordinary refresh and the nodes of the ordinary view at that time, that of the widened chain |
| TwoViews.HandedOverIsRight | src/live_nodes.rs:1000-1043 | the outcomes an ordinary refresh hands over are what the hosts answer, so nothing need be assumed of them |
| Handoff.OneOwner | src/live_nodes.rs:854-939 | at most one loop has not been told to abort, it is the registered one, and a registration never names a loop whose guard has run |
| Handoff.OneAffinityTask | src/live_nodes.rs:1008-1043 | at most one affinity task is unfinished and not told to abort, and none but its installer can be registered meanwhile |
| Handoff.OnlyTheOwnerInstalls | src/live_nodes.rs:1020-1037 | whoever installs affinity work is the registered, unaborted loop and no other such work is live |
| Handoff.StaleGuardClearsNothing | src/live_nodes.rs:506-518 | a guard clears its own registration and never a replacement |
| Handoff.ReplacedLoopStaysReplaced | src/live_nodes.rs:1020-1029 | a loop that lost its registration never gets it back and never installs another task, though it may still run |
| Handoff.TakeoverIsComplete | src/live_nodes.rs:888-938 | after a takeover has spawned or been refused, every other loop and every affinity task has ended or been told to abort |
| Handoff.NothingAdmittedAfterStop | src/discovery.rs:39-63 | after the stop no task is admitted by any step of the protocol |
| Handoff.NothingStartsAfterStop | src/discovery.rs:39-82 | in every run that goes on after a stop the tasks are those there were at the stop |
| Handoff.ShutdownIsFinal | src/discovery.rs:75-89 | once the tracker is closed and empty there is never a task again and none is polled |
| ClientRuns.ShutdownFreezesMembership | src/discovery.rs:84-89 | over every run of the protocol with the refreshes its tasks make: once the tracker is closed and empty every refresh has ended, neither view ever changes again, and each is the seeds or the result of the newest refresh that published, unless that one was cut short |
| ClientRuns.ShutdownLeavesTheAnswer | src/live_nodes.rs:854-1043 | and with consistent hosts and a responding seed that result is the first non-empty scope's answer, of the configured chain in the ordinary view and of the widened one in the affinity view |
| ClientRuns.ProtocolIsNotHeldUp | src/live_nodes.rs:1008-1043 | tying tasks to refreshes forbids no step of the protocol: a task that ends takes its refresh with it, and a loop that may install affinity work has the outcomes to hand over |
| ClientRuns.OneRefreshPerView | src/live_nodes.rs:888-939 | each refresh in progress belongs to a task that still runs, and at most one in each view to a task that has not been told to abort |
| ClientRuns.IsProtocolRun | src/live_nodes.rs:854-1043 | every such run is a run of the handoff protocol |
| ClientRuns.IsViewsRun | src/live_nodes.rs:1000-1043 | and a run of the two views, so the laws of both hold |
| DiscoveryManagers.DiscoveryManager.EnsureDiscoveryStarted | src/live_nodes.rs:854-939 | is a run of the protocol; starts a loop iff not stopped and not retained, and then that loop is the only live one and no affinity task is |
| DiscoveryManagers.DiscoveryManager.StartAffinityRefresh | src/live_nodes.rs:1008-1043 | is a run of the protocol; installs iff the caller is registered, no affinity task is unfinished and the client is not stopped |
| DiscoveryManagers.DiscoveryManager.DropGuard | src/live_nodes.rs:506-518 | is a run of the protocol; clears the registration iff it is its own |
| Probes.DiscoveryRuntime.ShouldHandoffAt | src/live_nodes.rs:451-474 | new state and answer of one liveness check |
| Probes.DiscoveryRuntime.AcknowledgeProbe | src/live_nodes.rs:476-486 | an answer withdraws the pending check, the demand for handoff and the re-check |
| Probes.DiscoveryRuntime.RetainDiscoveryOwner | src/live_nodes.rs:941-988 | kept iff on the same runtime or not to be handed off; what a kept owner's check leaves armed, whatever happens to the probe between the two locks |
| Probes.OneAccessSuffices | src/live_nodes.rs:957-988 | while a check is pending one access arms a re-check for the end of the interval, and unless the owner answers the check then demands handoff, whatever else happens |
| Probes.RecheckIsDueInTime | src/live_nodes.rs:957-972 | over every history an unfinished re-check belongs to the pending check and is due when its interval ends |
| Probes.PendingHasStarted | src/live_nodes.rs:964-964 | the `unwrap` of the start time cannot fail |
| Probes.ChecksAreApart | src/live_nodes.rs:462-472 | over every history two checks of an owner are started at least 250 ms apart, however often it answers in between |
| Probes.EarlyAccessDoesNothing | src/live_nodes.rs:466-473 | within that time an access with nothing pending leaves the probe as it is and keeps the owner |
| Probes.AnswerBuysHalfASecond | src/live_nodes.rs:451-486 | an owner that answered a check is given up, while its guard has not run, no earlier than 500 ms after that check was started |
| Probes.HandoffMeansUnanswered | src/live_nodes.rs:451-486 | an owner is given up only if its guard has run or a check stayed unanswered for the whole interval |
| Probes.SilentOwnerIsGivenUp | src/live_nodes.rs:451-474 | an owner that never answers again is given up after at most three checks an interval apart |
| KeptOwner.AnsweringOwnerIsKept | src/live_nodes.rs:854-988 | over every run of the handoff protocol with its probes, a running loop that answers each check before a later one finds it a full interval old is never told to abort by a takeover and stays registered |
| KeptOwner.SilentOwnerIsReplaced | src/live_nodes.rs:941-988 | one access that finds a check pending arms a re-check for the end of the interval; if the owner does not answer, whatever else happens, the next decision after that time on another runtime goes against it and its loop is told to abort |
| KeptOwner.DecisionIsAlwaysPossible | src/live_nodes.rs:941-956 | whatever its checks say, the decision is one the handoff protocol allows: an owner whose guard has run is always given up |
| KeptOwner.IsProtocolRun | src/live_nodes.rs:854-988 | every run with probes is a run of the handoff protocol, so its laws hold there too |
| Tasks.DiscoveryTasks.SpawnOn | src/discovery.rs:39-63 | a spawn is tracked as a new task or refused, depending on closure alone |
| Tasks.SpawnBeforeStopIsTracked | src/discovery.rs:39-63 | over every history a spawn before any stop is admitted, is new and is tracked, and after one changes nothing |
| Tasks.DiscoveryTasks.Shutdown | src/discovery.rs:86-89 | closes, and is ready exactly when nothing is tracked |
| Tasks.TrackedUntilDestroyed | src/discovery.rs:36-63 | over every history a task is tracked iff it was admitted and not destroyed since |
| Tasks.StopIsPermanent | src/discovery.rs:75-82 | after a stop nothing is admitted and the tracked set only shrinks |
| Tasks.ShutdownEmptiesForever | src/discovery.rs:84-89 | when any shutdown poll returns, every admitted task has been destroyed and none follows in any later history |
| DeterministicRng.Rng.NextU64 | src/keyrouting/deterministic_rng.rs:32-39 | the in-place shifts give the state map and the wrapped product |
| DeterministicRng.Rng.Index | src/keyrouting/deterministic_rng.rs:46-49 | the multiply-shift index of the next word, below the bound |
| DeterministicRng.SeedIsFirstState | src/keyrouting/deterministic_rng.rs:24-30 | a seed that is not 0 is the first state, and 0 stands for the fixed one |
| DeterministicRng.SeedsStayApart | src/keyrouting/deterministic_rng.rs:24-39 | generators of different seeds are in different states, and give different words, after equally many draws |
| DeterministicRng.OutputIsInvertible | src/keyrouting/deterministic_rng.rs:38-38 | the wrapped product modulo 2^64 determines the state |
| StableOrders.StableOrdersOfTenNodes | src/query_plan.rs:255-302 | however ten nodes are published, the orders of seeds 42, 0 and -1 begin with the six nodes the client's stable routing vectors name |
| DeterministicRng.StateMapIsBijection | src/keyrouting/deterministic_rng.rs:32-37 | one-to-one, onto, and 0 only from 0 |
| DeterministicRng.StateNeverZero | src/keyrouting/deterministic_rng.rs:24-30 | no seed and no number of draws reaches state 0 |
| DeterministicRng.ScaleMonotone | src/keyrouting/deterministic_rng.rs:46-49 | a larger word never gives a smaller index |
| DeterministicRng.IndexIsUniform | src/keyrouting/deterministic_rng.rs:46-49 | each index below n is hit by either the floor or the ceiling of 2^64/n of the 64-bit words |
| QueryPlans.RoundRobinMeaning | src/live_nodes.rs:694-712 | returns a live unused node iff there is one, and moves the counter exactly then |
| QueryPlans.LiveNodes.GetNextNodeRoundRobin | src/live_nodes.rs:694-712 | the loop returns the first unused node cyclically from the counter |
| Text.LessExactlyWhen | src/query_plan.rs:179-181 | URLs are ordered by the first character that differs, a proper prefix first |
| QueryPlans.SeededPlan | src/query_plan.rs:62-74 | a permutation of the membership as a multiset, first the preferred node of the seed, the same for every published order |
| QueryPlans.PreferMeaning | src/query_plan.rs:78-98 | preferred nodes first in the given order, then the rest of the sorted snapshot, nothing lost or added |
| QueryPlans.AlwaysRouted | src/query_plan.rs:130-146 | a restarting draw returns a node whenever membership has one at the second attempt, whatever it was at the first |
| QueryPlans.OrderedDraws | src/query_plan.rs:112-156 | draw k of a captured order is node k mod n of it, whatever happens to the topology |
| QueryPlans.QueryPlan.WithHash | src/query_plan.rs:62-74 | the swap-remove loop captures the seeded order |
| QueryPlans.QueryPlan.WithPreferredNodes | src/query_plan.rs:78-98 | the position-and-remove loop captures the preferred order |
| QueryPlans.QueryPlan.NextNode | src/query_plan.rs:112-128 | node, plan state and shared counter after one draw |
| QueryPlans.QueryPlan.NextNodeOrRestart | src/query_plan.rs:139-156 | the restarting draw with any change of the shared view between its two attempts: node, plan and counter; a node whenever the second attempt sees one |
| RoundRobinRuns.RestartingDrawIsAttempts | src/query_plan.rs:112-156 | a restarting draw of a round-robin plan is one attempt of the model of plans on one counter, or two |
| RoundRobinRuns.NoNodeTwice | src/query_plan.rs:112-128 | without a restart a plan returns no node twice, whatever happens to membership and counter |
| RoundRobinRuns.EveryPassIsAPermutation | src/live_nodes.rs:694-712 | for any number of plans on one counter, interleaved anyhow, wrapped or not, each aligned block of n draws of a plan is a permutation of membership |
| RoundRobinRuns.CounterCountsDraws | src/live_nodes.rs:705-705 | the counter has moved once per node returned, modulo 2^64 |
| SharedCounters.DrawnExactlyWhen | src/live_nodes.rs:705-711 | a draw returns a node iff it is unused and every place from the counter up to it is used |
| SharedCounters.RepeatsExactlyWhenOnTrack | src/live_nodes.rs:694-712 | for any interleaving, a plan repeats itself with period n, and all its windows of n draws are permutations, iff the counter found at each draw after the first pass is on track |
| SharedCounters.NextDrawRepeatsExactlyWhen | src/live_nodes.rs:705-711 | a plan that has repeated itself so far does so at its next draw iff the counter is on track before it |
| SharedCounters.InStepIsPeriodic | src/live_nodes.rs:705-705 | a plan is periodic if, from each draw to the one a pass later, the other plans return a multiple of n nodes, and the counter does not wrap or n divides 2^64 |
| RoundRobinRuns.SharedCounterBreaksThePeriod | src/query_plan.rs:149-156 | a run with two plans in which one does not |
| RoundRobinRuns.AloneIsCyclic | src/query_plan.rs:105-110 | a plan alone, before the counter wraps, goes round membership in published order |
| Votes.BatchPlanMeaning | src/interceptors.rs:438-479 | votes add up to the usable keys; voted nodes by falling count then name, the rest in URL order; a permutation of the snapshot |
| Votes.UsableMeaning | src/interceptors.rs:441-445 | the keys that vote are exactly those with a hash, in order, each as often as it occurs |
| Votes.BatchPlanUnique | src/interceptors.rs:438-456 | the plan depends only on the multisets of usable hashes and of members |
| Votes.PreferenceOrderUnique | src/interceptors.rs:466-479 | the votes determine the order |
| Votes.VotePreferenceOrder | src/interceptors.rs:466-479 | however the map is iterated, the sorted entries give that order; nothing iff there are no votes |
| Votes.TryBatchPlan | src/interceptors.rs:438-456 | builds the batch order, or falls back iff no key is usable or there is no member |
| Routing.EveryAttemptIsRouted | src/interceptors.rs:156-162 | every attempt of every plan gets a node, whatever refreshes publish before, between and within the attempts |
| Resolver.DecisionUnique | src/keyrouting/resolver.rs:172-244 | the responses determine verdict and number of requests: the first non-transient one among the first four |
| Resolver.VerdictConcludes | src/keyrouting/resolver.rs:188-228 | a key found is cached; a table denied or without key cannot be tried again for 300 s and can after that; one that failed in passing can at once; nothing else changes |
| Resolver.FourTransientsFail | src/keyrouting/resolver.rs:220-233 | it takes one answer that is not transient, or four that are |
| Resolver.BackoffSchedule | src/keyrouting/resolver.rs:235-242 | the sleeps are within a fifth of 100, 200 and 400 ms |
| Resolver.CalculateJitteredDelay | src/keyrouting/resolver.rs:264-271 | at least 1 and within a fifth of the base either way |
| Resolver.PartitionKeyResolver.TriggerDiscovery | src/keyrouting/resolver.rs:120-163 | claims iff not stopped, not cached, a runtime is there, not in progress and not cooling down; spawns iff then still not cached; what it leaves in the tables |
| Resolver.PartitionKeyResolver.DiscoverWithRetry | src/keyrouting/resolver.rs:172-244 | requests and sleeps are those the responses decide; the deciding response concludes the table, as in `VerdictConcludes`, in the tables as others have left them; nothing is written if it is cancelled at an await first; each sleep is jittered around a doubling, capped base |
| ResolverRuns.MutualExclusion | src/keyrouting/resolver.rs:120-163 | in every interleaving at most one task per table is live, and the marker is set exactly while a claim or task holds it, which is then the only one |
| ResolverRuns.CacheIsWriteOnce | src/keyrouting/resolver.rs:188-197 | an entry, configured or discovered, never changes |
| ResolverRuns.WriteConcludes | src/keyrouting/resolver.rs:188-228 | in any interleaving the one write of a running task does to the tables what the method promises |
| ResolverRuns.FoundKeyStays | src/keyrouting/resolver.rs:188-197 | a key that was found is in the cache from then on |
| ResolverRuns.NothingStartsAfterStop | src/keyrouting/resolver.rs:120-163 | once the client is stopped no discovery starts, and a trigger that comes then ends at its first look |
| CooldownRuns.DiscardsCoolingExactlyWhen | src/keyrouting/resolver.rs:125-145 | in every run, a discovery discards a failure that is cooling down iff, after its trigger had looked, a task of the table recorded a permanent failure, nothing touched the record since and the cooldown has not passed since |
| CooldownRuns.UndisturbedTriggerRespectsCooldown | src/keyrouting/resolver.rs:125-145 | a trigger whose table gets no permanent failure between its look and its clear never discards a record that is cooling down |
| CooldownRuns.RecordIsLastWritten | src/keyrouting/resolver.rs:192-227 | in every run the record is what the last step to touch it left, and its age is the time passed since |
| ResolverRuns.CooldownCanBeMissed | src/keyrouting/resolver.rs:125-145 | and a run in which it does |
| ResolverRuns.TriggerIsARun | src/keyrouting/resolver.rs:120-163 | undisturbed, the steps of a trigger do what the method says |
| OptimizeHeaders.ParseSignedHeaders | src/optimize_headers.rs:73-105 | the loop with its early exits computes the parser function |
| OptimizeHeaders.ParserMeetsGrammar | src/optimize_headers.rs:73-105 | accepts exactly the headers of a generative grammar and returns the list they sign, strictly sorted and canonical |
| OptimizeHeaders.ParseParameterMeaning | src/optimize_headers.rs:81-90 | a raw parameter is accepted iff it is a well-formed name=value with blanks around it |
| OptimizeHeaders.FormatThenParse | src/optimize_headers.rs:73-130 | formatting a strictly sorted list of tokens among other well-formed parameters and parsing gives the list back |
| OptimizeHeaders.TheUsualHeader | src/optimize_headers.rs:73-105 | `AWS4-HMAC-SHA256 <credential>, SignedHeaders=host;x-amz-date, <signature>` signs host and x-amz-date, whatever the credential and the signature |
| OptimizeHeaders.StripHeaders | src/optimize_headers.rs:20-71 | the deletion loop leaves exactly the allowed headers, or everything when the request is not understood |
| OptimizeHeaders.SignatureSurvives | src/optimize_headers.rs:38-70 | for a request written by a signer every signed header keeps presence and values, and of the rest exactly the whitelisted stay |
| OptimizeHeaders.UnsignedKeepsSix | src/optimize_headers.rs:20-71 | of an unsigned request exactly host, x-amz-target, content-length, content-type, accept-encoding and content-encoding stay, with their values |
| OptimizeHeaders.SignedKeepsTenAndList | src/optimize_headers.rs:20-71 | of a signed one that is understood those stay, the four that go with a signature, and what it signs |
| OptimizeHeaders.AcceptedListSurvives | src/optimize_headers.rs:38-70 | any accepted list is strictly sorted and canonical and none of its headers is dropped or changed |
| OptimizeHeaders.AcceptedNamesAreLowerCase | src/optimize_headers.rs:107-130 | every name on an accepted list is made of lower-case letters, digits and the punctuation of a token |
| OptimizeHeaders.LeftAloneUnlessUnderstood | src/optimize_headers.rs:38-52 | a signed request is touched only if it has one authorization header and that is in the grammar |
| OptimizeHeaders.StripIdempotent | src/optimize_headers.rs:20-71 | stripping twice is stripping once |
| ContentEncodings.CollectEncodings | src/interceptors.rs:196-215 | all tokens recognised within the limit, or the first position that fails and why |
| ContentEncodings.JudgedUnique | src/interceptors.rs:196-215 | the tokens and the limit determine the outcome |
| ContentEncodings.NamesAreExactly | src/compression.rs:130-141 | gzip and x-gzip mean gzip and deflate means deflate, in any case, padded or not, with or without parameters; no other name is accepted |
| ContentEncodings.WrittenTokensAreRead | src/interceptors.rs:194-200 | tokens written on lines, padded and separated by commas, are read back line after line |
| ContentEncodings.RepeatedLinesMeanOne | src/interceptors.rs:194-198 | repeated header lines mean what one comma-joined line means |
| ResponseStreams.StackMeetsStages | src/decompression.rs:90-98 | the limited stack ends cleanly iff every stage, decoded in full, is complete and within the limit, and then it is the last stage |
| ResponseStreams.ExcessIsNoticed | src/decompression.rs:172-176 | an over-long stage is noticed even behind the end of the member the next decoder reads |
| ResponseStreams.LastStageMeaning | src/decompression.rs:90-98 | the stack is the limited last stage, and that stage is the full one when the earlier ones fit |
| ResponseStreams.EncodeThenStack | src/decompression.rs:68-98 | data encoded layer by layer comes back iff it and every encoded form but the outermost fit |
| ResponseStreams.DecodeUndoes | src/decompression.rs:172-176 | an encoded member decodes to its data whatever trails it, and ends as its input ends |
| DecoderStates.ConsumeStep | src/decompression.rs:148-170 | consuming a byte of input changes nothing about what is left to deliver |
| DecoderStates.EmitStep | src/decompression.rs:148-170 | handing out bytes takes exactly those from what is left |
| DecoderStates.DrainStep | src/decompression.rs:221-231 | once decoding is complete only the way the input ends still matters |
| Decompression.CompleteStageDecoder.PollDecode | src/decompression.rs:149-158 | the library decoder, with arbitrary chunking, stopping and lost output, delivers a prefix and says it is done only when it is |
| Decompression.CompleteStageDecoder.PollRead | src/decompression.rs:201-233 | delivers the next bytes of the decoded stream; the end only when the input has ended cleanly; an error only if the stream is to fail; any other poll uses up effort |
| Decompression.SizeLimitedReader.PollRead | src/decompression.rs:249-273 | the same for the limited stream; if the limited stage is complete, an error comes only when the full limit has been passed on |
| Decompression.PollReader | src/decompression.rs:201-273 | the same for any stack of readers |
| Decompression.WrapDecompressedBody | src/decompression.rs:74-104 | the reversed fold builds readers whose stream is the stack of the body, or fails iff there are too many layers |
| Decompression.DecompressResponse | src/decompression.rs:74-141 | for every arrival, schedule and buffer size: a clean end means every stage fits and the data is the last stage, an error means one does not, a last stage that alone is too long hands out exactly the limit's worth of bytes first, and one of the two comes about within as many polls as there are delays, bytes received and bytes decoded |

## Left out

- HTTP, TLS, native roots, URL building and parsing, client construction and configuration: a probe is a failure or a list of nodes.
- gzip, zlib and murmur3 themselves: a codec and a hash are parameters.
- The follow-up task of a kept owner: `Probes` says when it is armed, due and withdrawn; its call of `ensure_discovery_started` is one of those the handoff model allows anyone at any time.
- DiscoveryManagers.DiscoveryManager.EnsureDiscoveryStarted: the follow-up it arms when it keeps an owner is in `Probes.DiscoveryRuntime.RetainDiscoveryOwner`; here what the probe says is a parameter.
- The cancellation token and the tracker's closure are one step, as both happen under the registration lock.
- The panic at the overflow of the generation counter: in `Interleaving` and `ClientRuns` such a refresh does not begin, and its task can only end.
- In `Handoff` the answer of a probe is arbitrary; `KeptOwner` carries the probe's history along and lets it decide.
- Dropping the discovery manager is allowed whenever its mutex is free, which is more often than the reference counts allow.
- Wake-ups and timing: `notify_one`, sleeps, idle intervals and deadlines are arbitrary scheduling, so nothing is said about when a step happens.
- The single-key branch of `try_affinity_plan`, the write classifier and the affinity configuration: short branch tables that pick a hash.
- Applying a node to the request URI and the error returned when there is none.
- Request compression, user-agent handling and the choice of response compression settings.
- Header names are lower case, as the HTTP library keeps them; iteration order of the header map is arbitrary.
- Nothing is said about polling a reader after it has returned an error.
- WalkResults.WalkPublishesFirstNonEmptyScope: one direction only; `PublishesExactlyWhen` gives the exact condition.
- ClusterUnion.SkippingIsSound: one direction only; `MissedExactlyWhen` and `OrderIsIrrelevantExactlyWhen` give the exact conditions.
- Resolver.PartitionKeyResolver.TriggerDiscovery: of what other tasks do meanwhile it has only the cache at the second look; `ResolverRuns` covers all interleavings.
- Decompression.DecompressResponse: a body that is never ready again is left out; each body is ready after finitely many polls.
- Decompression.CompleteStageDecoder.PollDecode: a decoder that fails may lose bytes it had decoded in that poll, so on a failing stream only a prefix is promised.
- RoundRobinRuns.EveryPassIsAPermutation: for aligned blocks only, because unaligned windows are permutations only under the condition `RepeatsExactlyWhenOnTrack` states.
