/** Resolving a table's partition key in the background: the trigger and the
    bounded retry loop. `ResolverRuns` interleaves them. */
module Resolver {
  import opened Wrappers

  const MAX_RETRIES: nat := 3
  const INITIAL_RETRY_DELAY_MS: nat := 100
  const MAX_RETRY_DELAY_MS: nat := 2000
  const PERMANENT_FAILURE_COOLDOWN_MS: nat := 300_000

  // Milliseconds on a clock that never goes back.
  type Instant = nat

  datatype FailureRecord = FailureRecord(timestamp: Instant, permanent: bool)

  predicate CanRetry(r: FailureRecord, now: Instant) {
    !r.permanent || now > r.timestamp + PERMANENT_FAILURE_COOLDOWN_MS
  }

  // ----- The retry loop -----

  datatype Response = KeyFound(name: string) | NoHashKey | PermanentError | TransientError

  datatype Verdict = Resolved(name: string) | Failed(permanent: bool)

  function VerdictOf(r: Response): Verdict {
    match r
    case KeyFound(name) => Resolved(name)
    case NoHashKey => Failed(true)
    case PermanentError => Failed(true)
    case TransientError => Failed(false)
  }

  ghost predicate AllTransient(responses: nat -> Response, n: nat) {
    forall k: nat :: k < n ==> responses(k).TransientError?
  }

  // The first answer that is not transient decides, if it is among the first
  // `MAX_RETRIES + 1`.
  ghost predicate Decides(responses: nat -> Response, requests: nat, verdict: Verdict) {
    && 1 <= requests <= MAX_RETRIES + 1
    && AllTransient(responses, requests - 1)
    && verdict == VerdictOf(responses(requests - 1))
    && (responses(requests - 1).TransientError? ==> requests == MAX_RETRIES + 1)
  }

  lemma NotEarlier(responses: nat -> Response, m: nat, v: Verdict, n: nat, w: Verdict)
    requires Decides(responses, m, v) && Decides(responses, n, w)
    ensures n <= m
  {
    var last: nat := m - 1;
    assert responses(last).TransientError? ==> m == MAX_RETRIES + 1;
    assert last < n - 1 ==> responses(last).TransientError?;
  }

  // The responses determine the verdict and the number of requests.
  lemma DecisionUnique(responses: nat -> Response, m: nat, v: Verdict, n: nat, w: Verdict)
    requires Decides(responses, m, v) && Decides(responses, n, w)
    ensures m == n && v == w
  {
    NotEarlier(responses, m, v, n, w);
    NotEarlier(responses, n, w, m, v);
  }

  // The source's schedule: three sleeps around 100, 200 and 400 ms.
  lemma BackoffSchedule(sleeps: seq<nat>)
    requires BackedOff(sleeps) && |sleeps| <= MAX_RETRIES
    ensures |sleeps| <= 3
    ensures |sleeps| > 0 ==> 80 <= sleeps[0] <= 120
    ensures |sleeps| > 1 ==> 160 <= sleeps[1] <= 240
    ensures |sleeps| > 2 ==> 320 <= sleeps[2] <= 480
  {
    assert BaseDelay(0) == 100 && BaseDelay(1) == 200 && BaseDelay(2) == 400;
  }

  // Longer schedules would stop growing at two seconds.
  lemma {:induction false} BaseDelayIsCapped(k: nat)
    ensures BaseDelay(k) == if k >= 5 then 2000 else [100, 200, 400, 800, 1600][k]
  {
    if k > 0 {
      BaseDelayIsCapped(k - 1);
    }
  }

  // It takes one answer that is not transient, or four that are.
  lemma FourTransientsFail(responses: nat -> Response, requests: nat, verdict: Verdict)
    requires Decides(responses, requests, verdict)
    ensures requests <= 4
    ensures responses(requests - 1).TransientError? ==>
              && requests == 4
              && responses(0).TransientError? && responses(1).TransientError? && responses(2).TransientError?
  {
  }

  function AtLeastOne(d: int): nat {
    if d < 1 then 1 else d
  }

  function BaseDelay(k: nat): nat {
    if k == 0 then INITIAL_RETRY_DELAY_MS else Doubled(BaseDelay(k - 1))
  }

  function Doubled(delay: nat): nat {
    if delay * 2 < MAX_RETRY_DELAY_MS then delay * 2 else MAX_RETRY_DELAY_MS
  }

  // At most a fifth of the base either way, and never zero.
  predicate WithinJitter(base: nat, delay: nat) {
    1 <= delay && 4 * base <= 5 * delay && 5 * delay <= 6 * base
  }

  // Sleep `k` is the k-th base delay, jittered.
  ghost predicate BackedOff(sleeps: seq<nat>) {
    forall k :: 0 <= k < |sleeps| ==> WithinJitter(BaseDelay(k), sleeps[k])
  }

  lemma OneMoreSleep(sleeps: seq<nat>, delay: nat)
    requires BackedOff(sleeps) && WithinJitter(BaseDelay(|sleeps|), delay)
    ensures BackedOff(sleeps + [delay])
  {
  }

  method CalculateJitteredDelay(baseDelay: nat) returns (delay: nat)
    ensures baseDelay >= 1 ==> WithinJitter(baseDelay, delay)
    ensures baseDelay < 5 ==> delay == baseDelay
  {
    var jitterRange := (baseDelay as real * 0.2).Floor;
    if jitterRange == 0 {
      return baseDelay;
    }
    var jitter: int :| -jitterRange <= jitter <= jitterRange;
    delay := AtLeastOne(baseDelay + jitter);
  }

  method Sleep(sleeps: seq<nat>, delay: nat) returns (longer: seq<nat>)
    requires BackedOff(sleeps) && delay == BaseDelay(|sleeps|) >= 1
    ensures |longer| == |sleeps| + 1 && BackedOff(longer) && sleeps < longer
  {
    var jittered := CalculateJitteredDelay(delay);
    OneMoreSleep(sleeps, jittered);
    longer := sleeps + [jittered];
  }

  // The shared tables as a value.
  datatype Tables = Tables(
    closed: bool,
    cache: map<string, string>,
    inProgress: set<string>,
    failedTables: map<string, FailureRecord>)

  // What a task that has come to its verdict writes.
  function Written(t: Tables, tableName: string, verdict: Option<Verdict>, now: Instant): Tables {
    match verdict
    case None => t
    case Some(Resolved(name)) => t.(cache := t.cache[tableName := name])
    case Some(Failed(permanent)) => t.(failedTables := t.failedTables[tableName := FailureRecord(now, permanent)])
  }

  // No attempt before `until`, any after it.
  ghost predicate BlockedUntil(r: FailureRecord, from: Instant, until: Instant) {
    forall t: Instant :: t >= from ==> (CanRetry(r, t) <==> t > until)
  }

  // What becomes of the tables: a key is cached for good; a table that is denied
  // or has no key cools down for five minutes; one that failed four times in
  // passing can be tried again at once; nothing else changes.
  ghost predicate Concludes(found: Tables, t: Tables, tableName: string, response: Response, now: Instant) {
    && t.closed == found.closed && t.inProgress == found.inProgress
    && (forall other :: other != tableName ==>
          && (other in t.cache <==> other in found.cache)
          && (other in t.failedTables <==> other in found.failedTables)
          && (other in t.cache ==> t.cache[other] == found.cache[other])
          && (other in t.failedTables ==> t.failedTables[other] == found.failedTables[other]))
    && (if response.KeyFound? then
          tableName in t.cache && t.cache[tableName] == response.name && t.failedTables == found.failedTables
        else
          && tableName in t.failedTables && t.cache == found.cache
          && (response.TransientError? ==> forall any: Instant :: CanRetry(t.failedTables[tableName], any))
          && (!response.TransientError? ==> BlockedUntil(t.failedTables[tableName], now, now + 300_000)))
  }

  lemma VerdictConcludes(found: Tables, tableName: string, response: Response, now: Instant)
    ensures Concludes(found, Written(found, tableName, Some(VerdictOf(response)), now), tableName, response, now)
  {
  }

  class PartitionKeyResolver {
    var closed: bool
    var cache: map<string, string>
    var inProgress: set<string>
    var failedTables: map<string, FailureRecord>

    constructor (pkInfo: map<string, string>)
      ensures !closed && cache == pkInfo && inProgress == {} && failedTables == map[]
    {
      closed, cache, inProgress, failedTables := false, pkInfo, {}, map[];
    }

    function State(): Tables
      reads this
    {
      Tables(closed, cache, inProgress, failedTables)
    }

    // Others use the tables.
    method Meanwhile(t: Tables)
      modifies this
      ensures State() == t
    {
      closed, cache, inProgress, failedTables := t.closed, t.cache, t.inProgress, t.failedTables;
    }

    // Whether a task starts, and what the trigger leaves behind. `later` is what
    // other tasks have made of the cache when it is looked at again.
    method TriggerDiscovery(tableName: string, hasRuntime: bool, now: Instant, later: map<string, string>)
      returns (spawned: bool)
      modifies this
      ensures var claimed := !old(closed) && tableName !in old(cache) && hasRuntime && tableName !in old(inProgress)
                             && (tableName in old(failedTables) ==> CanRetry(old(failedTables)[tableName], now));
              && (spawned <==> claimed && tableName !in later)
              && cache == (if claimed then later else old(cache))
      ensures closed == old(closed)
      ensures inProgress == old(inProgress) + if spawned then {tableName} else {}
      ensures failedTables == if spawned then old(failedTables) - {tableName} else old(failedTables)
    {
      if closed || tableName in cache {
        return false;
      }
      if tableName in failedTables && !CanRetry(failedTables[tableName], now) {
        return false;
      }
      if !hasRuntime {
        return false;
      }
      if tableName in inProgress {
        return false;
      }
      inProgress := inProgress + {tableName};
      cache := later;
      if tableName in cache {
        inProgress := inProgress - {tableName};
        return false;
      }
      failedTables := failedTables - {tableName};
      return true;
    }

    method RecordFailure(tableName: string, now: Instant, permanent: bool)
      modifies this
      ensures State() == Written(old(State()), tableName, Some(Failed(permanent)), now)
    {
      failedTables := failedTables[tableName := FailureRecord(now, permanent)];
    }

    // What a response leads to, in the tables as they are when it comes;
    // `last`: no attempt is left.
    method TakeResponse(tableName: string, response: Response, last: bool, now: Instant, found: Tables)
      returns (verdict: Option<Verdict>)
      modifies this
      ensures verdict == if response.TransientError? && !last then None else Some(VerdictOf(response))
      ensures State() == Written(found, tableName, verdict, now)
    {
      Meanwhile(found);
      verdict := if response.TransientError? && !last then None else Some(VerdictOf(response));
      match response
      case KeyFound(name) => cache := cache[tableName := name];
      case NoHashKey => RecordFailure(tableName, now, true);
      case PermanentError => RecordFailure(tableName, now, true);
      case TransientError =>
        if last {
          RecordFailure(tableName, now, false);
        }
    }

    // `cancelled(k)`: the task is dropped at its k-th await, a request or a
    // sleep; `others(k)`: the tables as it finds them after that await. Its one
    // write goes to the tables as they are then, and it changes nothing else.
    method DiscoverWithRetry(
      tableName: string, responses: nat -> Response, clock: nat -> Instant, cancelled: nat -> bool, others: nat -> Tables)
      returns (requests: nat, sleeps: seq<nat>, ghost verdict: Option<Verdict>)
      modifies this
      ensures verdict.Some? ==> Decides(responses, requests, verdict.value) && |sleeps| == requests - 1
      ensures verdict.Some? ==> NotCancelledBefore(cancelled, requests + |sleeps|)
      ensures verdict.None? ==> CancelledFirstAt(cancelled, requests + |sleeps|) && |sleeps| <= requests <= |sleeps| + 1
      ensures BackedOff(sleeps)
      ensures var awaits := requests + |sleeps|;
              var found := if awaits == 0 then old(State()) else others(awaits - 1);
              && State() == Written(found, tableName, verdict, clock(requests))
              && (verdict.Some? ==> Concludes(found, State(), tableName, responses(requests - 1), clock(requests)))
    {
      var attempt, delay := 0, INITIAL_RETRY_DELAY_MS;
      requests, sleeps, verdict := 0, [], None;
      while true
        invariant attempt == requests == |sleeps| <= MAX_RETRIES
        invariant delay == BaseDelay(attempt) && delay >= 1
        invariant verdict.None? && NotCancelledBefore(cancelled, requests + |sleeps|)
        invariant AllTransient(responses, requests)
        invariant BackedOff(sleeps)
        invariant State() == if requests == 0 then old(State()) else others(requests + |sleeps| - 1)
        decreases MAX_RETRIES + 1 - attempt
      {
        if cancelled(requests + |sleeps|) {
          return;
        }
        var response, found := responses(requests), others(requests + |sleeps|);
        requests := requests + 1;
        attempt := attempt + 1;
        var concluded := TakeResponse(tableName, response, attempt > MAX_RETRIES, clock(requests), found);
        if concluded.Some? {
          VerdictConcludes(found, tableName, response, clock(requests));
          verdict := concluded;
          return;
        }
        if cancelled(requests + |sleeps|) {
          return;
        }
        sleeps := Sleep(sleeps, delay);
        Meanwhile(others(requests + |sleeps| - 1));
        delay := Doubled(delay);
      }
    }
  }

  ghost predicate CancelledFirstAt(cancelled: nat -> bool, k: nat) {
    cancelled(k) && NotCancelledBefore(cancelled, k)
  }

  ghost predicate NotCancelledBefore(cancelled: nat -> bool, n: int) {
    forall k: nat :: k < n ==> !cancelled(k)
  }
}
