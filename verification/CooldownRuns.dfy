/** When a discovery throws away a failure record whose cooldown has not run
    out, in terms of the steps that led there. */
module CooldownRuns {
  import Resolver
  import opened ResolverRuns

  // ----- Who last wrote a table's failure record -----

  predicate Touches(s: State, a: Action, table: string) {
    (a.ClearFailure? || a.WriteFailure?) && a.id in s.agents && s.agents[a.id].table == table
  }

  // Step `k` writes or removes the failure record of `table`.
  predicate TouchesAt(first: State, acts: seq<Action>, k: nat, table: string) {
    && k < |acts|
    && match Exec(first, acts[..k])
       case None => false
       case Some(s) => Touches(s, acts[k], table)
  }

  ghost predicate LastTouch(first: State, acts: seq<Action>, w: nat, table: string) {
    TouchesAt(first, acts, w, table) && forall v: nat :: w < v ==> !TouchesAt(first, acts, v, table)
  }

  function Elapsed(acts: seq<Action>): nat {
    if acts == [] then 0
    else
      var a := acts[|acts| - 1];
      Elapsed(acts[..|acts| - 1]) + if a.Tick? then a.elapsed else 0
  }

  lemma TouchesInPrefix(first: State, acts: seq<Action>, n: nat, k: nat, table: string)
    requires k < n <= |acts|
    ensures TouchesAt(first, acts[..n], k, table) <==> TouchesAt(first, acts, k, table)
  {
    assert acts[..n][..k] == acts[..k];
  }

  lemma LastTouchBefore(first: State, acts: seq<Action>, w: nat, table: string)
    requires acts != [] && w < |acts| - 1 && LastTouch(first, acts, w, table)
    ensures LastTouch(first, acts[..|acts| - 1], w, table)
  {
    var n := |acts| - 1;
    TouchesInPrefix(first, acts, n, w, table);
    forall v: nat | w < v ensures !TouchesAt(first, acts[..n], v, table) {
      if v < n {
        TouchesInPrefix(first, acts, n, v, table);
      }
    }
  }

  lemma LastTouchAfter(first: State, acts: seq<Action>, w: nat, table: string)
    requires acts != [] && LastTouch(first, acts[..|acts| - 1], w, table)
    requires !TouchesAt(first, acts, |acts| - 1, table)
    ensures LastTouch(first, acts, w, table)
  {
    var n := |acts| - 1;
    TouchesInPrefix(first, acts, n, w, table);
    forall v: nat | w < v ensures !TouchesAt(first, acts, v, table) {
      if v < n {
        TouchesInPrefix(first, acts, n, v, table);
      }
    }
  }

  lemma UntouchedStep(s: State, a: Action, table: string)
    requires Possible(s, a) && !Touches(s, a, table)
    ensures var t := Do(s, a);
            && (table in t.failed <==> table in s.failed)
            && (table in s.failed ==> t.failed[table] == s.failed[table])
            && t.now == s.now + if a.Tick? then a.elapsed else 0
  {
  }

  // The record is what the last step to touch it left, and its age is the time
  // that has passed since.
  lemma {:induction false} RecordIsLastWritten(first: State, acts: seq<Action>, w: nat, table: string)
    requires Exec(first, acts).Some? && LastTouch(first, acts, w, table)
    ensures var s := Exec(first, acts).value;
            if acts[w].WriteFailure? then
              && table in s.failed && s.failed[table].permanent == acts[w].permanent
              && s.failed[table].timestamp + Elapsed(acts[w + 1..]) == s.now
            else table !in s.failed
  {
    var n := |acts| - 1;
    var before := acts[..n];
    if w == n {
      assert acts[w + 1..] == [];
    } else {
      LastTouchBefore(first, acts, w, table);
      RecordIsLastWritten(first, before, w, table);
      assert !TouchesAt(first, acts, n, table);
      UntouchedStep(Exec(first, before).value, acts[n], table);
      assert acts[w + 1..][..|acts[w + 1..]| - 1] == before[w + 1..];
    }
  }

  // ----- From the look to the clear -----

  // Agents between looking at the failure record and removing it.
  predicate PastCooldown(s: State, id: Id) {
    id in s.agents && var p := s.agents[id].place; p.Allowed? || p.Claimed? || p.Rechecked?
  }

  // After `id` looked, step `w` recorded a permanent failure of its table, and
  // no step has touched that record since.
  ghost predicate FailedAfterLook(first: State, acts: seq<Action>, id: Id, table: string, w: nat) {
    && LastTouch(first, acts, w, table) && acts[w].WriteFailure? && acts[w].permanent
    && CheckCooldown(id) in acts[..w]
  }

  ghost predicate FailedMeanwhile(first: State, acts: seq<Action>, id: Id, table: string) {
    exists w: nat :: FailedAfterLook(first, acts, id, table, w)
  }

  lemma MeanwhileKept(first: State, acts: seq<Action>, id: Id, table: string)
    requires acts != [] && FailedMeanwhile(first, acts[..|acts| - 1], id, table)
    requires !TouchesAt(first, acts, |acts| - 1, table)
    ensures FailedMeanwhile(first, acts, id, table)
  {
    var w: nat :| FailedAfterLook(first, acts[..|acts| - 1], id, table, w);
    LastTouchAfter(first, acts, w, table);
    assert acts[..|acts| - 1][..w] == acts[..w];
    assert FailedAfterLook(first, acts, id, table, w);
  }

  lemma TouchedLast(first: State, acts: seq<Action>, id: Id, table: string)
    requires acts != [] && Exec(first, acts).Some? && TouchesAt(first, acts, |acts| - 1, table)
    requires CheckCooldown(id) in acts[..|acts| - 1]
    ensures Cooling(Exec(first, acts).value, table) ==> FailedMeanwhile(first, acts, id, table)
  {
    var n := |acts| - 1;
    assert LastTouch(first, acts, n, table);
    RecordIsLastWritten(first, acts, n, table);
    if Cooling(Exec(first, acts).value, table) {
      assert FailedAfterLook(first, acts, id, table, n);
    }
  }

  // An agent past its look has looked; its table was not cooling down then, so
  // if it is now, it failed meanwhile.
  lemma {:induction false} LookedBefore(first: State, acts: seq<Action>, id: Id)
    requires first.agents == map[] && Exec(first, acts).Some? && PastCooldown(Exec(first, acts).value, id)
    ensures var s := Exec(first, acts).value;
            && CheckCooldown(id) in acts
            && (Cooling(s, s.agents[id].table) ==> FailedMeanwhile(first, acts, id, s.agents[id].table))
  {
    var n := |acts| - 1;
    var before, a := acts[..n], acts[n];
    var r, s := Exec(first, before).value, Exec(first, acts).value;
    var table := s.agents[id].table;
    assert acts == before + [a];
    if a != CheckCooldown(id) {
      StillPast(r, a, id);
      LookedBefore(first, before, id);
      if TouchesAt(first, acts, n, table) {
        TouchedLast(first, acts, id, table);
      } else {
        UntouchedStep(r, a, table);
        if Cooling(s, table) {
          MeanwhileKept(first, acts, id, table);
        }
      }
    }
  }

  lemma StillPast(r: State, a: Action, id: Id)
    requires Possible(r, a) && PastCooldown(Do(r, a), id) && a != CheckCooldown(id)
    ensures PastCooldown(r, id) && r.agents[id].table == Do(r, a).agents[id].table
  {
  }

  // A discovery throws away a failure that is still cooling down exactly when,
  // after its trigger had looked, a task of the same table recorded a permanent
  // failure, nothing has touched the record since, and the cooldown has not
  // passed since.
  lemma DiscardsCoolingExactlyWhen(pkInfo: map<string, string>, acts: seq<Action>, id: Id)
    requires Exec(Start(pkInfo), acts).Some? && Possible(Exec(Start(pkInfo), acts).value, ClearFailure(id))
    ensures var s := Exec(Start(pkInfo), acts).value;
            var table := s.agents[id].table;
            Cooling(s, table) <==>
              exists w: nat :: FailedAfterLook(Start(pkInfo), acts, id, table, w)
                               && Elapsed(acts[w + 1..]) <= Resolver.PERMANENT_FAILURE_COOLDOWN_MS
  {
    var first, s := Start(pkInfo), Exec(Start(pkInfo), acts).value;
    var table := s.agents[id].table;
    if Cooling(s, table) {
      LookedBefore(first, acts, id);
      var w: nat :| FailedAfterLook(first, acts, id, table, w);
      RecordIsLastWritten(first, acts, w, table);
    }
    forall w: nat
      | FailedAfterLook(first, acts, id, table, w)
        && Elapsed(acts[w + 1..]) <= Resolver.PERMANENT_FAILURE_COOLDOWN_MS
      ensures Cooling(s, table)
    {
      RecordIsLastWritten(first, acts, w, table);
    }
  }

  // A trigger in whose table no permanent failure is recorded between its look
  // and its clear never throws away a record that is cooling down.
  lemma UndisturbedTriggerRespectsCooldown(pkInfo: map<string, string>, acts: seq<Action>, id: Id)
    requires Exec(Start(pkInfo), acts).Some? && Possible(Exec(Start(pkInfo), acts).value, ClearFailure(id))
    requires var table := Exec(Start(pkInfo), acts).value.agents[id].table;
             forall w: nat :: TouchesAt(Start(pkInfo), acts, w, table) && CheckCooldown(id) in acts[..w] ==>
               !acts[w].WriteFailure? || !acts[w].permanent
    ensures var s := Exec(Start(pkInfo), acts).value; !Cooling(s, s.agents[id].table)
  {
    DiscardsCoolingExactlyWhen(pkInfo, acts, id);
  }
}
