/** The plan of a batch write: every usable partition key votes for the node
    its own plan would try first. */
module Votes {
  import opened Wrappers
  import opened Text
  import opened Sorting
  import opened Refresh
  import opened DeterministicRng
  import opened QueryPlans

  // ----- What a batch plan is -----

  // The hashes of the keys that could be resolved and hashed.
  function Usable(hashes: seq<Option<bv64>>): seq<bv64> {
    if hashes == [] then []
    else
      var rest := Usable(hashes[..|hashes| - 1]);
      match hashes[|hashes| - 1] case None => rest case Some(h) => rest + [h]
  }

  // Each hash that is there, as often as it is there, in order.
  lemma {:induction false} UsableMeaning(a: seq<Option<bv64>>, b: seq<Option<bv64>>, h: bv64)
    ensures Usable([]) == [] && Usable([None]) == [] && Usable([Some(h)]) == [h]
    ensures Usable(a + b) == Usable(a) + Usable(b)
  {
    var none: seq<Option<bv64>> := [None];
    assert [Some(h)][..0] == [] && none[..0] == [];
    if b == [] {
      assert a + b == a;
    } else {
      var n := |b| - 1;
      UsableMeaning(a, b[..n], h);
      assert (a + b)[..|a + b| - 1] == a + b[..n];
    }
  }

  // The node a key votes for.
  ghost function Favourite(sorted: seq<Url>, key: bv64): (u: Url)
    requires 0 < |sorted| < TWO_TO_THE_64
    ensures u in sorted && PreferredNode(sorted, key) == Some(u)
  {
    PreferredNode(sorted, key).value
  }

  ghost function Ballots(sorted: seq<Url>, keys: seq<bv64>): (r: seq<Url>)
    requires 0 < |sorted| < TWO_TO_THE_64
    ensures |r| == |keys|
  {
    Image(key => Favourite(sorted, key), keys)
  }

  // More votes first, equal counts by name.
  ghost predicate Ahead(votes: multiset<Url>, a: Url, b: Url) {
    votes[a] > votes[b] || (votes[a] == votes[b] && Less(a, b))
  }

  ghost predicate IsPreferenceOrder(votes: multiset<Url>, order: seq<Url>) {
    && (forall u :: u in order <==> u in votes)
    && forall i, j :: 0 <= i < j < |order| ==> Ahead(votes, order[i], order[j])
  }

  // The voted nodes in preference order, each taken once from the snapshot,
  // then what is left of the snapshot in URL order.
  ghost predicate IsBatchOrder(live: seq<Url>, keys: seq<bv64>, order: seq<Url>)
    requires 0 < |live| < TWO_TO_THE_64
  {
    SortedNodesMeaning(live);
    var votes := multiset(Ballots(SortedNodes(live), keys));
    exists voted :: IsPreferenceOrder(votes, voted) && order == Prefer(voted, SortedNodes(live))
  }

  lemma AheadIsStrict(votes: multiset<Url>, a: Url, b: Url)
    requires Ahead(votes, a, b)
    ensures a != b && !Ahead(votes, b, a)
  {
    LessIrreflexive(a);
    if votes[a] == votes[b] { LessAsymmetric(a, b); }
  }

  lemma {:induction false} PreferenceOrderUnique(votes: multiset<Url>, a: seq<Url>, b: seq<Url>)
    requires IsPreferenceOrder(votes, a) && IsPreferenceOrder(votes, b)
    ensures a == b
  {
    PrefixesAgree(votes, a, b, |a|);
    PrefixesAgree(votes, b, a, |b|);
  }

  lemma {:induction false} PrefixesAgree(votes: multiset<Url>, a: seq<Url>, b: seq<Url>, n: nat)
    requires IsPreferenceOrder(votes, a) && IsPreferenceOrder(votes, b) && n <= |a|
    ensures n <= |b| && a[..n] == b[..n]
  {
    if n > 0 {
      PrefixesAgree(votes, a, b, n - 1);
      var x := a[n - 1];
      assert x in votes;
      var k := PlaceAfter(votes, a, b, n - 1);
      var y := b[n - 1];
      assert y in votes;
      var m := PlaceAfter(votes, b, a, n - 1);
      if k > n - 1 && m > n - 1 { AheadIsStrict(votes, x, y); }
      assert x == y;
      assert a[..n] == a[..n - 1] + [x] && b[..n] == b[..n - 1] + [y];
    }
  }

  // What one order has at place `n` the other has there or later.
  lemma PlaceAfter(votes: multiset<Url>, a: seq<Url>, b: seq<Url>, n: nat) returns (k: nat)
    requires IsPreferenceOrder(votes, a) && IsPreferenceOrder(votes, b)
    requires n < |a| && n <= |b| && a[..n] == b[..n]
    ensures n <= k < |b| && b[k] == a[n]
  {
    assert a[n] in votes;
    assert a[n] in b;
    k :| 0 <= k < |b| && b[k] == a[n];
    if k < n {
      assert a[..n][k] == b[..n][k];
      AheadIsStrict(votes, a[k], a[n]);
    }
  }

  lemma BallotsIgnoreOrder(sorted: seq<Url>, a: seq<bv64>, b: seq<bv64>)
    requires 0 < |sorted| < TWO_TO_THE_64 && multiset(a) == multiset(b)
    ensures multiset(Ballots(sorted, a)) == multiset(Ballots(sorted, b))
  {
    ImageIgnoresOrder(key => Favourite(sorted, key), a, b);
  }

  lemma BallotsAreMembers(sorted: seq<Url>, keys: seq<bv64>)
    requires 0 < |sorted| < TWO_TO_THE_64
    ensures forall u :: u in Ballots(sorted, keys) ==> u in sorted
  {
  }

  lemma PreferenceOrderDistinct(votes: multiset<Url>, order: seq<Url>)
    requires IsPreferenceOrder(votes, order)
    ensures Distinct(order)
  {
    forall i, j | 0 <= i < j < |order| ensures order[i] != order[j] {
      AheadIsStrict(votes, order[i], order[j]);
    }
  }

  // The nodes that have a ballot, those with more first and equals by name.
  ghost predicate FallsByCountThenName(ballots: seq<Url>, voted: seq<Url>) {
    && (forall u :: u in voted <==> u in ballots)
    && forall i, j :: 0 <= i < j < |voted| ==>
         var (m, n) := (multiset(ballots)[voted[i]], multiset(ballots)[voted[j]]);
         n < m || (n == m && Less(voted[i], voted[j]))
  }

  // A batch plan is a permutation of the snapshot that starts with the voted
  // nodes by falling count then name and ends with the rest in URL order; the
  // votes add up to the number of usable keys.
  lemma BatchPlanMeaning(live: seq<Url>, keys: seq<bv64>, order: seq<Url>)
    requires 0 < |live| < TWO_TO_THE_64 && IsBatchOrder(live, keys, order)
    ensures |SortedNodes(live)| == |live|
    ensures multiset(order) == multiset(live)
    ensures exists voted ::
              && IsPreferenceOrder(multiset(Ballots(SortedNodes(live), keys)), voted)
              && voted <= order && Sorted(AtMost, order[|voted|..])
    ensures |multiset(Ballots(SortedNodes(live), keys))| == |keys|
    ensures exists voted: seq<Url> :: voted <= order && FallsByCountThenName(Ballots(SortedNodes(live), keys), voted)
  {
    SortedNodesMeaning(live);
    var sorted := SortedNodes(live);
    var votes := multiset(Ballots(sorted, keys));
    var voted :| IsPreferenceOrder(votes, voted) && order == Prefer(voted, sorted);
    PreferenceOrderDistinct(votes, voted);
    BallotsAreMembers(sorted, keys);
    forall p | p in voted ensures p in sorted { assert p in votes; }
    PreferMeaning(AtMost, voted, sorted);
    assert voted <= order;
    assert FallsByCountThenName(Ballots(sorted, keys), voted);
  }

  // It depends only on the multisets of usable hashes and of members: neither
  // the order of writes and tables nor the published order matters.
  lemma BatchPlanUnique(live: seq<Url>, other: seq<Url>, keys: seq<bv64>, shuffled: seq<bv64>, a: seq<Url>, b: seq<Url>)
    requires 0 < |live| < TWO_TO_THE_64 && multiset(live) == multiset(other) && multiset(keys) == multiset(shuffled)
    requires |other| == |live|
    requires IsBatchOrder(live, keys, a) && IsBatchOrder(other, shuffled, b)
    ensures a == b
  {
    SortedNodesMeaning(live);
    AtMostIsTotalOrder();
    SortCanonical(AtMost, live, other);
    var sorted := SortedNodes(live);
    BallotsIgnoreOrder(sorted, keys, shuffled);
    var votes := multiset(Ballots(sorted, keys));
    var v :| IsPreferenceOrder(votes, v) && a == Prefer(v, sorted);
    var w :| IsPreferenceOrder(votes, w) && b == Prefer(w, sorted);
    PreferenceOrderUnique(votes, v, w);
  }

  // ----- How the interceptor builds it -----

  ghost predicate Tallies(votes: map<Url, nat>, bag: multiset<Url>) {
    && (forall u :: u in votes <==> u in bag)
    && forall u :: u in votes ==> votes[u] == bag[u]
  }

  predicate VoteOrder(x: (Url, nat), y: (Url, nat)) {
    x.1 > y.1 || (x.1 == y.1 && AtMost(x.0, y.0))
  }

  lemma VoteOrderIsTotal()
    ensures TotalOrder(VoteOrder)
  {
    AtMostIsTotalOrder();
    forall x, y ensures VoteOrder(x, y) || VoteOrder(y, x) { assert AtMost(x.0, y.0) || AtMost(y.0, x.0); }
    forall x, y | VoteOrder(x, y) && VoteOrder(y, x) ensures x == y { assert AtMost(x.0, y.0) && AtMost(y.0, x.0); }
    forall x, y, z | VoteOrder(x, y) && VoteOrder(y, z) ensures VoteOrder(x, z) {
      assert AtMost(x.0, y.0) && AtMost(y.0, z.0) ==> AtMost(x.0, z.0);
    }
  }

  // The entries of the vote map in whatever order it is iterated.
  method Collect(votes: map<Url, nat>) returns (pairs: seq<(Url, nat)>)
    ensures Distinct(pairs) && (pairs == [] <==> votes.Keys == {})
    ensures forall p :: p in pairs <==> p.0 in votes && votes[p.0] == p.1
  {
    var left := votes.Keys;
    pairs := [];
    while left != {}
      invariant left <= votes.Keys
      invariant if pairs == [] then left == votes.Keys else votes.Keys != {}
      invariant forall p :: p in pairs <==> p.0 in votes.Keys - left && votes[p.0] == p.1
      invariant Distinct(pairs)
      decreases left
    {
      var u :| u in left;
      assert (u, votes[u]) !in pairs;
      pairs := pairs + [(u, votes[u])];
      left := left - {u};
    }
  }

  method VotePreferenceOrder(votes: map<Url, nat>, ghost bag: multiset<Url>) returns (order: Option<seq<Url>>)
    requires Tallies(votes, bag)
    ensures order.None? <==> bag == multiset{}
    ensures order.Some? ==> IsPreferenceOrder(bag, order.value)
  {
    var pairs := Collect(votes);
    assert votes.Keys == {} <==> bag == multiset{} by {
      assert forall u :: u in bag <==> u in votes.Keys;
    }
    if pairs == [] {
      return None;
    }
    var ranked := Sort(VoteOrder, pairs);
    var names := [];
    var i := 0;
    while i < |ranked|
      invariant 0 <= i <= |ranked| && |names| == i
      invariant forall k :: 0 <= k < i ==> names[k] == ranked[k].0
    {
      names := names + [ranked[i].0];
      i := i + 1;
    }
    RankedNames(votes, bag, pairs, ranked, names);
    order := Some(names);
  }

  lemma RankedMembers(votes: map<Url, nat>, bag: multiset<Url>, ranked: seq<(Url, nat)>, names: seq<Url>)
    requires Tallies(votes, bag) && forall p :: p in ranked <==> p.0 in votes && votes[p.0] == p.1
    requires |names| == |ranked| && forall k :: 0 <= k < |names| ==> names[k] == ranked[k].0
    ensures forall u :: u in names <==> u in bag
  {
    forall u ensures u in names <==> u in bag {
      if u in bag {
        assert (u, votes[u]) in ranked;
        var k :| 0 <= k < |ranked| && ranked[k] == (u, votes[u]);
        assert names[k] == u;
      }
      if u in names {
        var k :| 0 <= k < |names| && names[k] == u;
        assert ranked[k] in ranked;
      }
    }
  }

  lemma RankedNames(votes: map<Url, nat>, bag: multiset<Url>, pairs: seq<(Url, nat)>, ranked: seq<(Url, nat)>,
                    names: seq<Url>)
    requires Tallies(votes, bag) && Distinct(pairs) && ranked == Sort(VoteOrder, pairs)
    requires forall p :: p in pairs <==> p.0 in votes && votes[p.0] == p.1
    requires |names| == |ranked| && forall k :: 0 <= k < |names| ==> names[k] == ranked[k].0
    ensures IsPreferenceOrder(bag, names)
  {
    VoteOrderIsTotal();
    SortSorts(VoteOrder, pairs);
    DistinctPermutation(pairs, ranked);
    forall p ensures p in ranked <==> p in pairs {
      assert p in multiset(ranked) <==> p in multiset(pairs);
    }
    RankedMembers(votes, bag, ranked, names);
    forall i, j | 0 <= i < j < |names| ensures Ahead(bag, names[i], names[j]) {
      assert ranked[i] in pairs && ranked[j] in pairs;
      assert VoteOrder(ranked[i], ranked[j]);
    }
  }

  // Whom a key votes for; nobody in particular if there is nobody.
  function Chooser(sorted: seq<Url>): bv64 -> Url
    requires |sorted| < TWO_TO_THE_64
  {
    key => var node := PreferredNode(sorted, key); if node.Some? then node.value else ""
  }

  lemma ChooserIsFavourite(sorted: seq<Url>, key: bv64)
    requires 0 < |sorted| < TWO_TO_THE_64
    ensures Chooser(sorted)(key) == Favourite(sorted, key)
  {
  }

  // The votes the keys cast, as the loop sees them.
  ghost function VotesCast(choose: bv64 -> Url, keys: seq<bv64>): (bag: multiset<Url>)
    ensures |bag| == |keys|
  {
    multiset(Image(choose, keys))
  }

  lemma VotesAreBallots(sorted: seq<Url>, keys: seq<bv64>)
    requires 0 < |sorted| < TWO_TO_THE_64
    ensures VotesCast(Chooser(sorted), keys) == multiset(Ballots(sorted, keys))
  {
    forall i | 0 <= i < |keys| ensures Image(Chooser(sorted), keys)[i] == Ballots(sorted, keys)[i] {
      ChooserIsFavourite(sorted, keys[i]);
    }
    assert Image(Chooser(sorted), keys) == Ballots(sorted, keys);
  }

  lemma OneMoreVote(choose: bv64 -> Url, keys: seq<bv64>, key: bv64)
    ensures VotesCast(choose, keys + [key]) == VotesCast(choose, keys) + multiset{choose(key)}
  {
    assert Image(choose, keys + [key]) == Image(choose, keys) + [choose(key)];
  }

  function CastVote(votes: map<Url, nat>, u: Url): map<Url, nat> {
    votes[u := (if u in votes then votes[u] else 0) + 1]
  }

  lemma CastVoteTallies(votes: map<Url, nat>, bag: multiset<Url>, u: Url)
    requires Tallies(votes, bag)
    ensures Tallies(CastVote(votes, u), bag + multiset{u})
  {
  }

  // The votes of the usable keys, or `None` if there is one and nobody to vote
  // for.
  method CountVotes(someone: bool, choose: bv64 -> Url, hashes: seq<Option<bv64>>)
    returns (votes: Option<map<Url, nat>>)
    ensures votes.None? <==> !someone && Usable(hashes) != []
    ensures votes.Some? ==> Tallies(votes.value, VotesCast(choose, Usable(hashes)))
  {
    var counts: map<Url, nat> := map[];
    ghost var keys, bag := Usable(hashes[..0]), VotesCast(choose, Usable(hashes[..0]));
    var i := 0;
    while i < |hashes|
      invariant 0 <= i <= |hashes| && keys == Usable(hashes[..i]) && bag == VotesCast(choose, keys)
      invariant someone || keys == []
      invariant Tallies(counts, bag)
    {
      UsableStep(hashes, i);
      if hashes[i].Some? {
        if !someone {
          UsableStays(hashes, i + 1);
          return None;
        }
        var preferred := choose(hashes[i].value);
        OneMoreVote(choose, keys, hashes[i].value);
        CastVoteTallies(counts, bag, preferred);
        counts := CastVote(counts, preferred);
        keys, bag := keys + [hashes[i].value], bag + multiset{preferred};
      }
      i := i + 1;
    }
    assert hashes[..i] == hashes;
    votes := Some(counts);
  }

  lemma UsableStep(hashes: seq<Option<bv64>>, i: nat)
    requires i < |hashes|
    ensures Usable(hashes[..i + 1]) ==
            if hashes[i].Some? then Usable(hashes[..i]) + [hashes[i].value] else Usable(hashes[..i])
  {
    assert hashes[..i + 1][..i] == hashes[..i];
  }

  lemma {:induction false} UsableStays(hashes: seq<Option<bv64>>, i: nat)
    requires i <= |hashes| && Usable(hashes[..i]) != []
    ensures Usable(hashes) != []
    decreases |hashes| - i
  {
    if i == |hashes| {
      assert hashes[..i] == hashes;
    } else {
      UsableStep(hashes, i);
      UsableStays(hashes, i + 1);
    }
  }

  // The batch branch of `try_affinity_plan`; `null` is the fall-back to a
  // round-robin plan.
  method TryBatchPlan(affinityNodes: LiveNodes, hashes: seq<Option<bv64>>) returns (plan: QueryPlan?)
    requires |affinityNodes.live| < TWO_TO_THE_64
    ensures plan == null <==> Usable(hashes) == [] || affinityNodes.live == []
    ensures plan != null ==>
              && plan.state.OrderedPlan? && plan.state.next == 0
              && IsBatchOrder(affinityNodes.live, Usable(hashes), plan.state.nodes)
  {
    SortedNodesMeaning(affinityNodes.live);
    var snapshot := SortedNodes(affinityNodes.live);
    var votes := CountVotes(snapshot != [], Chooser(snapshot), hashes);
    if votes.None? {
      return null;
    }
    var order := VotePreferenceOrder(votes.value, VotesCast(Chooser(snapshot), Usable(hashes)));
    if order.None? {
      return null;
    }
    VotesAreBallots(snapshot, Usable(hashes));
    plan := new QueryPlan.WithPreferredNodes(affinityNodes, order.value, snapshot);
  }
}
