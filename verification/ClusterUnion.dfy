/** The cluster pass: candidates are asked in a random order and a candidate
    that an earlier answer already reported is skipped. */
module ClusterUnion {
  import opened Wrappers
  import opened Sorting
  import opened RoutingScopes
  import opened Refresh

  // What the n-th request of a refresh receives.
  type Network = (nat, Operation, Url) -> Option<seq<Url>>

  // What each candidate answers, if it does.
  type Directory = Url -> Option<seq<Url>>

  // The nodes found, whether anyone answered, and the requests made so far.
  function PassFrom(endpoint: Url -> Endpoint, net: Network, tick: nat, candidates: seq<Url>, found: seq<Url>,
                    got: bool): (seq<Url>, bool, nat)
    decreases |candidates|
  {
    if candidates == [] then (found, got, tick)
    else
      var node, rest := candidates[0], candidates[1..];
      if InList(endpoint, node, found) then PassFrom(endpoint, net, tick, rest, found, got)
      else
        match net(tick, Cluster, node)
        case None => PassFrom(endpoint, net, tick + 1, rest, found, got)
        case Some(nodes) => PassFrom(endpoint, net, tick + 1, rest, SortDedup(found + nodes), true)
  }

  ghost predicate Answers(net: Network, answers: Directory) {
    forall t: nat, u :: net(t, Cluster, u) == answers(u)
  }

  // The plain union: every node any responding candidate reports.
  ghost function FullUnion(answers: Directory, candidates: seq<Url>): set<Url> {
    set i, x | 0 <= i < |candidates| && answers(candidates[i]).Some? && x in answers(candidates[i]).value :: x
  }

  // A candidate reported by another would add nothing to that report.
  ghost predicate ReportsCover(endpoint: Url -> Endpoint, answers: Directory, candidates: seq<Url>) {
    forall c, d, n :: c in candidates && d in candidates && answers(c).Some? && answers(d).Some?
                      && n in answers(d).value && endpoint(n) == endpoint(c)
                      ==> Elements(answers(c).value) <= Elements(answers(d).value)
  }

  // What the pass keeps: `found` is made of whole answers of candidates.
  ghost predicate WholeAnswers(answers: Directory, all: seq<Url>, found: seq<Url>) {
    && StrictlySorted(found)
    && forall x :: x in found ==>
         exists d :: && d in all && answers(d).Some? && x in answers(d).value
                     && Elements(answers(d).value) <= Elements(found)
  }

  lemma FullUnionSplit(answers: Directory, candidates: seq<Url>)
    requires candidates != []
    ensures FullUnion(answers, candidates)
         == (if answers(candidates[0]).Some? then Elements(answers(candidates[0]).value) else {})
            + FullUnion(answers, candidates[1..])
  {
    var rest := candidates[1..];
    forall x | x in FullUnion(answers, candidates)
      ensures x in (if answers(candidates[0]).Some? then Elements(answers(candidates[0]).value) else {})
                   + FullUnion(answers, rest)
    {
      var i :| 0 <= i < |candidates| && answers(candidates[i]).Some? && x in answers(candidates[i]).value;
      if i > 0 { assert candidates[i] == rest[i - 1]; }
    }
    forall x | x in FullUnion(answers, rest) ensures x in FullUnion(answers, candidates) {
      var i :| 0 <= i < |rest| && answers(rest[i]).Some? && x in answers(rest[i]).value;
      assert rest[i] == candidates[i + 1];
    }
  }

  lemma MergeKeepsWholeAnswers(answers: Directory, all: seq<Url>, found: seq<Url>, node: Url)
    requires WholeAnswers(answers, all, found) && node in all && answers(node).Some?
    ensures WholeAnswers(answers, all, SortDedup(found + answers(node).value))
    ensures Elements(SortDedup(found + answers(node).value)) == Elements(found) + Elements(answers(node).value)
  {
    var nodes := answers(node).value;
    SortDedupMeaning(found + nodes);
    var merged := SortDedup(found + nodes);
    assert Elements(found + nodes) == Elements(found) + Elements(nodes);
    forall x | x in merged
      ensures exists d :: && d in all && answers(d).Some? && x in answers(d).value
                          && Elements(answers(d).value) <= Elements(merged)
    {
      assert x in Elements(merged);
      if x in found {
        var d :| d in all && answers(d).Some? && x in answers(d).value && Elements(answers(d).value) <= Elements(found);
        assert Elements(answers(d).value) <= Elements(merged);
      } else {
        assert x in answers(node).value;
      }
    }
  }

  lemma SkippedAddsNothing(endpoint: Url -> Endpoint, answers: Directory, all: seq<Url>, found: seq<Url>, node: Url)
    requires ReportsCover(endpoint, answers, all) && WholeAnswers(answers, all, found)
    requires node in all && InList(endpoint, node, found)
    ensures answers(node).Some? ==> Elements(answers(node).value) <= Elements(found)
  {
    var k :| 0 <= k < |found| && endpoint(found[k]) == endpoint(node);
    var n := found[k];
    assert n in found;
    var d :| d in all && answers(d).Some? && n in answers(d).value && Elements(answers(d).value) <= Elements(found);
    assert answers(node).Some? ==> Elements(answers(node).value) <= Elements(answers(d).value);
  }

  lemma {:induction false} PassIsUnion(endpoint: Url -> Endpoint, net: Network, answers: Directory,
                                       tick: nat, all: seq<Url>, candidates: seq<Url>, found: seq<Url>, got: bool)
    requires Answers(net, answers) && ReportsCover(endpoint, answers, all)
    requires Elements(candidates) <= Elements(all)
    requires WholeAnswers(answers, all, found) && (found != [] ==> got)
    ensures var r := PassFrom(endpoint, net, tick, candidates, found, got);
            && StrictlySorted(r.0)
            && Elements(r.0) == Elements(found) + FullUnion(answers, candidates)
            && (r.1 <==> got || exists c :: c in candidates && answers(c).Some?)
    decreases |candidates|
  {
    if candidates != [] {
      var node, rest := candidates[0], candidates[1..];
      assert candidates == [node] + rest;
      assert node in Elements(all);
      FullUnionSplit(answers, candidates);
      if InList(endpoint, node, found) {
        SkippedAddsNothing(endpoint, answers, all, found, node);
        PassIsUnion(endpoint, net, answers, tick, all, rest, found, got);
      } else if answers(node).None? {
        PassIsUnion(endpoint, net, answers, tick + 1, all, rest, found, got);
      } else {
        MergeKeepsWholeAnswers(answers, all, found, node);
        PassIsUnion(endpoint, net, answers, tick + 1, all, rest, SortDedup(found + answers(node).value), true);
      }
    }
  }

  // Skipping loses nothing, whatever order the shuffle produced.
  lemma SkippingIsSound(endpoint: Url -> Endpoint, net: Network, answers: Directory, tick: nat, candidates: seq<Url>)
    requires Answers(net, answers) && ReportsCover(endpoint, answers, candidates)
    ensures var r := PassFrom(endpoint, net, tick, candidates, [], false);
            && StrictlySorted(r.0) && Elements(r.0) == FullUnion(answers, candidates)
            && (r.1 <==> exists c :: c in candidates && answers(c).Some?)
  {
    PassIsUnion(endpoint, net, answers, tick, candidates, candidates, [], false);
    assert Elements<Url>([]) == {};
  }

  lemma OrderIsIrrelevant(endpoint: Url -> Endpoint, net: Network, answers: Directory,
                          t: nat, a: seq<Url>, u: nat, b: seq<Url>)
    requires Answers(net, answers) && ReportsCover(endpoint, answers, a) && multiset(a) == multiset(b)
    ensures PassFrom(endpoint, net, t, a, [], false).0 == PassFrom(endpoint, net, u, b, [], false).0
  {
    forall x ensures x in a <==> x in b {
      assert x in multiset(a) <==> x in multiset(b);
    }
    SkippingIsSound(endpoint, net, answers, t, a);
    SkippingIsSound(endpoint, net, answers, u, b);
    assert FullUnion(answers, a) == FullUnion(answers, b) by {
      SameMembersSameUnion(answers, a, b);
      SameMembersSameUnion(answers, b, a);
    }
    StrictlySortedUnique(PassFrom(endpoint, net, t, a, [], false).0, PassFrom(endpoint, net, u, b, [], false).0);
  }

  lemma SameMembersSameUnion(answers: Directory, a: seq<Url>, b: seq<Url>)
    requires forall x :: x in a ==> x in b
    ensures FullUnion(answers, a) <= FullUnion(answers, b)
  {
    forall x | x in FullUnion(answers, a) ensures x in FullUnion(answers, b) {
      var i :| 0 <= i < |a| && answers(a[i]).Some? && x in answers(a[i]).value;
      assert a[i] in b;
    }
  }

  // The condition is needed: if "a" reports only "b" and "b" reports "c", the
  // node "c" is found or lost depending on the shuffle.
  lemma SkippingCanLoseANode(endpoint: Url -> Endpoint, net: Network)
    requires endpoint("a") != endpoint("b") && endpoint("b") != endpoint("c") && endpoint("a") != endpoint("c")
    requires forall t: nat :: net(t, Cluster, "a") == Some(["b"]) && net(t, Cluster, "b") == Some(["c"])
    ensures "c" !in PassFrom(endpoint, net, 0, ["a", "b"], [], false).0
    ensures "c" in PassFrom(endpoint, net, 0, ["b", "a"], [], false).0
  {
    FirstAsked(endpoint, net, "a", "b", ["b"]);
    FirstAsked(endpoint, net, "b", "a", ["c"]);
    var ab := PassFrom(endpoint, net, 1, ["b"], ["b"], true);
    assert InList(endpoint, "b", ["b"]);
    assert ab == PassFrom(endpoint, net, 1, [], ["b"], true);
    var ba := PassFrom(endpoint, net, 1, ["a"], ["c"], true);
    var both := SortDedup(["c"] + ["b"]);
    assert !InList(endpoint, "a", ["c"]);
    assert ba == PassFrom(endpoint, net, 2, [], both, true);
    SortDedupMeaning(["c"] + ["b"]);
    assert "c" in Elements(["c"] + ["b"]);
    assert "c" in Elements(both);
  }

  lemma FirstAsked(endpoint: Url -> Endpoint, net: Network, first: Url, second: Url, nodes: seq<Url>)
    requires net(0, Cluster, first) == Some(nodes) && StrictlySorted(nodes)
    ensures PassFrom(endpoint, net, 0, [first, second], [], false) == PassFrom(endpoint, net, 1, [second], nodes, true)
  {
    assert [first, second][1..] == [second];
    assert [] + nodes == nodes;
    SortDedupFixed(nodes);
  }
}
