/** Exactly when the skipping of the cluster pass can lose a node, in terms of
    what the candidates answer. */
module SkippingExactness {
  import opened Sorting
  import opened Refresh
  import opened ClusterUnion

  predicate Reports(answers: Directory, c: Url, x: Url) {
    answers(c).Some? && x in answers(c).value
  }

  function Reporters(answers: Directory, candidates: seq<Url>, x: Url, yes: bool): seq<Url> {
    if candidates == [] then []
    else
      (if Reports(answers, candidates[0], x) == yes then [candidates[0]] else [])
      + Reporters(answers, candidates[1..], x, yes)
  }

  // What a pass over `candidates` finds on top of `found`.
  function Found(endpoint: Url -> Endpoint, answers: Directory, candidates: seq<Url>, found: seq<Url>): seq<Url>
    decreases |candidates|
  {
    if candidates == [] then found
    else if InList(endpoint, candidates[0], found) || answers(candidates[0]).None? then
      Found(endpoint, answers, candidates[1..], found)
    else Found(endpoint, answers, candidates[1..], SortDedup(found + answers(candidates[0]).value))
  }

  lemma {:induction false} PassFinds(endpoint: Url -> Endpoint, net: Network, answers: Directory,
                                     tick: nat, candidates: seq<Url>, found: seq<Url>, got: bool)
    requires Answers(net, answers)
    ensures PassFrom(endpoint, net, tick, candidates, found, got).0 == Found(endpoint, answers, candidates, found)
    decreases |candidates|
  {
    if candidates != [] {
      var node, rest := candidates[0], candidates[1..];
      if InList(endpoint, node, found) {
        PassFinds(endpoint, net, answers, tick, rest, found, got);
      } else if answers(node).None? {
        PassFinds(endpoint, net, answers, tick + 1, rest, found, got);
      } else {
        PassFinds(endpoint, net, answers, tick + 1, rest, SortDedup(found + answers(node).value), true);
      }
    }
  }

  lemma MergeElements(found: seq<Url>, nodes: seq<Url>)
    ensures Elements(SortDedup(found + nodes)) == Elements(found) + Elements(nodes)
  {
    SortDedupMeaning(found + nodes);
    assert Elements(found + nodes) == Elements(found) + Elements(nodes);
  }

  lemma InListGrows(endpoint: Url -> Endpoint, c: Url, found: seq<Url>, more: seq<Url>)
    requires Elements(found) <= Elements(more) && InList(endpoint, c, found)
    ensures InList(endpoint, c, more)
  {
    var k :| 0 <= k < |found| && endpoint(found[k]) == endpoint(c);
    assert found[k] in Elements(more);
    var j :| 0 <= j < |more| && more[j] == found[k];
  }

  lemma {:induction false} FoundGrows(
    endpoint: Url -> Endpoint, answers: Directory, candidates: seq<Url>, found: seq<Url>)
    ensures Elements(found) <= Elements(Found(endpoint, answers, candidates, found))
    decreases |candidates|
  {
    if candidates != [] {
      FoundGrows(endpoint, answers, candidates[1..], found);
      if answers(candidates[0]).Some? {
        MergeElements(found, answers(candidates[0]).value);
        FoundGrows(endpoint, answers, candidates[1..], SortDedup(found + answers(candidates[0]).value));
      }
    }
  }

  lemma InListOfSame(endpoint: Url -> Endpoint, c: Url, a: seq<Url>, b: seq<Url>)
    requires Elements(a) == Elements(b)
    ensures InList(endpoint, c, a) <==> InList(endpoint, c, b)
  {
    if InList(endpoint, c, a) {
      InListGrows(endpoint, c, a, b);
    }
    if InList(endpoint, c, b) {
      InListGrows(endpoint, c, b, a);
    }
  }

  // ----- Chains of answers -----

  // Everything the candidates of `chain` answer, one after the other.
  function Said(answers: Directory, chain: seq<Url>): seq<Url> {
    if chain == [] then []
    else (if answers(chain[0]).Some? then answers(chain[0]).value else []) + Said(answers, chain[1..])
  }

  // Every candidate of `chain` responds, and none is named by what is in
  // `found` or was answered before it.
  predicate Unannounced(endpoint: Url -> Endpoint, answers: Directory, chain: seq<Url>, found: seq<Url>)
    decreases |chain|
  {
    chain == []
    || (answers(chain[0]).Some? && !InList(endpoint, chain[0], found)
        && Unannounced(endpoint, answers, chain[1..], found + answers(chain[0]).value))
  }

  lemma {:induction false} UnannouncedOfSame(endpoint: Url -> Endpoint, answers: Directory, chain: seq<Url>,
                                             a: seq<Url>, b: seq<Url>)
    requires Elements(a) == Elements(b)
    ensures Unannounced(endpoint, answers, chain, a) <==> Unannounced(endpoint, answers, chain, b)
    decreases |chain|
  {
    if chain != [] && answers(chain[0]).Some? {
      var nodes := answers(chain[0]).value;
      InListOfSame(endpoint, chain[0], a, b);
      assert Elements(a + nodes) == Elements(a) + Elements(nodes) == Elements(b + nodes);
      UnannouncedOfSame(endpoint, answers, chain[1..], a + nodes, b + nodes);
    }
  }

  // The candidates a pass asks and that respond.
  function Asked(endpoint: Url -> Endpoint, answers: Directory, candidates: seq<Url>, found: seq<Url>): seq<Url>
    decreases |candidates|
  {
    if candidates == [] then []
    else if InList(endpoint, candidates[0], found) || answers(candidates[0]).None? then
      Asked(endpoint, answers, candidates[1..], found)
    else
      [candidates[0]]
      + Asked(endpoint, answers, candidates[1..], SortDedup(found + answers(candidates[0]).value))
  }

  // They form a chain, and the pass finds what they say.
  lemma {:induction false} AskedIsChain(endpoint: Url -> Endpoint, answers: Directory, candidates: seq<Url>,
                                        found: seq<Url>)
    ensures var chain := Asked(endpoint, answers, candidates, found);
            && Unannounced(endpoint, answers, chain, found)
            && multiset(chain) <= multiset(candidates)
            && Elements(Found(endpoint, answers, candidates, found)) == Elements(found) + Elements(Said(answers, chain))
    decreases |candidates|
  {
    if candidates != [] {
      var node, rest := candidates[0], candidates[1..];
      assert candidates == [node] + rest;
      if InList(endpoint, node, found) || answers(node).None? {
        AskedIsChain(endpoint, answers, rest, found);
      } else {
        var nodes := answers(node).value;
        var merged := SortDedup(found + nodes);
        AskedIsChain(endpoint, answers, rest, merged);
        MergeElements(found, nodes);
        var later := Asked(endpoint, answers, rest, merged);
        assert ([node] + later)[1..] == later;
        assert Elements(found + nodes) == Elements(merged) by {
          SortDedupMeaning(found + nodes);
        }
        UnannouncedOfSame(endpoint, answers, later, merged, found + nodes);
        assert Elements(nodes + Said(answers, later)) == Elements(nodes) + Elements(Said(answers, later));
      }
    } else {
      assert Elements<Url>([]) == {};
    }
  }

  // A chain is asked in full.
  lemma {:induction false} ChainIsAsked(endpoint: Url -> Endpoint, answers: Directory, chain: seq<Url>, found: seq<Url>)
    requires Unannounced(endpoint, answers, chain, found)
    ensures Asked(endpoint, answers, chain, found) == chain
    decreases |chain|
  {
    if chain != [] {
      var nodes := answers(chain[0]).value;
      SortDedupMeaning(found + nodes);
      UnannouncedOfSame(endpoint, answers, chain[1..], found + nodes, SortDedup(found + nodes));
      ChainIsAsked(endpoint, answers, chain[1..], SortDedup(found + nodes));
      assert chain == [chain[0]] + chain[1..];
    }
  }

  // ----- Missing a node -----

  // A pass that misses `x` asked nobody who reports it, and every reporter is
  // listed in what it found.
  lemma {:induction false} MissedMeansSkipped(endpoint: Url -> Endpoint, answers: Directory,
                                              candidates: seq<Url>, found: seq<Url>, x: Url)
    requires x !in Found(endpoint, answers, candidates, found)
    ensures forall c :: c in Asked(endpoint, answers, candidates, found) ==> !Reports(answers, c, x)
    ensures ListsAll(endpoint, answers, Found(endpoint, answers, candidates, found), candidates, x)
    decreases |candidates|
  {
    if candidates != [] {
      var node, rest := candidates[0], candidates[1..];
      assert candidates == [node] + rest;
      if InList(endpoint, node, found) {
        MissedMeansSkipped(endpoint, answers, rest, found, x);
        FoundGrows(endpoint, answers, rest, found);
        InListGrows(endpoint, node, found, Found(endpoint, answers, rest, found));
      } else if answers(node).None? {
        MissedMeansSkipped(endpoint, answers, rest, found, x);
      } else {
        var merged := SortDedup(found + answers(node).value);
        MergeElements(found, answers(node).value);
        FoundGrows(endpoint, answers, rest, merged);
        assert x in Elements(merged) ==> x in Elements(Found(endpoint, answers, rest, merged));
        assert !Reports(answers, node, x);
        MissedMeansSkipped(endpoint, answers, rest, merged, x);
      }
    }
  }

  lemma {:induction false} QuietNeverFinds(endpoint: Url -> Endpoint, answers: Directory,
                                           candidates: seq<Url>, found: seq<Url>, x: Url)
    requires x !in found && forall c :: c in candidates ==> !Reports(answers, c, x)
    ensures x !in Found(endpoint, answers, candidates, found)
    decreases |candidates|
  {
    if candidates != [] {
      QuietNeverFinds(endpoint, answers, candidates[1..], found, x);
      if answers(candidates[0]).Some? {
        var merged := SortDedup(found + answers(candidates[0]).value);
        MergeElements(found, answers(candidates[0]).value);
        assert candidates[0] in candidates && !Reports(answers, candidates[0], x);
        assert x !in Elements(found) && x !in Elements(merged);
        QuietNeverFinds(endpoint, answers, candidates[1..], merged, x);
      }
    }
  }

  lemma {:induction false} FoundOfParts(endpoint: Url -> Endpoint, answers: Directory,
                                        a: seq<Url>, b: seq<Url>, found: seq<Url>)
    ensures Found(endpoint, answers, a + b, found)
         == Found(endpoint, answers, b, Found(endpoint, answers, a, found))
    decreases |a|
  {
    if a == [] {
      assert a + b == b;
    } else {
      assert (a + b)[1..] == a[1..] + b;
      FoundOfParts(endpoint, answers, a[1..], b, found);
      if answers(a[0]).Some? {
        FoundOfParts(endpoint, answers, a[1..], b, SortDedup(found + answers(a[0]).value));
      }
    }
  }

  // Candidates that are all listed already are all skipped.
  lemma {:induction false} ListedAreSkipped(endpoint: Url -> Endpoint, answers: Directory,
                                            listed: seq<Url>, found: seq<Url>)
    requires forall c :: c in listed ==> InList(endpoint, c, found)
    ensures Found(endpoint, answers, listed, found) == found
    decreases |listed|
  {
    if listed != [] {
      assert listed[0] in listed;
      ListedAreSkipped(endpoint, answers, listed[1..], found);
    }
  }

  // ----- Reporters first, whatever is left last -----

  lemma {:induction false} ReportersBag(answers: Directory, candidates: seq<Url>, x: Url, yes: bool, u: Url)
    ensures multiset(Reporters(answers, candidates, x, yes))[u]
         == if Reports(answers, u, x) == yes then multiset(candidates)[u] else 0
  {
    if candidates != [] {
      ReportersBag(answers, candidates[1..], x, yes, u);
      assert candidates == [candidates[0]] + candidates[1..];
    }
  }

  lemma ReportersMembers(answers: Directory, candidates: seq<Url>, x: Url, yes: bool)
    ensures forall c :: c in Reporters(answers, candidates, x, yes) <==> c in candidates && Reports(answers, c, x) == yes
  {
    forall c
      ensures c in Reporters(answers, candidates, x, yes) <==> c in candidates && Reports(answers, c, x) == yes
    {
      ReportersBag(answers, candidates, x, yes, c);
      assert c in Reporters(answers, candidates, x, yes) <==> c in multiset(Reporters(answers, candidates, x, yes));
      assert c in candidates <==> c in multiset(candidates);
    }
  }

  // What is left of a list when the members of `part` are taken out of it.
  lemma {:induction false} TakenOut(all: seq<Url>, part: seq<Url>) returns (rest: seq<Url>)
    requires multiset(part) <= multiset(all)
    ensures multiset(part) + multiset(rest) == multiset(all)
  {
    if part == [] {
      rest := all;
    } else {
      var x, smaller := part[0], part[1..];
      assert part == [x] + smaller;
      assert x in multiset(all);
      var k :| 0 <= k < |all| && all[k] == x;
      var others := all[..k] + all[k + 1..];
      assert all == all[..k] + [x] + all[k + 1..];
      assert multiset(all) == multiset(others) + multiset{x};
      OneLessEach(multiset(part), multiset(all), multiset(smaller), multiset(others), x);
      rest := TakenOut(others, smaller);
    }
  }

  lemma OneLessEach(part: multiset<Url>, all: multiset<Url>, smaller: multiset<Url>, others: multiset<Url>, x: Url)
    requires part == multiset{x} + smaller && all == others + multiset{x} && part <= all
    ensures smaller <= others
  {
    forall u ensures smaller[u] <= others[u] {
      assert part[u] <= all[u];
    }
  }

  // ----- The exact condition -----

  // Some shuffle of the candidates makes the pass miss `x`.
  ghost predicate CanMiss(endpoint: Url -> Endpoint, net: Network, candidates: seq<Url>, x: Url) {
    exists order :: multiset(order) == multiset(candidates) && x !in PassFrom(endpoint, net, 0, order, [], false).0
  }

  ghost predicate ListsAll(endpoint: Url -> Endpoint, answers: Directory, found: seq<Url>, candidates: seq<Url>,
                           x: Url)
  {
    forall c :: c in candidates && Reports(answers, c, x) ==> InList(endpoint, c, found)
  }

  // `chain` is made of candidates that respond and do not report `x`, none
  // named by an answer before its own, and what they answer names every
  // candidate that does report `x`.
  ghost predicate HidesReporters(endpoint: Url -> Endpoint, answers: Directory, candidates: seq<Url>, x: Url,
                                 chain: seq<Url>)
  {
    && multiset(chain) <= multiset(candidates)
    && (forall c :: c in chain ==> !Reports(answers, c, x))
    && Unannounced(endpoint, answers, chain, [])
    && ListsAll(endpoint, answers, Said(answers, chain), candidates, x)
  }

  lemma ListsAllOfSame(endpoint: Url -> Endpoint, answers: Directory, a: seq<Url>, b: seq<Url>, candidates: seq<Url>,
                       x: Url)
    requires Elements(a) == Elements(b)
    ensures ListsAll(endpoint, answers, a, candidates, x) <==> ListsAll(endpoint, answers, b, candidates, x)
  {
    forall c ensures InList(endpoint, c, a) <==> InList(endpoint, c, b) {
      InListOfSame(endpoint, c, a, b);
    }
  }

  lemma MissingOrderHasChain(endpoint: Url -> Endpoint, net: Network, answers: Directory, candidates: seq<Url>, x: Url,
                             order: seq<Url>)
    requires Answers(net, answers) && multiset(order) == multiset(candidates)
    requires x !in PassFrom(endpoint, net, 0, order, [], false).0
    ensures HidesReporters(endpoint, answers, candidates, x, Asked(endpoint, answers, order, []))
  {
    var chain := Asked(endpoint, answers, order, []);
    PassFinds(endpoint, net, answers, 0, order, [], false);
    AskedIsChain(endpoint, answers, order, []);
    MissedMeansSkipped(endpoint, answers, order, [], x);
    forall c ensures c in order <==> c in candidates {
      assert c in multiset(order) <==> c in multiset(candidates);
    }
    assert Elements<Url>([]) == {};
    ListsAllOfSame(endpoint, answers, Found(endpoint, answers, order, []), Said(answers, chain), candidates, x);
  }

  // The chain first, then the reporters, then the rest.
  lemma ChainFirst(answers: Directory, candidates: seq<Url>, x: Url, chain: seq<Url>)
    returns (loud: seq<Url>, rest: seq<Url>)
    requires multiset(chain) <= multiset(candidates) && forall c :: c in chain ==> !Reports(answers, c, x)
    ensures multiset(chain + loud + rest) == multiset(candidates)
    ensures forall c :: c in loud ==> c in candidates && Reports(answers, c, x)
    ensures forall c :: c in rest ==> !Reports(answers, c, x)
  {
    loud := Reporters(answers, candidates, x, true);
    var quiet := Reporters(answers, candidates, x, false);
    ReportersMembers(answers, candidates, x, true);
    ReportersMembers(answers, candidates, x, false);
    QuietChain(answers, candidates, x, chain);
    rest := TakenOut(quiet, chain);
    PartsMakeWhole(chain, rest, quiet, loud, candidates);
  }

  lemma QuietChain(answers: Directory, candidates: seq<Url>, x: Url, chain: seq<Url>)
    requires multiset(chain) <= multiset(candidates) && forall c :: c in chain ==> !Reports(answers, c, x)
    ensures multiset(chain) <= multiset(Reporters(answers, candidates, x, false))
    ensures multiset(Reporters(answers, candidates, x, true)) + multiset(Reporters(answers, candidates, x, false))
         == multiset(candidates)
  {
    var loud, quiet := Reporters(answers, candidates, x, true), Reporters(answers, candidates, x, false);
    forall u
      ensures multiset(chain)[u] <= multiset(quiet)[u]
      ensures multiset(loud)[u] + multiset(quiet)[u] == multiset(candidates)[u]
    {
      ReportersBag(answers, candidates, x, true, u);
      ReportersBag(answers, candidates, x, false, u);
      assert u in multiset(chain) ==> u in chain;
    }
  }

  lemma PartsMakeWhole(chain: seq<Url>, rest: seq<Url>, quiet: seq<Url>, loud: seq<Url>, candidates: seq<Url>)
    requires multiset(chain) + multiset(rest) == multiset(quiet)
    requires multiset(loud) + multiset(quiet) == multiset(candidates)
    ensures multiset(chain + loud + rest) == multiset(candidates)
    ensures forall c :: c in rest ==> c in quiet
  {
    forall c | c in rest ensures c in quiet {
      assert c in multiset(rest);
      assert c in multiset(quiet);
    }
    assert multiset(chain + loud + rest) == multiset(loud) + (multiset(chain) + multiset(rest));
  }

  lemma HiddenIsMissed(endpoint: Url -> Endpoint, answers: Directory, candidates: seq<Url>, x: Url, chain: seq<Url>,
                       loud: seq<Url>, rest: seq<Url>)
    requires HidesReporters(endpoint, answers, candidates, x, chain)
    requires forall c :: c in loud ==> c in candidates && Reports(answers, c, x)
    requires forall c :: c in rest ==> !Reports(answers, c, x)
    ensures x !in Found(endpoint, answers, chain + loud + rest, [])
  {
    var found := Found(endpoint, answers, chain, []);
    ChainIsAsked(endpoint, answers, chain, []);
    AskedIsChain(endpoint, answers, chain, []);
    assert Elements<Url>([]) == {};
    ListsAllOfSame(endpoint, answers, found, Said(answers, chain), candidates, x);
    FoundOfParts(endpoint, answers, chain, loud, []);
    FoundOfParts(endpoint, answers, chain + loud, rest, []);
    ListedAreSkipped(endpoint, answers, loud, found);
    QuietNeverFinds(endpoint, answers, chain, [], x);
    QuietNeverFinds(endpoint, answers, rest, found, x);
  }

  lemma ChainHasMissingOrder(endpoint: Url -> Endpoint, net: Network, answers: Directory, candidates: seq<Url>, x: Url,
                             chain: seq<Url>)
    requires Answers(net, answers) && HidesReporters(endpoint, answers, candidates, x, chain)
    ensures CanMiss(endpoint, net, candidates, x)
  {
    var loud, rest := ChainFirst(answers, candidates, x, chain);
    HiddenIsMissed(endpoint, answers, candidates, x, chain, loud, rest);
    PassFinds(endpoint, net, answers, 0, chain + loud + rest, [], false);
  }

  // A node can be missed exactly when a chain of candidates that do not report
  // it, none announced by those before it, names every candidate that does.
  lemma MissedExactlyWhen(endpoint: Url -> Endpoint, net: Network, answers: Directory, candidates: seq<Url>, x: Url)
    requires Answers(net, answers)
    ensures CanMiss(endpoint, net, candidates, x)
       <==> exists chain :: HidesReporters(endpoint, answers, candidates, x, chain)
  {
    if CanMiss(endpoint, net, candidates, x) {
      var order :| multiset(order) == multiset(candidates) && x !in PassFrom(endpoint, net, 0, order, [], false).0;
      MissingOrderHasChain(endpoint, net, answers, candidates, x, order);
    }
    if chain :| HidesReporters(endpoint, answers, candidates, x, chain) {
      ChainHasMissingOrder(endpoint, net, answers, candidates, x, chain);
    }
  }

  // ----- When the shuffle does not matter -----

  predicate Reported(answers: Directory, candidates: seq<Url>, x: Url) {
    exists c :: c in candidates && Reports(answers, c, x)
  }

  ghost predicate SamePass(endpoint: Url -> Endpoint, net: Network, a: seq<Url>, b: seq<Url>) {
    PassFrom(endpoint, net, 0, a, [], false).0 == PassFrom(endpoint, net, 0, b, [], false).0
  }

  ghost predicate OrderIrrelevant(endpoint: Url -> Endpoint, net: Network, candidates: seq<Url>) {
    forall a, b :: multiset(a) == multiset(candidates) == multiset(b) ==> SamePass(endpoint, net, a, b)
  }

  ghost predicate NothingHidden(endpoint: Url -> Endpoint, answers: Directory, candidates: seq<Url>) {
    forall x, chain :: Reported(answers, candidates, x) ==> !HidesReporters(endpoint, answers, candidates, x, chain)
  }

  lemma {:induction false} FoundIsReported(endpoint: Url -> Endpoint, answers: Directory, candidates: seq<Url>,
                                           found: seq<Url>, x: Url)
    requires StrictlySorted(found)
    ensures StrictlySorted(Found(endpoint, answers, candidates, found))
    ensures x in Found(endpoint, answers, candidates, found) ==> x in found || Reported(answers, candidates, x)
    decreases |candidates|
  {
    if candidates != [] {
      var node, rest := candidates[0], candidates[1..];
      assert candidates == [node] + rest;
      assert node in candidates && forall c :: c in rest ==> c in candidates;
      FoundIsReported(endpoint, answers, rest, found, x);
      if answers(node).Some? {
        var merged := SortDedup(found + answers(node).value);
        SortDedupMeaning(found + answers(node).value);
        MergeElements(found, answers(node).value);
        FoundIsReported(endpoint, answers, rest, merged, x);
        assert x in merged ==> x in Elements(merged);
        assert x in merged ==> x in found || Reports(answers, node, x);
      }
    }
  }

  // A reporter that is asked first is heard.
  lemma ReporterFirst(endpoint: Url -> Endpoint, answers: Directory, c: Url, rest: seq<Url>, x: Url)
    requires Reports(answers, c, x)
    ensures x in Found(endpoint, answers, [c] + rest, [])
  {
    var merged := SortDedup([] + answers(c).value);
    assert ([c] + rest)[1..] == rest;
    MergeElements([], answers(c).value);
    FoundGrows(endpoint, answers, rest, merged);
    assert x in Elements(merged);
    assert x in Elements(Found(endpoint, answers, rest, merged));
  }

  lemma HiddenMakesOrderMatter(endpoint: Url -> Endpoint, net: Network, answers: Directory, candidates: seq<Url>,
                               x: Url, chain: seq<Url>)
    requires Answers(net, answers) && Reported(answers, candidates, x)
    requires HidesReporters(endpoint, answers, candidates, x, chain)
    ensures !OrderIrrelevant(endpoint, net, candidates)
  {
    ChainHasMissingOrder(endpoint, net, answers, candidates, x, chain);
    var a :| multiset(a) == multiset(candidates) && x !in PassFrom(endpoint, net, 0, a, [], false).0;
    var c :| c in candidates && Reports(answers, c, x);
    assert multiset([c]) <= multiset(candidates);
    var rest := TakenOut(candidates, [c]);
    var b := [c] + rest;
    ReporterFirst(endpoint, answers, c, rest, x);
    PassFinds(endpoint, net, answers, 0, b, [], false);
    assert multiset(b) == multiset(candidates) && !SamePass(endpoint, net, a, b);
  }

  // With nothing hidden, every shuffle finds all that is reported.
  lemma AllReportedIsFound(endpoint: Url -> Endpoint, net: Network, answers: Directory, candidates: seq<Url>,
                           order: seq<Url>, x: Url)
    requires Answers(net, answers) && NothingHidden(endpoint, answers, candidates)
    requires multiset(order) == multiset(candidates)
    ensures StrictlySorted(PassFrom(endpoint, net, 0, order, [], false).0)
    ensures x in PassFrom(endpoint, net, 0, order, [], false).0 <==> Reported(answers, candidates, x)
  {
    PassFinds(endpoint, net, answers, 0, order, [], false);
    FoundIsReported(endpoint, answers, order, [], x);
    forall c ensures c in order <==> c in candidates {
      assert c in multiset(order) <==> c in multiset(candidates);
    }
    if Reported(answers, candidates, x) && x !in PassFrom(endpoint, net, 0, order, [], false).0 {
      MissingOrderHasChain(endpoint, net, answers, candidates, x, order);
      assert false;
    }
  }

  // Every shuffle gives the same list exactly when no reported node has its
  // reporters hidden by a chain.
  lemma OrderIsIrrelevantExactlyWhen(endpoint: Url -> Endpoint, net: Network, answers: Directory, candidates: seq<Url>)
    requires Answers(net, answers)
    ensures OrderIrrelevant(endpoint, net, candidates) <==> NothingHidden(endpoint, answers, candidates)
  {
    if NothingHidden(endpoint, answers, candidates) {
      forall a, b | multiset(a) == multiset(candidates) == multiset(b) ensures SamePass(endpoint, net, a, b) {
        SamePassOf(endpoint, net, answers, candidates, a, b);
      }
    } else {
      var x, chain :| Reported(answers, candidates, x) && HidesReporters(endpoint, answers, candidates, x, chain);
      HiddenMakesOrderMatter(endpoint, net, answers, candidates, x, chain);
    }
  }

  lemma SamePassOf(endpoint: Url -> Endpoint, net: Network, answers: Directory, candidates: seq<Url>, a: seq<Url>,
                   b: seq<Url>)
    requires Answers(net, answers) && NothingHidden(endpoint, answers, candidates)
    requires multiset(a) == multiset(candidates) == multiset(b)
    ensures SamePass(endpoint, net, a, b)
  {
    var p, q := PassFrom(endpoint, net, 0, a, [], false).0, PassFrom(endpoint, net, 0, b, [], false).0;
    AllReportedIsFound(endpoint, net, answers, candidates, a, "");
    AllReportedIsFound(endpoint, net, answers, candidates, b, "");
    forall x ensures x in p <==> x in q {
      AllReportedIsFound(endpoint, net, answers, candidates, a, x);
      AllReportedIsFound(endpoint, net, answers, candidates, b, x);
    }
    assert Elements(p) == Elements(q);
    StrictlySortedUnique(p, q);
  }
}
