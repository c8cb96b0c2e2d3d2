/** What a cluster pass makes known before it is over. */
module PartialResults {
  import opened Wrappers
  import opened Sorting
  import opened Refresh
  import opened Interleaving

  // A partial publication that is not suppressed adds all that was found, and
  // nothing else, and leaves membership in URL order without repetition; a
  // suppressed one changes nothing.
  lemma PartialAddsWhatWasFound(s: System, g: nat)
    requires Possible(s, Step(g, Merge))
    ensures var t, found := Do(s, Step(g, Merge)), s.refreshes[g].phase.found;
            if s.view.latest <= g then
              && Elements(t.view.live) == Elements(s.view.live) + Elements(found)
              && StrictlySorted(t.view.live) && t.view.latest == g && t.view.next == s.view.next
            else t.view == s.view
  {
    var found := s.refreshes[g].phase.found;
    SortDedupMeaning(s.view.live + found);
    assert Elements(s.view.live + found) == Elements(s.view.live) + Elements(found);
  }

  // The refresh carries the nodes that were reported to it.
  ghost predicate Carries(p: Phase, nodes: set<Url>) {
    match p
    case Merging(_, _, _, found) => nodes <= Elements(found) && found != []
    case Passing(_, _, _, found, got) => nodes <= Elements(found) && found != [] && got
    case Asking(_, _, _, found, got, _) => nodes <= Elements(found) && found != [] && got
    case Publishing(_, published) => nodes <= Elements(published)
    case Finished(_, published) => published.Some? && nodes <= Elements(published.value)
    case Cancelled => true
    case _ => false
  }

  // Membership has them, unless a newer generation has published.
  ghost predicate Shows(v: View, g: nat, nodes: set<Url>) {
    v.latest > g || (v.latest == g && nodes <= Elements(v.live))
  }

  ghost predicate Announced(s: System, g: nat, nodes: set<Url>) {
    && g in s.refreshes && g <= s.view.next && Carries(s.refreshes[g].phase, nodes)
    && (!s.refreshes[g].phase.Merging? && !s.refreshes[g].phase.Cancelled? ==> Shows(s.view, g, nodes))
  }

  lemma OwnStepAnnounces(cfg: Config, g: nat, v: View, p: Phase, e: Event, nodes: set<Url>)
    requires Enabled(cfg, v, p, e) && Carries(p, nodes)
    requires !p.Merging? && !p.Cancelled? ==> Shows(v, g, nodes)
    ensures var r := Advance(cfg, g, v, p, e);
            Carries(r.1, nodes) && (!r.1.Merging? && !r.1.Cancelled? ==> Shows(r.0, g, nodes))
  {
    match e
    case Pass => SortDedupMeaning(p.found);
    case Reply(answer) =>
      if answer.Some? {
        SortDedupMeaning(p.found + answer.value);
        assert Elements(p.found) <= Elements(p.found + answer.value);
      }
    case Merge =>
      SortDedupMeaning(v.live + p.found);
      assert Elements(v.live + p.found) == Elements(v.live) + Elements(p.found);
    case _ =>
  }

  lemma OtherStepShows(cfg: Config, h: nat, v: View, p: Phase, e: Event, g: nat, nodes: set<Url>)
    requires Enabled(cfg, v, p, e) && h != g && Shows(v, g, nodes)
    ensures Shows(Advance(cfg, h, v, p, e).0, g, nodes)
  {
  }

  lemma StepAnnounces(s: System, a: Action, g: nat, nodes: set<Url>)
    requires Possible(s, a) && Announced(s, g, nodes)
    ensures Announced(Do(s, a), g, nodes)
  {
    match a
    case Start(_) =>
    case Step(h, e) =>
      var m := s.refreshes[h];
      if h == g {
        OwnStepAnnounces(m.cfg, g, s.view, m.phase, e, nodes);
      } else if Shows(s.view, g, nodes) {
        OtherStepShows(m.cfg, h, s.view, m.phase, e, g, nodes);
      }
      NextStays(m.cfg, h, s.view, m.phase, e);
  }

  lemma NextStays(cfg: Config, h: nat, v: View, p: Phase, e: Event)
    requires Enabled(cfg, v, p, e)
    ensures Advance(cfg, h, v, p, e).0.next == v.next
  {
  }

  lemma {:induction false} StaysAnnounced(s: System, more: seq<Action>, g: nat, nodes: set<Url>)
    requires Announced(s, g, nodes) && Exec(s, more).Some?
    ensures Announced(Exec(s, more).value, g, nodes)
  {
    if more != [] {
      var before := more[..|more| - 1];
      StaysAnnounced(s, before, g, nodes);
      StepAnnounces(Exec(s, before).value, more[|more| - 1], g, nodes);
    }
  }

  // Over every run: what a candidate reports in a cluster pass is in membership
  // as soon as that refresh has had its next turn, and so when it asks the next
  // candidate, and it stays there, whatever else happens, unless a newer
  // generation publishes; only a refresh that is cancelled at once announces
  // nothing.
  lemma ReportsAreAnnounced(init: System, acts: seq<Action>, g: nat, nodes: seq<Url>, more: seq<Action>)
    requires Init(init) && Exec(init, acts).Some?
    requires var s := Exec(init, acts).value;
             && g in s.refreshes && s.refreshes[g].phase.Asking? && nodes != []
             && Possible(s, Step(g, Reply(Some(nodes)))) && Exec(Do(s, Step(g, Reply(Some(nodes)))), more).Some?
    ensures var t := Exec(Do(Exec(init, acts).value, Step(g, Reply(Some(nodes)))), more).value;
            && g in t.refreshes
            && (!t.refreshes[g].phase.Merging? && !t.refreshes[g].phase.Cancelled? ==>
                  t.view.latest > g || Elements(nodes) <= Elements(t.view.live))
  {
    InitInv(init);
    ExecKeepsInv(init, acts);
    var s := Exec(init, acts).value;
    SortDedupMeaning(s.refreshes[g].phase.found + nodes);
    assert Elements(nodes) <= Elements(s.refreshes[g].phase.found + nodes);
    StaysAnnounced(Do(s, Step(g, Reply(Some(nodes)))), more, g, Elements(nodes));
  }

  // A candidate is skipped exactly when a node found so far has its host and
  // port; every other one is asked, and only that counts as a request.
  lemma SkippedExactlyWhenFound(s: System, g: nat)
    requires Possible(s, Step(g, Pass)) && s.refreshes[g].phase.rest != []
    ensures var p, q := s.refreshes[g].phase, Do(s, Step(g, Pass)).refreshes[g].phase;
            var endpoint := s.refreshes[g].cfg.endpoint;
            var same := exists x :: x in p.found && endpoint(x) == endpoint(p.rest[0]);
            && (same ==> q.Passing? && q.rest == p.rest[1..] && q.w.sent == p.w.sent)
            && (!same ==> q.Asking? && q.node == p.rest[0] && q.rest == p.rest[1..] && |q.w.sent| == |p.w.sent| + 1)
  {
    var cfg, p := s.refreshes[g].cfg, s.refreshes[g].phase;
    if x :| x in p.found && cfg.endpoint(x) == cfg.endpoint(p.rest[0]) {
      var k :| 0 <= k < |p.found| && p.found[k] == x;
      assert InList(cfg.endpoint, p.rest[0], p.found);
    }
  }
}
