/** Routing scopes: a linked chain of datacenter/rack restrictions, most
    preferred first, and the rack-free chain derived from it for key affinity. */
module RoutingScopes {
  import opened Wrappers
  import opened Sorting

  // The restriction carried by one cell of the chain.
  datatype Level = Level(dc: Option<string>, rack: Option<string>)

  datatype Operation = Cluster | Datacenter(dc: string) | Rack(dc: string, rack: string)

  function OperationOf(l: Level): Operation {
    match (l.dc, l.rack)
    case (Some(dc), Some(rack)) => Rack(dc, rack)
    case (Some(dc), None) => Datacenter(dc)
    case (None, _) => Cluster
  }

  predicate IsCluster(l: Level) {
    l.dc.None? && l.rack.None?
  }

  function FromCluster(): (l: Level)
    ensures IsCluster(l) && OperationOf(l) == Cluster
  {
    Level(None, None)
  }

  function FromDatacenter(dc: string): (l: Level)
    ensures OperationOf(l) == if dc == "" then Cluster else Datacenter(dc)
    ensures IsCluster(l) <==> OperationOf(l) == Cluster
  {
    if dc == "" then FromCluster() else Level(Some(dc), None)
  }

  function FromRack(dc: string, rack: string): (l: Level)
    ensures OperationOf(l) == if dc == "" then Cluster else if rack == "" then Datacenter(dc) else Rack(dc, rack)
    ensures IsCluster(l) <==> OperationOf(l) == Cluster
  {
    if dc == "" then FromCluster()
    else if rack == "" then FromDatacenter(dc)
    else Level(Some(dc), Some(rack))
  }

  // `is_cluster` and the discovery operation agree on exactly the levels whose
  // rack comes with a datacenter, which is what the constructors build.
  lemma ClusterTestsAgree(l: Level)
    ensures (IsCluster(l) <==> OperationOf(l) == Cluster) <==> (l.rack.Some? ==> l.dc.Some?)
  {
    match l.dc case None => case Some(_) => match l.rack case None => case Some(_) =>
  }

  // ----- Widening: the specification of `without_rack` -----

  function Widened(l: Level): Level {
    Level(l.dc, None)
  }

  function WidenAll(levels: seq<Level>): (r: seq<Level>)
    ensures |r| == |levels|
    ensures forall i :: 0 <= i < |r| ==> r[i] == Widened(levels[i])
  {
    seq(|levels|, i requires 0 <= i < |levels| => Widened(levels[i]))
  }

  function WidenFrom(levels: seq<Level>, seen: set<Operation>): seq<Level> {
    if levels == [] then []
    else
      var w := Widened(levels[0]);
      if OperationOf(w) in seen then WidenFrom(levels[1..], seen)
      else [w] + WidenFrom(levels[1..], seen + {OperationOf(w)})
  }

  function Widen(levels: seq<Level>): seq<Level> {
    WidenFrom(levels, {})
  }

  // First occurrences, defined from the other end: an element is kept unless
  // it already occurs before.
  ghost function Firsts<T>(s: seq<T>): seq<T> {
    if s == [] then []
    else
      var init, last := s[..|s| - 1], s[|s| - 1];
      Firsts(init) + if last in init then [] else [last]
  }

  ghost function FirstIndex<T>(s: seq<T>, x: T): (i: nat)
    requires x in s
    ensures i < |s| && s[i] == x && forall k :: 0 <= k < i ==> s[k] != x
  {
    if s[0] == x then 0
    else
      assert s == [s[0]] + s[1..];
      FirstIndex(s[1..], x) + 1
  }

  lemma FirstIndexIs<T>(s: seq<T>, x: T, i: nat)
    requires i < |s| && s[i] == x && forall k :: 0 <= k < i ==> s[k] != x
    ensures FirstIndex(s, x) == i
  {
    var j := FirstIndex(s, x);
    assert !(j < i) && !(i < j);
  }

  lemma {:induction false} FirstsMeaning<T>(s: seq<T>)
    ensures forall x :: x in Firsts(s) <==> x in s
    ensures forall i, j :: 0 <= i < j < |Firsts(s)| ==>
                             FirstIndex(s, Firsts(s)[i]) < FirstIndex(s, Firsts(s)[j])
  {
    if s != [] {
      var init, last := s[..|s| - 1], s[|s| - 1];
      assert s == init + [last];
      FirstsMeaning(init);
      FirstIndexInLonger(init, last);
      var f := Firsts(init);
      assert forall x :: x in Firsts(s) <==> x in f || x == last;
      forall i, j | 0 <= i < j < |f|
        ensures f[i] in init && f[j] in init && FirstIndex(s, f[i]) < FirstIndex(s, f[j])
      {
        assert f[i] in f && f[j] in f;
        assert FirstIndex(init + [last], f[i]) < FirstIndex(init + [last], f[j]);
      }
      if last !in init {
        forall i | 0 <= i < |f| ensures f[i] in s && FirstIndex(s, f[i]) < FirstIndex(s, last) {
          assert f[i] in f;
          assert FirstIndex(init + [last], f[i]) == FirstIndex(init, f[i]);
        }
      }
    }
  }

  lemma FirstIndexInLonger<T>(init: seq<T>, last: T)
    ensures forall x :: x in init ==> FirstIndex(init + [last], x) == FirstIndex(init, x)
    ensures last !in init ==> FirstIndex(init + [last], last) == |init|
  {
    forall x | x in init ensures FirstIndex(init + [last], x) == FirstIndex(init, x) {
      FirstIndexIs(init + [last], x, FirstIndex(init, x));
    }
    if last !in init {
      FirstIndexIs(init + [last], last, |init|);
    }
  }

  lemma {:induction false} FirstsOfDistinct<T>(s: seq<T>)
    requires forall i, j :: 0 <= i < j < |s| ==> s[i] != s[j]
    ensures Firsts(s) == s
  {
    if s != [] {
      FirstsOfDistinct(s[..|s| - 1]);
      assert s == s[..|s| - 1] + [s[|s| - 1]];
    }
  }

  ghost function Without<T>(s: seq<T>, drop: set<T>): seq<T> {
    if s == [] then []
    else
      var init, last := s[..|s| - 1], s[|s| - 1];
      Without(init, drop) + if last in drop then [] else [last]
  }

  lemma FirstsSnoc<T>(s: seq<T>, x: T)
    ensures Firsts(s + [x]) == Firsts(s) + if x in s then [] else [x]
  {
    assert (s + [x])[..|s + [x]| - 1] == s;
  }

  lemma WithoutSnoc<T>(s: seq<T>, x: T, drop: set<T>)
    ensures Without(s + [x], drop) == Without(s, drop) + if x in drop then [] else [x]
  {
    assert (s + [x])[..|s + [x]| - 1] == s;
  }

  lemma FirstsAppendOne<T>(a: seq<T>, init: seq<T>, last: T, fa: seq<T>, w: seq<T>)
    requires fa == Firsts(a) && w == Without(Firsts(init), Elements(a))
    requires Firsts(a + init) == fa + w
    ensures Firsts((a + init) + [last]) == fa + Without(Firsts(init + [last]), Elements(a))
  {
    var ab := a + init;
    var fab := fa + w;
    assert Firsts(ab + [last]) == fab + (if last in ab then [] else [last]) by { FirstsSnoc(ab, last); }
    assert last in ab <==> last in a || last in init;
    WithoutFirstsSnoc(a, init, last);
    var tail := if last in ab then [] else [last];
    assert fab + tail == fa + (w + tail);
  }

  lemma WithoutFirstsSnoc<T>(a: seq<T>, init: seq<T>, last: T)
    ensures Without(Firsts(init + [last]), Elements(a))
         == Without(Firsts(init), Elements(a)) + if last in a || last in init then [] else [last]
  {
    FirstsSnoc(init, last);
    if last in init {
      assert Firsts(init + [last]) == Firsts(init);
    } else {
      WithoutSnoc(Firsts(init), last, Elements(a));
    }
  }

  lemma {:induction false} FirstsAppend<T>(a: seq<T>, b: seq<T>)
    ensures Firsts(a + b) == Firsts(a) + Without(Firsts(b), Elements(a))
  {
    if b == [] {
      assert a + b == a;
    } else {
      var init, last := b[..|b| - 1], b[|b| - 1];
      var fa := Firsts(a);
      assert Firsts((a + init) + [last]) == fa + Without(Firsts(init + [last]), Elements(a)) by {
        FirstsAppend(a, init);
        FirstsAppendOne(a, init, last, fa, Without(Firsts(init), Elements(a)));
      }
      assert b == init + [last];
      assert a + b == (a + init) + [last];
    }
  }

  // Removing repeats piece by piece and then once more loses nothing.
  lemma FirstsOfParts<T>(a: seq<T>, b: seq<T>)
    ensures Firsts(a + b) == Firsts(Firsts(a) + Firsts(b))
  {
    FirstsAppend(a, b);
    FirstsAppend(Firsts(a), Firsts(b));
    assert Elements(Firsts(a)) == Elements(a) by { FirstsMeaning(a); }
    FirstsTwice(a);
    FirstsTwice(b);
  }

  lemma FirstsTwice<T>(s: seq<T>)
    ensures Firsts(Firsts(s)) == Firsts(s)
  {
    FirstsMeaning(s);
    FirstsOfDistinct(Firsts(s));
  }

  ghost function WidenedOperations(levels: seq<Level>): set<Operation> {
    set i | 0 <= i < |levels| :: OperationOf(Widened(levels[i]))
  }

  lemma {:induction false} WidenFromSnoc(levels: seq<Level>, x: Level, seen: set<Operation>)
    ensures WidenFrom(levels + [x], seen)
         == WidenFrom(levels, seen)
          + if OperationOf(Widened(x)) in seen + WidenedOperations(levels) then [] else [Widened(x)]
  {
    if levels == [] {
      assert levels + [x] == [x];
    } else {
      var op := OperationOf(Widened(levels[0]));
      assert (levels + [x])[1..] == levels[1..] + [x];
      assert WidenedOperations(levels) == {op} + WidenedOperations(levels[1..]) by {
        forall o | o in WidenedOperations(levels) ensures o in {op} + WidenedOperations(levels[1..]) {
          var i :| 0 <= i < |levels| && o == OperationOf(Widened(levels[i]));
          if i > 0 { assert levels[i] == levels[1..][i - 1]; }
        }
        forall o | o in WidenedOperations(levels[1..]) ensures o in WidenedOperations(levels) {
          var i :| 0 <= i < |levels[1..]| && o == OperationOf(Widened(levels[1..][i]));
          assert levels[1..][i] == levels[i + 1];
        }
      }
      WidenFromSnoc(levels[1..], x, if op in seen then seen else seen + {op});
    }
  }

  // The `seen`-set loop keeps the first occurrences of the widened levels.
  lemma {:induction false} WidenIsFirsts(levels: seq<Level>)
    ensures Widen(levels) == Firsts(WidenAll(levels))
  {
    if levels != [] {
      var init, x := levels[..|levels| - 1], levels[|levels| - 1];
      assert levels == init + [x];
      WidenIsFirsts(init);
      WidenFromSnoc(init, x, {});
      assert WidenAll(levels)[..|levels| - 1] == WidenAll(init);
      if Widened(x) in WidenAll(init) {
        var i :| 0 <= i < |init| && WidenAll(init)[i] == Widened(x);
        assert OperationOf(Widened(init[i])) in WidenedOperations(init);
      }
      if OperationOf(Widened(x)) in WidenedOperations(init) {
        var i :| 0 <= i < |init| && OperationOf(Widened(x)) == OperationOf(Widened(init[i]));
        assert WidenAll(init)[i] == Widened(x);
      }
    }
  }

  // Exactly the widened operations of the chain, each once, in the order in
  // which they first occur; no rack is left.
  lemma WidenMeaning(levels: seq<Level>)
    ensures forall l :: l in Widen(levels) <==> l in WidenAll(levels)
    ensures forall i, j :: 0 <= i < j < |Widen(levels)| ==>
              && OperationOf(Widen(levels)[i]) != OperationOf(Widen(levels)[j])
              && FirstIndex(WidenAll(levels), Widen(levels)[i]) < FirstIndex(WidenAll(levels), Widen(levels)[j])
    ensures forall l :: l in Widen(levels) ==> l.rack.None? && (IsCluster(l) <==> OperationOf(l) == Cluster)
    ensures levels != [] ==> Widen(levels) != [] && Widen(levels)[0] == Widened(levels[0])
  {
    WidenIsFirsts(levels);
    FirstsMeaning(WidenAll(levels));
    var w := Widen(levels);
    forall i, j | 0 <= i < j < |w| ensures OperationOf(w[i]) != OperationOf(w[j]) {
      assert w[i] in WidenAll(levels) && w[j] in WidenAll(levels);
      assert w[i] != w[j];
    }
  }

  lemma WidenOfWidened(levels: seq<Level>)
    requires forall l :: l in levels ==> l.rack.None?
    ensures Widen(levels) == Firsts(levels)
  {
    assert WidenAll(levels) == levels by {
      forall i | 0 <= i < |levels| ensures WidenAll(levels)[i] == levels[i] {
        assert levels[i] in levels;
      }
    }
    WidenIsFirsts(levels);
  }

  lemma WidenIdempotent(levels: seq<Level>)
    ensures Widen(Widen(levels)) == Widen(levels)
  {
    WidenMeaning(levels);
    WidenIsFirsts(levels);
    WidenOfWidened(Widen(levels));
    FirstsTwice(WidenAll(levels));
  }

  lemma WidenOfConcatenation(a: seq<Level>, b: seq<Level>)
    ensures Widen(a + b) == Widen(Widen(a) + Widen(b))
  {
    var wa, wb := WidenAll(a), WidenAll(b);
    assert Widen(a + b) == Firsts(wa + wb) by {
      WidenIsFirsts(a + b);
      assert WidenAll(a + b) == wa + wb;
    }
    FirstsOfParts(wa, wb);
    WidenIsFirsts(a);
    WidenIsFirsts(b);
    var w := Widen(a) + Widen(b);
    forall l | l in w ensures l.rack.None? {
      if l in Widen(a) { WidenMeaning(a); } else { WidenMeaning(b); }
    }
    WidenOfWidened(w);
  }

  // Clients in different racks derive the same affinity chain.
  lemma WidenIgnoresRacks(a: seq<Level>, b: seq<Level>)
    requires |a| == |b| && forall i :: 0 <= i < |a| ==> a[i].dc == b[i].dc
    ensures Widen(a) == Widen(b)
  {
    WidenIsFirsts(a);
    WidenIsFirsts(b);
    assert WidenAll(a) == WidenAll(b);
  }

  // ----- The chain itself -----

  class RoutingScope {
    const dc: Option<string>
    const rack: Option<string>
    var fallback: RoutingScope?

    constructor (level: Level)
      ensures fallback == null && ToLevel() == level
    {
      dc, rack := level.dc, level.rack;
      fallback := null;
    }

    function ToLevel(): Level {
      Level(dc, rack)
    }

    // `mine` and `theirs` are the cells of the two chains, which the values
    // own; the result is their concatenation.
    method WithFallback(newFallback: RoutingScope, ghost mine: seq<RoutingScope>, ghost theirs: seq<RoutingScope>)
      requires Chain(mine) && mine != [] && mine[0] == this
      requires Chain(theirs) && theirs != [] && theirs[0] == newFallback
      requires forall c :: c in mine ==> c !in theirs
      modifies mine
      ensures Chain(mine + theirs)
      ensures Levels(mine + theirs) == Levels(mine) + Levels(theirs)
    {
      var tail := this;
      ghost var k := 0;
      while tail.fallback != null
        modifies {}
        invariant 0 <= k < |mine| && mine[k] == tail
        decreases |mine| - k
      {
        assert mine[k].fallback == NextOf(mine, k);
        tail := tail.fallback;
        k := k + 1;
      }
      assert NextOf(mine, k) == null;
      tail.fallback := newFallback;
      ghost var all := mine + theirs;
      forall i | 0 <= i < |all|
        ensures all[i].fallback == NextOf(all, i)
      {
        if |mine| <= i {
          assert theirs[i - |mine|] in theirs;
          assert theirs[i - |mine|].fallback == NextOf(theirs, i - |mine|);
        } else {
          assert i < k ==> mine[i].fallback == NextOf(mine, i);
        }
      }
      forall i, j | 0 <= i < j < |all| ensures all[i] != all[j] {
        if i < |mine| <= j {
          assert mine[i] in mine && theirs[j - |mine|] in theirs;
        }
      }
    }

    method HasRackRestriction(ghost mine: seq<RoutingScope>) returns (found: bool)
      requires Chain(mine) && mine != [] && mine[0] == this
      ensures found <==> exists l :: l in Levels(mine) && l.rack.Some?
    {
      var current: RoutingScope? := this;
      ghost var k := 0;
      found := false;
      while current != null && !found
        invariant 0 <= k <= |mine|
        invariant current == if k < |mine| then mine[k] else null
        invariant forall i :: 0 <= i < k ==> Levels(mine)[i].rack.None?
        invariant found ==> k < |mine| && Levels(mine)[k].rack.Some?
        decreases |mine| - k, !found
      {
        if current.rack.Some? {
          found := true;
        } else {
          assert mine[k].fallback == NextOf(mine, k);
          current := current.fallback;
          k := k + 1;
        }
      }
    }

    // The tail insertion of `without_rack`.
    static method Append(level: Level, tail: RoutingScope?, ghost cells: seq<RoutingScope>)
      returns (cell: RoutingScope)
      requires Chain(cells)
      requires tail == if cells == [] then null else cells[|cells| - 1]
      modifies if tail == null then {} else {tail}
      ensures fresh(cell) && Chain(cells + [cell])
      ensures Levels(cells + [cell]) == Levels(cells) + [level]
    {
      cell := new RoutingScope(level);
      if tail != null {
        tail.fallback := cell;
      }
      forall i | 0 <= i < |cells| ensures cells[i].fallback == NextOf(cells + [cell], i) {
        assert cells[i] != tail ==> old(cells[i].fallback) == NextOf(cells, i);
      }
      ChainSnoc(cells, cell);
    }

    method WithoutRack(ghost mine: seq<RoutingScope>) returns (resolved: RoutingScope, ghost cells: seq<RoutingScope>)
      requires Chain(mine) && mine != [] && mine[0] == this
      ensures fresh(cells) && Chain(cells) && cells != [] && cells[0] == resolved
      ensures Levels(cells) == Widen(Levels(mine))
    {
      var seen: set<Operation> := {};
      var head: RoutingScope? := null;
      var tail: RoutingScope? := null;
      var current: RoutingScope? := this;
      ghost var k := 0;
      ghost var levels := Levels(mine);
      cells := [];
      assert levels[0..] == levels;
      while current != null
        invariant 0 <= k <= |mine|
        invariant current == if k < |mine| then mine[k] else null
        invariant fresh(cells) && Chain(cells)
        invariant tail == if cells == [] then null else cells[|cells| - 1]
        invariant cells != [] ==> head == cells[0]
        invariant Progress(levels, k, Levels(cells), seen)
        decreases |mine| - k
      {
        var next := current.fallback;
        assert next == NextOf(mine, k);
        var widened := Widened(current.ToLevel());
        ProgressStep(levels, k, Levels(cells), seen);
        if OperationOf(widened) !in seen {
          var cell := Append(widened, tail, cells);
          seen := seen + {OperationOf(widened)};
          if tail == null {
            head := cell;
          }
          tail := cell;
          cells := cells + [cell];
          assert cells[|cells| - 1] == tail;
        }
        current := next;
        k := k + 1;
      }
      ProgressEnd(levels, Levels(cells), seen);
      resolved := head;
    }
  }

  lemma ChainSnoc(cells: seq<RoutingScope>, cell: RoutingScope)
    requires forall i :: 0 <= i < |cells| ==> cells[i].fallback == NextOf(cells + [cell], i)
    requires forall i, j :: 0 <= i < j < |cells| ==> cells[i] != cells[j]
    requires cell !in cells && cell.fallback == null
    ensures Chain(cells + [cell])
    ensures Levels(cells + [cell]) == Levels(cells) + [cell.ToLevel()]
  {
  }

  ghost function NextOf(cells: seq<RoutingScope>, i: nat): RoutingScope? {
    if i + 1 < |cells| then cells[i + 1] else null
  }

  // What the loop of `without_rack` keeps: the cells built so far, followed
  // by what the rest of the chain will contribute, are the widened chain.
  ghost predicate Progress(levels: seq<Level>, k: nat, kept: seq<Level>, seen: set<Operation>) {
    k <= |levels| && kept + WidenFrom(levels[k..], seen) == Widen(levels)
  }

  lemma ProgressStep(levels: seq<Level>, k: nat, kept: seq<Level>, seen: set<Operation>)
    requires k < |levels| && Progress(levels, k, kept, seen)
    ensures var w := Widened(levels[k]);
            if OperationOf(w) in seen then Progress(levels, k + 1, kept, seen)
            else Progress(levels, k + 1, kept + [w], seen + {OperationOf(w)})
  {
    assert levels[k..][1..] == levels[k + 1..];
  }

  lemma ProgressEnd(levels: seq<Level>, kept: seq<Level>, seen: set<Operation>)
    requires levels != [] && Progress(levels, |levels|, kept, seen)
    ensures kept == Widen(levels) && kept != []
  {
    WidenMeaning(levels);
    assert levels[|levels|..] == [];
  }

  ghost predicate Chain(cells: seq<RoutingScope>)
    reads cells
  {
    && (forall i :: 0 <= i < |cells| ==> cells[i].fallback == NextOf(cells, i))
    && (forall i, j :: 0 <= i < j < |cells| ==> cells[i] != cells[j])
  }

  ghost function Levels(cells: seq<RoutingScope>): (r: seq<Level>)
    ensures |r| == |cells| && forall i :: 0 <= i < |cells| ==> r[i] == cells[i].ToLevel()
  {
    seq(|cells|, i requires 0 <= i < |cells| => cells[i].ToLevel())
  }
}
