/** Sorting and adjacent de-duplication, as the client applies them to node
    lists, and the two facts everything else needs: a sorted list is determined
    by its multiset, a sorted duplicate-free list by its set. */
module Sorting {
  import opened Text

  ghost predicate TotalOrder<T(!new)>(le: (T, T) -> bool) {
    && (forall a, b :: le(a, b) || le(b, a))
    && (forall a, b :: le(a, b) && le(b, a) ==> a == b)
    && (forall a, b, c :: le(a, b) && le(b, c) ==> le(a, c))
  }

  ghost predicate Sorted<T>(le: (T, T) -> bool, s: seq<T>) {
    forall i, j :: 0 <= i < j < |s| ==> le(s[i], s[j])
  }

  function Insert<T>(le: (T, T) -> bool, x: T, s: seq<T>): seq<T> {
    if s == [] then [x]
    else if le(x, s[0]) then [x] + s
    else [s[0]] + Insert(le, x, s[1..])
  }

  // The library sort. Every order used here is total and antisymmetric, so
  // stability makes no difference.
  function Sort<T>(le: (T, T) -> bool, s: seq<T>): seq<T> {
    if s == [] then [] else Insert(le, s[0], Sort(le, s[1..]))
  }

  lemma {:induction false} InsertSorted<T(!new)>(le: (T, T) -> bool, x: T, s: seq<T>)
    requires TotalOrder(le) && Sorted(le, s)
    ensures Sorted(le, Insert(le, x, s))
    ensures multiset(Insert(le, x, s)) == multiset(s) + multiset{x}
  {
    if s == [] {
    } else if le(x, s[0]) {
    } else {
      var t := s[1..];
      assert s == [s[0]] + t;
      InsertSorted(le, x, t);
      var r := Insert(le, x, t);
      forall y | y in r ensures le(s[0], y) {
        assert y in multiset(r);
        assert y == x || y in multiset(t);
        if y != x {
          var k :| 0 <= k < |t| && t[k] == y;
          assert s[k + 1] == y;
        }
      }
      PrependSorted(le, s[0], r);
    }
  }

  lemma PrependSorted<T(!new)>(le: (T, T) -> bool, x: T, s: seq<T>)
    requires Sorted(le, s) && forall y :: y in s ==> le(x, y)
    ensures Sorted(le, [x] + s)
  {
  }

  lemma {:induction false} SortSorts<T(!new)>(le: (T, T) -> bool, s: seq<T>)
    requires TotalOrder(le)
    ensures Sorted(le, Sort(le, s))
    ensures multiset(Sort(le, s)) == multiset(s)
    ensures |Sort(le, s)| == |s|
  {
    if s != [] {
      SortSorts(le, s[1..]);
      InsertSorted(le, s[0], Sort(le, s[1..]));
      assert s == [s[0]] + s[1..];
      assert |multiset(Sort(le, s))| == |multiset(s)|;
    }
  }

  // A sorted list is determined by its multiset.
  lemma {:induction false} SortedUnique<T(!new)>(le: (T, T) -> bool, a: seq<T>, b: seq<T>)
    requires TotalOrder(le) && Sorted(le, a) && Sorted(le, b)
    requires multiset(a) == multiset(b)
    ensures a == b
  {
    assert |multiset(a)| == |multiset(b)|;
    if a != [] {
      FirstIsLeast(le, a, b[0]);
      FirstIsLeast(le, b, a[0]);
      TailBag(a);
      TailBag(b);
      SortedUnique(le, a[1..], b[1..]);
      assert a == [a[0]] + a[1..] && b == [b[0]] + b[1..];
    }
  }

  lemma FirstIsLeast<T(!new)>(le: (T, T) -> bool, s: seq<T>, x: T)
    requires TotalOrder(le) && Sorted(le, s) && s != [] && x in multiset(s)
    ensures le(s[0], x)
  {
    var k :| 0 <= k < |s| && s[k] == x;
    assert le(x, x);
  }

  lemma TailBag<T>(s: seq<T>)
    requires s != []
    ensures s[0] in multiset(s) && multiset(s[1..]) == multiset(s) - multiset{s[0]}
  {
    assert s == [s[0]] + s[1..];
  }

  lemma SortCanonical<T(!new)>(le: (T, T) -> bool, a: seq<T>, b: seq<T>)
    requires TotalOrder(le) && multiset(a) == multiset(b)
    ensures Sort(le, a) == Sort(le, b)
  {
    SortSorts(le, a);
    SortSorts(le, b);
    SortedUnique(le, Sort(le, a), Sort(le, b));
  }

  lemma AtMostIsTotalOrder()
    ensures TotalOrder(AtMost)
  {
    forall a, b ensures AtMost(a, b) || AtMost(b, a) { LessTotal(a, b); }
    forall a, b | AtMost(a, b) && AtMost(b, a) ensures a == b {
      if a != b { LessAsymmetric(a, b); }
    }
    forall a, b, c | AtMost(a, b) && AtMost(b, c) ensures AtMost(a, c) {
      if a != b && b != c { LessTransitive(a, b, c); }
    }
  }

  // ----- Node lists -----

  function Elements<T>(s: seq<T>): set<T> {
    set x | x in s
  }

  ghost predicate StrictlySorted(s: seq<string>) {
    forall i, j :: 0 <= i < j < |s| ==> Less(s[i], s[j])
  }

  // Keeps the first element of every run of equal neighbours.
  function Dedup(s: seq<string>): seq<string> {
    if |s| <= 1 then s
    else if s[0] == s[1] then Dedup(s[1..])
    else [s[0]] + Dedup(s[1..])
  }

  function SortDedup(s: seq<string>): seq<string> {
    Dedup(Sort(AtMost, s))
  }

  lemma {:induction false} DedupSorted(s: seq<string>)
    requires Sorted(AtMost, s)
    ensures StrictlySorted(Dedup(s))
    ensures Elements(Dedup(s)) == Elements(s)
    ensures s != [] ==> Dedup(s) != [] && Dedup(s)[0] == s[0]
  {
    if |s| > 1 {
      var t := s[1..];
      assert s == [s[0]] + t;
      DedupSorted(t);
      assert Elements(s) == {s[0]} + Elements(t);
      if s[0] != s[1] {
        var r := Dedup(t);
        forall y | y in r ensures Less(s[0], y) {
          assert y in Elements(t);
          var i :| 0 <= i < |t| && t[i] == y;
          assert AtMost(s[0], t[0]);
          if i > 0 {
            assert AtMost(t[0], t[i]);
            if t[0] != t[i] { LessTransitive(s[0], t[0], t[i]); }
          }
        }
      }
    }
  }

  // What sorting and de-duplicating a node list means: no node lost, none
  // added, none repeated, in URL order.
  lemma SortDedupMeaning(s: seq<string>)
    ensures StrictlySorted(SortDedup(s))
    ensures Elements(SortDedup(s)) == Elements(s)
    ensures s == [] <==> SortDedup(s) == []
  {
    AtMostIsTotalOrder();
    SortSorts(AtMost, s);
    var t := Sort(AtMost, s);
    forall x ensures x in t <==> x in s {
      assert x in multiset(t) <==> x in multiset(s);
    }
    assert Elements(t) == Elements(s);
    DedupSorted(t);
  }

  lemma NoElements<T>(s: seq<T>)
    ensures Elements(s) == {} <==> s == []
  {
    if s != [] {
      assert s[0] in Elements(s);
    }
  }

  lemma {:induction false} StrictlySortedUnique(a: seq<string>, b: seq<string>)
    requires StrictlySorted(a) && StrictlySorted(b) && Elements(a) == Elements(b)
    ensures a == b
  {
    NoElements(a);
    NoElements(b);
    if a != [] {
      assert a[0] in Elements(b);
      assert b[0] in Elements(a);
      var i :| 0 <= i < |b| && b[i] == a[0];
      var j :| 0 <= j < |a| && a[j] == b[0];
      if i > 0 && j > 0 {
        LessAsymmetric(a[0], a[j]);
        assert false;
      }
      assert a[0] == b[0];
      TailElements(a);
      TailElements(b);
      StrictlySortedUnique(a[1..], b[1..]);
    }
  }

  lemma TailElements(a: seq<string>)
    requires StrictlySorted(a) && a != []
    ensures Elements(a[1..]) == Elements(a) - {a[0]}
  {
    forall i | 0 < i < |a| ensures a[i] != a[0] { LessAsymmetric(a[0], a[i]); }
    forall x ensures x in a[1..] <==> x in a && x != a[0] {
      assert a == [a[0]] + a[1..];
    }
  }

  // The sorted union of node lists depends only on the set of nodes.
  lemma SortDedupCanonical(a: seq<string>, b: seq<string>)
    requires Elements(a) == Elements(b)
    ensures SortDedup(a) == SortDedup(b)
  {
    SortDedupMeaning(a);
    SortDedupMeaning(b);
    StrictlySortedUnique(SortDedup(a), SortDedup(b));
  }

  lemma SortDedupFixed(a: seq<string>)
    requires StrictlySorted(a)
    ensures SortDedup(a) == a
  {
    SortDedupMeaning(a);
    StrictlySortedUnique(SortDedup(a), a);
  }

  // ----- Lists without repetitions -----

  ghost predicate Distinct<T>(s: seq<T>) {
    forall i, j :: 0 <= i < j < |s| ==> s[i] != s[j]
  }

  lemma {:induction false} DistinctSize<T>(s: seq<T>)
    requires Distinct(s)
    ensures |Elements(s)| == |s|
  {
    if s != [] {
      var init, last := s[..|s| - 1], s[|s| - 1];
      DistinctSize(init);
      assert s == init + [last];
      assert Elements(s) == Elements(init) + {last};
      assert last !in Elements(init);
    }
  }

  lemma {:induction false} DistinctBag<T>(s: seq<T>, u: T)
    requires Distinct(s)
    ensures multiset(s)[u] == if u in s then 1 else 0
  {
    if s != [] {
      var init, last := s[..|s| - 1], s[|s| - 1];
      DistinctBag(init, u);
      assert s == init + [last];
    }
  }

  lemma RepeatedInBag<T>(s: seq<T>, i: nat, j: nat)
    requires i < j < |s| && s[i] == s[j]
    ensures multiset(s)[s[i]] >= 2
  {
    assert s == s[..i] + [s[i]] + s[i + 1..j] + [s[j]] + s[j + 1..];
  }

  lemma DistinctPermutation<T>(a: seq<T>, b: seq<T>)
    requires Distinct(a) && multiset(a) == multiset(b)
    ensures Distinct(b)
  {
    forall i, j | 0 <= i < j < |b| ensures b[i] != b[j] {
      DistinctBag(a, b[i]);
      if b[i] == b[j] { RepeatedInBag(b, i, j); }
    }
  }

  // ----- Images of lists -----

  ghost function Image<K, T>(f: K -> T, keys: seq<K>): (r: seq<T>)
    ensures |r| == |keys| && forall i :: 0 <= i < |r| ==> r[i] == f(keys[i])
  {
    seq(|keys|, i requires 0 <= i < |keys| => f(keys[i]))
  }

  lemma ImageAround<K, T>(f: K -> T, l: seq<K>, x: K, r: seq<K>)
    ensures multiset(Image(f, (l + [x]) + r)) == multiset(Image(f, l + r)) + multiset{f(x)}
  {
    assert Image(f, (l + [x]) + r) == Image(f, l) + [f(x)] + Image(f, r);
    assert Image(f, l + r) == Image(f, l) + Image(f, r);
  }

  // The bag of images depends only on the bag of keys.
  lemma {:induction false} ImageIgnoresOrder<K, T>(f: K -> T, a: seq<K>, b: seq<K>)
    requires multiset(a) == multiset(b)
    ensures multiset(Image(f, a)) == multiset(Image(f, b))
  {
    assert |multiset(a)| == |multiset(b)|;
    if a != [] {
      var x, init := a[|a| - 1], a[..|a| - 1];
      assert a == init + [x];
      assert x in multiset(b);
      var k :| 0 <= k < |b| && b[k] == x;
      var l, r := b[..k], b[k + 1..];
      assert b == (l + [x]) + r;
      assert multiset(l + r) == multiset(b) - multiset{x};
      assert multiset(init) == multiset(a) - multiset{x};
      ImageIgnoresOrder(f, init, l + r);
      ImageAround(f, l, x, r);
      ImageAround(f, init, x, []);
      assert a == (init + [x]) + [] && init + [] == init;
    }
  }
}
