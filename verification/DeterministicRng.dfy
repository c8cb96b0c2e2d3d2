/** The xorshift64* generator behind seeded plans, on 64-bit words, and the
    multiply-shift that turns a word into an index. */
module DeterministicRng {
  const TWO_TO_THE_64: nat := 0x1_0000_0000_0000_0000

  function Seeded(seed: bv64): bv64 {
    if seed == 0 then 0x9e37_79b9_7f4a_7c15 else seed
  }

  function ShiftA(v: bv64): bv64 {
    v ^ (v >> 12)
  }

  function ShiftB(v: bv64): bv64 {
    v ^ (v << 25)
  }

  function ShiftC(v: bv64): bv64 {
    v ^ (v >> 27)
  }

  function NextState(v: bv64): bv64 {
    ShiftC(ShiftB(ShiftA(v)))
  }

  const MULTIPLIER: nat := 0x2545_f491_4f6c_dd1d

  // Wrapping multiplication of 64-bit words.
  function Output(v: bv64): (word: nat)
    ensures word < TWO_TO_THE_64
  {
    (v as nat * MULTIPLIER) % TWO_TO_THE_64
  }

  function Scale(word: nat, bound: nat): nat {
    word * bound / TWO_TO_THE_64
  }

  // The index drawn from state `v`.
  function IndexFrom(v: bv64, bound: nat): (i: nat)
    requires bound > 0
    ensures i < bound
  {
    var word := Output(NextState(v));
    ScaleBelow(word, bound);
    Scale(word, bound)
  }

  class Rng {
    var state: bv64

    constructor (seed: bv64)
      ensures state == Seeded(seed)
    {
      state := Seeded(seed);
    }

    method NextU64() returns (word: nat)
      modifies this
      ensures state == NextState(old(state)) && word == Output(NextState(old(state)))
    {
      var value := state;
      value := ShiftA(value);
      value := ShiftB(value);
      value := ShiftC(value);
      state := value;
      word := Output(value);
    }

    // The source panics on a zero bound.
    method Index(bound: nat) returns (index: nat)
      requires 0 < bound < TWO_TO_THE_64
      modifies this
      ensures state == NextState(old(state)) && index == IndexFrom(old(state), bound)
      ensures index < bound
    {
      var word := NextU64();
      index := Scale(word, bound);
      ScaleBelow(word, bound);
    }
  }

  // ----- The state map -----

  function UnshiftA(y: bv64): bv64 {
    y ^ (y >> 12) ^ (y >> 24) ^ (y >> 36) ^ (y >> 48) ^ (y >> 60)
  }

  function UnshiftB(y: bv64): bv64 {
    y ^ (y << 25) ^ (y << 50)
  }

  function UnshiftC(y: bv64): bv64 {
    y ^ (y >> 27) ^ (y >> 54)
  }

  // Written on the unfolded word, the identities are plain cancellation.
  lemma UnshiftInlined(v: bv64)
    ensures UnshiftA(v ^ (v >> 12)) == v
    ensures UnshiftB(v ^ (v << 25)) == v
    ensures UnshiftC(v ^ (v >> 27)) == v
  {
  }

  lemma ShiftInlined(v: bv64)
    ensures ShiftA(v ^ (v >> 12) ^ (v >> 24) ^ (v >> 36) ^ (v >> 48) ^ (v >> 60)) == v
    ensures ShiftB(v ^ (v << 25) ^ (v << 50)) == v
    ensures ShiftC(v ^ (v >> 27) ^ (v >> 54)) == v
  {
  }

  lemma UnshiftsUndo(v: bv64)
    ensures UnshiftA(ShiftA(v)) == v && UnshiftB(ShiftB(v)) == v && UnshiftC(ShiftC(v)) == v
  {
    UnshiftInlined(v);
  }

  lemma ShiftsUndo(v: bv64)
    ensures ShiftA(UnshiftA(v)) == v && ShiftB(UnshiftB(v)) == v && ShiftC(UnshiftC(v)) == v
  {
    ShiftInlined(v);
  }

  lemma ShiftsInvert(v: bv64)
    ensures UnshiftA(ShiftA(v)) == v && UnshiftB(ShiftB(v)) == v && UnshiftC(ShiftC(v)) == v
    ensures ShiftA(UnshiftA(v)) == v && ShiftB(UnshiftB(v)) == v && ShiftC(UnshiftC(v)) == v
  {
    UnshiftsUndo(v);
    ShiftsUndo(v);
  }

  function PreviousState(v: bv64): bv64 {
    UnshiftA(UnshiftB(UnshiftC(v)))
  }

  lemma StateMapInverts(v: bv64)
    ensures PreviousState(NextState(v)) == v
    ensures NextState(PreviousState(v)) == v
  {
    ShiftsInvert(v);
    ShiftsInvert(ShiftA(v));
    ShiftsInvert(ShiftB(ShiftA(v)));
    ShiftsInvert(UnshiftC(v));
    ShiftsInvert(UnshiftB(UnshiftC(v)));
  }

  // The state map is one-to-one, onto, and fixes 0.
  lemma StateMapIsBijection(v: bv64, w: bv64)
    ensures NextState(v) == NextState(w) ==> v == w
    ensures exists u :: NextState(u) == v
    ensures NextState(v) == 0 <==> v == 0
  {
    StateMapInverts(v);
    StateMapInverts(w);
    StateMapInverts(0);
    assert NextState(0) == 0;
  }

  // The multiplier is odd: its inverse modulo 2^64 takes the product back.
  const INVERSE: nat := 0x59071d96d81ecd35

  lemma WrapTwice(a: nat, m: nat, i: nat, n: nat, q: nat)
    requires n > 0 && m * i == q * n + 1 && a < n
    ensures (a * m % n) * i % n == a
  {
    var p, r := a * m / n, a * m % n;
    assert a * m == n * p + r;
    calc {
      r * i;
      (a * m - n * p) * i;
      a * (m * i) - n * p * i;
      a * (q * n + 1) - n * p * i;
      a + n * (a * q - p * i);
    }
    Congruent(r * i, a, n, a * q - p * i);
  }

  lemma NotNegative(n: nat, a: nat, k: int)
    requires a < n && a + n * k >= 0
    ensures k >= 0
  {
  }

  lemma Congruent(x: nat, a: nat, n: nat, k: int)
    requires a < n && x == a + n * k
    ensures x % n == a
  {
    NotNegative(n, a, k);
    assert x == n * k + a;
    Quotient(x, n, k, a);
  }

  // Different states give different words.
  lemma OutputIsInvertible(v: bv64, w: bv64)
    ensures Output(v) * INVERSE % TWO_TO_THE_64 == v as nat
    ensures Output(v) == Output(w) ==> v == w
  {
    assert MULTIPLIER * INVERSE == (MULTIPLIER * INVERSE / TWO_TO_THE_64) * TWO_TO_THE_64 + 1;
    WrapTwice(v as nat, MULTIPLIER, INVERSE, TWO_TO_THE_64, MULTIPLIER * INVERSE / TWO_TO_THE_64);
    WrapTwice(w as nat, MULTIPLIER, INVERSE, TWO_TO_THE_64, MULTIPLIER * INVERSE / TWO_TO_THE_64);
    assert (v as nat) as bv64 == v && (w as nat) as bv64 == w;
  }

  function StateAfter(seed: bv64, draws: nat): bv64 {
    if draws == 0 then Seeded(seed) else NextState(StateAfter(seed, draws - 1))
  }

  // The generator never reaches the fixed point 0, whatever the seed.
  lemma {:induction false} StateNeverZero(seed: bv64, draws: nat)
    ensures StateAfter(seed, draws) != 0
  {
    if draws > 0 {
      StateNeverZero(seed, draws - 1);
      StateMapIsBijection(StateAfter(seed, draws - 1), 0);
    }
  }

  // A seed that is not 0 is the first state itself; 0 stands for a fixed one.
  lemma SeedIsFirstState(seed: bv64, draws: nat)
    ensures seed != 0 ==> StateAfter(seed, 0) == seed
    ensures StateAfter(0, draws) == StateAfter(0x9e37_79b9_7f4a_7c15, draws)
  {
    SameStart(0, 0x9e37_79b9_7f4a_7c15, draws);
  }

  lemma {:induction false} SameStart(a: bv64, b: bv64, draws: nat)
    requires StateAfter(a, 0) == StateAfter(b, 0)
    ensures StateAfter(a, draws) == StateAfter(b, draws)
  {
    if draws > 0 {
      SameStart(a, b, draws - 1);
    }
  }

  // Different keys never meet: after as many draws each, generators of different
  // seeds are in different states and give different words.
  lemma {:induction false} SeedsStayApart(a: bv64, b: bv64, draws: nat)
    requires a != 0 && b != 0 && a != b
    ensures StateAfter(a, draws) != StateAfter(b, draws)
    ensures Output(StateAfter(a, draws)) != Output(StateAfter(b, draws))
  {
    if draws > 0 {
      SeedsStayApart(a, b, draws - 1);
      StateMapIsBijection(StateAfter(a, draws - 1), StateAfter(b, draws - 1));
    }
    OutputIsInvertible(StateAfter(a, draws), StateAfter(b, draws));
  }

  // ----- The index arithmetic -----

  lemma Product(a: nat, b: nat, c: nat)
    ensures a <= b ==> c * a <= c * b
    ensures c * (a + 1) == c * a + c
  {
  }

  lemma Quotient(a: nat, b: nat, q: nat, r: nat)
    requires a == b * q + r && r < b
    ensures a / b == q
  {
    var p := a / b;
    QuotientBounds(a, b);
    Product(p + 1, q, b);
    Product(q + 1, p, b);
    Product(p, q, b);
    Product(q, p, b);
  }

  lemma QuotientBounds(a: nat, b: nat)
    requires b > 0
    ensures b * (a / b) <= a < b * (a / b) + b
  {
  }

  // Multiply-shift stays below the bound and is monotone.
  lemma ScaleBelow(word: nat, bound: nat)
    requires word < TWO_TO_THE_64 && bound > 0
    ensures Scale(word, bound) < bound
  {
    ProductBelow(word, TWO_TO_THE_64, bound);
    assert word * bound < TWO_TO_THE_64 * bound;
  }

  lemma ProductBelow(a: nat, b: nat, c: nat)
    requires a < b && c > 0
    ensures a * c < b * c
  {
  }

  lemma ProductAtMost(a: nat, b: nat, c: nat)
    requires a <= b
    ensures a * c <= b * c
  {
  }

  lemma ScaleMonotone(a: nat, b: nat, bound: nat)
    requires a <= b
    ensures Scale(a, bound) <= Scale(b, bound)
  {
    ProductAtMost(a, b, bound);
    assert a * bound <= b * bound;
  }

  function CeilingOf(a: nat, b: nat): nat
    requires b > 0
  {
    (a + b - 1) / b
  }

  lemma CeilingMeaning(a: nat, b: nat, x: nat)
    requires b > 0
    ensures CeilingOf(a, b) <= x <==> a <= x * b
  {
    var c := CeilingOf(a, b);
    QuotientBounds(a + b - 1, b);
    assert b * c <= a + b - 1 < b * c + b;
    if c <= x {
      assert b * c <= b * x;
    } else {
      assert b * (x + 1) <= b * c;
      assert b * (x + 1) == x * b + b;
    }
  }

  // The words that give index `i` are an interval.
  lemma IndexInterval(word: nat, bound: nat, i: nat)
    requires bound > 0
    ensures Scale(word, bound) == i
       <==> CeilingOf(i * TWO_TO_THE_64, bound) <= word < CeilingOf((i + 1) * TWO_TO_THE_64, bound)
  {
    var m := TWO_TO_THE_64;
    CeilingMeaning(i * m, bound, word);
    CeilingMeaning((i + 1) * m, bound, word);
    var w := word * bound;
    QuotientBounds(w, m);
    if i * m <= w < (i + 1) * m {
      assert w == m * i + (w - i * m);
      Quotient(w, m, i, w - i * m);
    }
  }

  predicate Between(lo: nat, x: nat, hi: nat) {
    lo <= x < hi
  }

  ghost function Interval(lo: nat, hi: nat): set<nat> {
    set x: nat | x < hi && Between(lo, x, hi)
  }

  lemma {:induction false} IntervalSize(lo: nat, hi: nat)
    requires lo <= hi
    ensures |Interval(lo, hi)| == hi - lo
    decreases hi - lo
  {
    var s := Interval(lo, hi);
    if lo < hi {
      IntervalSize(lo, hi - 1);
      assert s == Interval(lo, hi - 1) + {hi - 1};
    }
  }

  lemma Distribute(n: nat, a: nat, b: nat)
    ensures n * (a + b) == n * a + n * b
  {
  }

  lemma DivisionOfSumParts(a: nat, m: nat, n: nat, q: nat, r: nat, s: nat, t: nat)
    requires m == n * q + r && a == n * s + t && r < n && t < n
    ensures m / n == q && a / n == s
    ensures (a + m) / n == q + s || ((a + m) / n == q + s + 1 && CeilingOf(m, n) == q + 1)
  {
    Quotient(m, n, q, r);
    Quotient(a, n, s, t);
    Distribute(n, q, s);
    if r + t < n {
      Quotient(a + m, n, q + s, r + t);
    } else {
      Product(q + s, 0, n);
      Quotient(a + m, n, q + s + 1, r + t - n);
      Product(q, 0, n);
      Quotient(m + n - 1, n, q + 1, r - 1);
    }
  }

  lemma DivisionOfSum(a: nat, m: nat, n: nat)
    requires n > 0
    ensures (a + m) / n - a / n == m / n || (a + m) / n - a / n == CeilingOf(m, n)
    ensures a / n <= (a + m) / n
  {
    DivisionOfSumParts(a, m, n, m / n, m % n, a / n, a % n);
  }

  // Every index is hit by either the floor or the ceiling of 2^64 / bound of
  // the 64-bit words.
  lemma IndexIsUniform(bound: nat, i: nat)
    requires 0 < bound && i < bound
    ensures var hits := |set word: nat | word < TWO_TO_THE_64 && Scale(word, bound) == i|;
            hits == TWO_TO_THE_64 / bound || hits == CeilingOf(TWO_TO_THE_64, bound)
  {
    var m := TWO_TO_THE_64;
    var lo, hi := CeilingOf(i * m, bound), CeilingOf((i + 1) * m, bound);
    assert (i + 1) * m == i * m + m;
    DivisionOfSum(i * m + bound - 1, m, bound);
    assert hi <= m by {
      assert (i + 1) * m <= bound * m;
      CeilingMeaning((i + 1) * m, bound, m);
    }
    var s := set word: nat | word < m && Scale(word, bound) == i;
    forall word: nat ensures word in s <==> lo <= word < hi {
      IndexInterval(word, bound, i);
    }
    assert s == Interval(lo, hi);
    IntervalSize(lo, hi);
  }
}
