/** Seeded orders that every client of the cluster agrees on: fixed seeds give
    fixed orders of ten nodes. */
module StableOrders {
  import Text
  import opened Sorting
  import opened Refresh
  import opened DeterministicRng
  import opened QueryPlans

  // The word and the index that state `v` gives, computed on naturals.
  lemma IndexIs(v: bv64, value: nat, quotient: nat, word: nat, n: nat, i: nat)
    requires v as nat == value && value * MULTIPLIER == TWO_TO_THE_64 * quotient + word && word < TWO_TO_THE_64
    requires TWO_TO_THE_64 * i <= word * n < TWO_TO_THE_64 * i + TWO_TO_THE_64
    ensures Scale(Output(v), n) == i
  {
    Remainder(value * MULTIPLIER, TWO_TO_THE_64, quotient, word);
    Quotient(word * n, TWO_TO_THE_64, i, word * n - TWO_TO_THE_64 * i);
  }

  // One draw, on the words themselves.
  lemma Draw(v: bv64, remaining: seq<Url>, w: bv64, i: nat, left: seq<Url>)
    requires 0 < |remaining| < TWO_TO_THE_64 && i < |remaining|
    requires NextState(v) == w && Scale(Output(w), |remaining|) == i && left == SwapRemove(remaining, i)
    ensures |left| == |remaining| - 1
    ensures ShuffleFrom(v, remaining) == [remaining[i]] + ShuffleFrom(w, left)
  {
    ShuffleStep(v, remaining, i, left);
  }

  lemma StatesOfFortyTwo()
    ensures NextState(0x2a) == 0x54000020
    ensures NextState(0x54000020) == 0xa80a8001041022
    ensures NextState(0xa80a8001041022) == 0x1fa08005045006e
    ensures NextState(0x1fa08005045006e) == 0x405a97a0a712f12b
    ensures NextState(0x405a97a0a712f12b) == 0x53e4a303a98ce13e
    ensures NextState(0x53e4a303a98ce13e) == 0xc0d2f1a263e84ebf
  {
  }

  lemma IndicesOfFortyTwo()
    ensures Scale(Output(0x54000020), 10) == 3
    ensures Scale(Output(0xa80a8001041022), 9) == 7
    ensures Scale(Output(0x1fa08005045006e), 8) == 6
    ensures Scale(Output(0x405a97a0a712f12b), 7) == 6
    ensures Scale(Output(0x53e4a303a98ce13e), 6) == 4
    ensures Scale(Output(0xc0d2f1a263e84ebf), 5) == 4
  {
    IndexIs(0x54000020, 0x54000020, 0xc3af444, 0x56ce4ab7719ba3a0, 10, 3);
    IndexIs(0xa80a8001041022, 0xa80a8001041022, 0x18776fde09f298, 0xc841eb53ebbb2dda, 9, 7);
    IndexIs(0x1fa08005045006e, 0x1fa08005045006e, 0x49ad6fa28b7000, 0xca466be0c9980276, 8, 6);
    IndexIs(0x405a97a0a712f12b, 0x405a97a0a712f12b, 0x95eadcff63f18ca, 0xf1acc7334a7b70df, 7, 6);
    IndexIs(0x53e4a303a98ce13e, 0x53e4a303a98ce13e, 0xc36f85501651d6c, 0xc3af4dd7fb900a06, 6, 4);
    IndexIs(0xc0d2f1a263e84ebf, 0xc0d2f1a263e84ebf, 0x1c132dfe1ad23d4d, 0xd5f30c2206dfcea3, 5, 4);
  }

  lemma SeedFortyTwo(a: Url, b: Url, c: Url, d: Url, e: Url, f: Url, g: Url, h: Url, i: Url, j: Url)
    ensures [d, h, g, i, e, f] <= ShuffleFrom(Seeded(42), [a, b, c, d, e, f, g, h, i, j])
  {
    StatesOfFortyTwo();
    IndicesOfFortyTwo();
    Draw(0x2a, [a, b, c, d, e, f, g, h, i, j], 0x54000020, 3, [a, b, c, j, e, f, g, h, i]);
    Draw(0x54000020, [a, b, c, j, e, f, g, h, i], 0xa80a8001041022, 7, [a, b, c, j, e, f, g, i]);
    Draw(0xa80a8001041022, [a, b, c, j, e, f, g, i], 0x1fa08005045006e, 6, [a, b, c, j, e, f, i]);
    Draw(0x1fa08005045006e, [a, b, c, j, e, f, i], 0x405a97a0a712f12b, 6, [a, b, c, j, e, f]);
    Draw(0x405a97a0a712f12b, [a, b, c, j, e, f], 0x53e4a303a98ce13e, 4, [a, b, c, j, f]);
    Draw(0x53e4a303a98ce13e, [a, b, c, j, f], 0xc0d2f1a263e84ebf, 4, [a, b, c, j]);
  }

  lemma StatesOfZero()
    ensures NextState(0x9e3779b97f4a7c15) == 0x3f721dffe39b342
    ensures NextState(0x3f721dffe39b342) == 0x5830920757d41153
    ensures NextState(0x5830920757d41153) == 0x44da53dec8eb16d8
    ensures NextState(0x44da53dec8eb16d8) == 0xb334115d4185b10d
    ensures NextState(0xb334115d4185b10d) == 0x8b97815f8aa18089
    ensures NextState(0x8b97815f8aa18089) == 0xc4a18a6a296864c6
  {
  }

  lemma IndicesOfZero()
    ensures Scale(Output(0x3f721dffe39b342), 10) == 0
    ensures Scale(Output(0x5830920757d41153), 9) == 2
    ensures Scale(Output(0x44da53dec8eb16d8), 8) == 5
    ensures Scale(Output(0xb334115d4185b10d), 7) == 3
    ensures Scale(Output(0x8b97815f8aa18089), 6) == 3
    ensures Scale(Output(0xc4a18a6a296864c6), 5) == 3
  {
    IndexIs(0x3f721dffe39b342, 0x3f721dffe39b342, 0x93cd4b4d9c7dc7, 0xd83b3e29a21487a, 10, 0);
    IndexIs(0x5830920757d41153, 0x5830920757d41153, 0xcd71e72c5ba8642, 0x54c44c79f1fe9d67, 9, 2);
    IndexIs(0x44da53dec8eb16d8, 0x44da53dec8eb16d8, 0xa065ebefb0ca1cf, 0xa845f342007a0e78, 8, 5);
    IndexIs(0xb334115d4185b10d, 0xb334115d4185b10d, 0x1a177ebe813efa00, 0x7d6e0b878a794779, 7, 3);
    IndexIs(0x8b97815f8aa18089, 0x8b97815f8aa18089, 0x14530ae4513829c3, 0x90d8d6e5a10dd485, 6, 3);
    IndexIs(0xc4a18a6a296864c6, 0xc4a18a6a296864c6, 0x1ca114653b074cff, 0x9de6cf0f6d5a586e, 5, 3);
  }

  lemma SeedZero(a: Url, b: Url, c: Url, d: Url, e: Url, f: Url, g: Url, h: Url, i: Url, j: Url)
    ensures [a, c, f, d, g, h] <= ShuffleFrom(Seeded(0), [a, b, c, d, e, f, g, h, i, j])
  {
    StatesOfZero();
    IndicesOfZero();
    Draw(0x9e3779b97f4a7c15, [a, b, c, d, e, f, g, h, i, j], 0x3f721dffe39b342, 0, [j, b, c, d, e, f, g, h, i]);
    Draw(0x3f721dffe39b342, [j, b, c, d, e, f, g, h, i], 0x5830920757d41153, 2, [j, b, i, d, e, f, g, h]);
    Draw(0x5830920757d41153, [j, b, i, d, e, f, g, h], 0x44da53dec8eb16d8, 5, [j, b, i, d, e, h, g]);
    Draw(0x44da53dec8eb16d8, [j, b, i, d, e, h, g], 0xb334115d4185b10d, 3, [j, b, i, g, e, h]);
    Draw(0xb334115d4185b10d, [j, b, i, g, e, h], 0x8b97815f8aa18089, 3, [j, b, i, h, e]);
    Draw(0x8b97815f8aa18089, [j, b, i, h, e], 0xc4a18a6a296864c6, 3, [j, b, i, e]);
  }

  lemma StatesOfMinusOne()
    ensures NextState(0xffffffffffffffff) == 0xfff0001ffe000000
    ensures NextState(0xfff0001ffe000000) == 0xc00000c7fffffbff
    ensures NextState(0xc00000c7fffffbff) == 0x4feb00c60ee01dfe
    ensures NextState(0x4feb00c60ee01dfe) == 0xa3eaff8581df01c0
    ensures NextState(0xa3eaff8581df01c0) == 0xf713cf0cfbfefe73
    ensures NextState(0xf713cf0cfbfefe73) == 0x970adca1d26ad7fa
  {
  }

  lemma IndicesOfMinusOne()
    ensures Scale(Output(0xfff0001ffe000000), 10) == 9
    ensures Scale(Output(0xc00000c7fffffbff), 9) == 5
    ensures Scale(Output(0x4feb00c60ee01dfe), 8) == 1
    ensures Scale(Output(0xa3eaff8581df01c0), 7) == 5
    ensures Scale(Output(0xf713cf0cfbfefe73), 6) == 2
    ensures Scale(Output(0x970adca1d26ad7fa), 5) == 4
  {
    IndexIs(0xfff0001ffe000000, 0xfff0001ffe000000, 0x2543a036aecbec8f, 0xf92cc9e5c6000000, 10, 9);
    IndexIs(0xc00000c7fffffbff, 0xc00000c7fffffbff, 0x1bf4778a1a38b6c6, 0x8ff484d8fd1eaee3, 9, 5);
    IndexIs(0x4feb00c60ee01dfe, 0x4feb00c60ee01dfe, 0xba2cdcd2f2c1e82, 0x346c95f3326fabc6, 8, 1);
    IndexIs(0xa3eaff8581df01c0, 0xa3eaff8581df01c0, 0x17ddc1de31427055, 0xc556cc9c37c5f2c0, 7, 5);
    IndexIs(0xf713cf0cfbfefe73, 0xf713cf0cfbfefe73, 0x23f9614ecf249bb3, 0x6c2d653f83101a07, 6, 2);
    IndexIs(0x970adca1d26ad7fa, 0x970adca1d26ad7fa, 0x15fdd81cf154f159, 0xdda70b4e56054952, 5, 4);
  }

  lemma SeedMinusOne(a: Url, b: Url, c: Url, d: Url, e: Url, f: Url, g: Url, h: Url, i: Url, j: Url)
    ensures [j, f, b, i, c, e] <= ShuffleFrom(Seeded(0xffff_ffff_ffff_ffff), [a, b, c, d, e, f, g, h, i, j])
  {
    StatesOfMinusOne();
    IndicesOfMinusOne();
    Draw(0xffffffffffffffff, [a, b, c, d, e, f, g, h, i, j], 0xfff0001ffe000000, 9, [a, b, c, d, e, f, g, h, i]);
    Draw(0xfff0001ffe000000, [a, b, c, d, e, f, g, h, i], 0xc00000c7fffffbff, 5, [a, b, c, d, e, i, g, h]);
    Draw(0xc00000c7fffffbff, [a, b, c, d, e, i, g, h], 0x4feb00c60ee01dfe, 1, [a, h, c, d, e, i, g]);
    Draw(0x4feb00c60ee01dfe, [a, h, c, d, e, i, g], 0xa3eaff8581df01c0, 5, [a, h, c, d, e, g]);
    Draw(0xa3eaff8581df01c0, [a, h, c, d, e, g], 0xf713cf0cfbfefe73, 2, [a, h, g, d, e]);
    Draw(0xf713cf0cfbfefe73, [a, h, g, d, e], 0x970adca1d26ad7fa, 4, [a, h, g, d]);
  }

  // ----- Ten nodes by name -----

  function Node(number: string): Url {
    "http://node" + number + ".example.com:8000/"
  }

  // In URL order, "node10" comes between "node1" and "node2".
  const TEN: seq<Url> := [Node("1"), Node("10"), Node("2"), Node("3"), Node("4"), Node("5"), Node("6"), Node("7"),
                          Node("8"), Node("9")]

  lemma NamesInOrder(m: string, n: string, k: nat)
    requires k < |m| && k < |n| && m[..k] == n[..k] && m[k] < n[k]
    ensures Text.Less(Node(m), Node(n))
  {
    var prefix := "http://node" + m[..k];
    assert Node(m) == prefix + (m[k..] + ".example.com:8000/") && Node(n) == prefix + (n[k..] + ".example.com:8000/");
    Text.DifferLess(Node(m), Node(n), |prefix|);
  }

  lemma OneBeforeTen()
    ensures Text.Less(Node("1"), Node("10"))
  {
    var prefix := "http://node1";
    assert Node("1") == prefix + ".example.com:8000/" && Node("10") == prefix + "0.example.com:8000/";
    Text.DifferLess(Node("1"), Node("10"), |prefix|);
  }

  function Number(i: nat): string
    requires i < 10
  {
    ["1", "10", "2", "3", "4", "5", "6", "7", "8", "9"][i]
  }

  lemma TenIsSorted()
    ensures Sorted(Text.AtMost, TEN) && |TEN| == 10
  {
    forall i, j | 0 <= i < j < 10 ensures Text.AtMost(TEN[i], TEN[j]) {
      assert TEN[i] == Node(Number(i)) && TEN[j] == Node(Number(j));
      if j == 1 {
        OneBeforeTen();
      } else {
        NamesInOrder(Number(i), Number(j), 0);
      }
    }
  }

  // However these ten nodes are published, seeds 42, 0 and -1 begin with these six.
  lemma StableOrdersOfTenNodes(live: seq<Url>)
    requires multiset(live) == multiset(TEN)
    ensures |live| == 10
    ensures [Node("3"), Node("7"), Node("6"), Node("8"), Node("4"), Node("5")] <= SeededOrder(live, 42)
    ensures [Node("1"), Node("2"), Node("5"), Node("3"), Node("6"), Node("7")] <= SeededOrder(live, 0)
    ensures [Node("9"), Node("5"), Node("10"), Node("8"), Node("2"), Node("4")]
         <= SeededOrder(live, 0xffff_ffff_ffff_ffff)
  {
    TenIsSorted();
    assert |multiset(live)| == |multiset(TEN)|;
    AtMostIsTotalOrder();
    SortedNodesMeaning(live);
    SortedUnique(Text.AtMost, SortedNodes(live), TEN);
    SeedFortyTwo(Node("1"), Node("10"), Node("2"), Node("3"), Node("4"), Node("5"), Node("6"), Node("7"), Node("8"),
                 Node("9"));
    SeedZero(Node("1"), Node("10"), Node("2"), Node("3"), Node("4"), Node("5"), Node("6"), Node("7"), Node("8"),
             Node("9"));
    SeedMinusOne(Node("1"), Node("10"), Node("2"), Node("3"), Node("4"), Node("5"), Node("6"), Node("7"), Node("8"),
                 Node("9"));
  }
}
