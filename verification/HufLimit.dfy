/**
  Two concrete trees of Huff0: counts for which the price rule of the height limiter decides, and counts for which
  the treatment of ties does.
 */
module HufLimit {
  import opened Bits
  import opened HufHeight
  import opened HufTree
  import opened HufBuild
  import opened HufCTable
  import opened HufDeep

  // ---------- ties ----------

  /** A node is taken before a leaf that is as frequent: here the tree gets three levels where two would do. */
  lemma {:induction false} NodeBeforeLeaf()
    ensures QueueLengths([2, 2, 1, 1]) == [1, 2, 3, 3]
  {
    hide Picks, Lengths;
    var a: seq<nat>, b: seq<nat>, c: seq<nat>, d: seq<nat> := [2, 2, 1, 1], [2, 2, 2], [2, 4], [6];
    LastLengths(d, 0);
    assert Split2([0], 0) == [1, 1] && Split2([1, 1], 1) == [1, 2, 2] && Split2([1, 2, 2], 2) == [1, 2, 3, 3];
    PicksStep(c, 1, d, 0);
    PicksStep(b, 2, c, 1);
    PicksStep(a, 4, b, 2);
  }

  /** One step of the construction, undone. */
  lemma {:induction false} PicksStep(c: seq<nat>, s: nat, c': seq<nat>, i: nat)
    requires 2 <= |c| && s <= |c| && i == Choice(c, s) && c' == Join2(c, i)
    ensures Lengths(Picks(c, s)) == Split2(Lengths(Picks(c', i)), i)
  {
    hide Choice, Split2;
    assert Picks(c, s)[1..] == Picks(c', i);
  }

  lemma {:induction false} LastLengths(c: seq<nat>, s: nat)
    requires |c| == 1 && s <= 1
    ensures Lengths(Picks(c, s)) == [0]
  {
  }

  // ---------- the price rule ----------

  lemma {:induction false} TotalCons(x: nat, d: seq<nat>)
    ensures Total([x] + d) == x + Total(d)
  {
    TotalConcat([x], d);
    assert [x][..0] == [] && Total([x]) == x;
  }

  lemma {:induction false} SteepCons(x: nat, d: seq<nat>, c: seq<nat>)
    requires Steep(d) && |d| > 0 && x > 0 && x + d[0] > Total(d) && c == [x] + d
    ensures Steep(c) && Total(c) == x + Total(d)
  {
    hide Total;
    TotalCons(x, d);
    TotalCons(d[0], d[1..]);
    assert d == [d[0]] + d[1..];
    forall i: nat | i < |c| ensures c[i] > 0 && (i + 2 <= |c| ==> c[i] > Total(c[i + 2..])) {
      if i == 0 {
        assert c[2..] == d[1..];
      } else {
        assert c[i] == d[i - 1];
        if i + 2 <= |c| { assert c[i + 2..] == d[i + 1..]; }
      }
    }
  }

  /** Ten counts whose tree has one leaf on every level. */
  ghost function TenCounts(): seq<nat> {
    [128, 64, 64, 30, 15, 7, 4, 3, 2, 1]
  }

  lemma {:induction false} TenSteep()
    ensures Steep(TenCounts())
  {
    hide Steep, Total;
    OneSteep();
    SteepCons(2, [1], [2, 1]);
    SteepCons(3, [2, 1], [3, 2, 1]);
    SteepCons(4, [3, 2, 1], [4, 3, 2, 1]);
    SteepCons(7, [4, 3, 2, 1], [7, 4, 3, 2, 1]);
    SteepCons(15, [7, 4, 3, 2, 1], [15, 7, 4, 3, 2, 1]);
    SteepCons(30, [15, 7, 4, 3, 2, 1], [30, 15, 7, 4, 3, 2, 1]);
    SteepCons(64, [30, 15, 7, 4, 3, 2, 1], [64, 30, 15, 7, 4, 3, 2, 1]);
    SteepCons(64, [64, 30, 15, 7, 4, 3, 2, 1], [64, 64, 30, 15, 7, 4, 3, 2, 1]);
    SteepCons(128, [64, 64, 30, 15, 7, 4, 3, 2, 1], TenCounts());
  }

  lemma {:induction false} OneSteep()
    ensures Steep([1]) && Total([1]) == 1
  {
    assert [1][..0] == [];
  }

  lemma {:induction false} TenTree()
    ensures QueueLengths(TenCounts()) == [1, 2, 3, 4, 5, 6, 7, 8, 9, 9]
  {
    hide Steep, Picks, Lengths, Greedy;
    var c := TenCounts();
    TenSteep();
    assert Queues(c, 10);
    PicksGreedy(c, 10);
    ChainOf(c, Picks(c, 10));
    var l := QueueLengths(c);
    assert l[0] == 1 && l[1] == 2 && l[2] == 3 && l[3] == 4 && l[4] == 5 && l[5] == 6 && l[6] == 7 && l[7] == 8 && l[8] == 9;
  }

  /** The weight of an appended leaf. */
  lemma {:induction false} KraftSnoc(h: seq<nat>, x: nat, M: nat)
    ensures Kraft(h + [x], M) == Kraft(h, M) + Weight(x, M)
  {
    assert (h + [x])[..|h|] == h;
  }

  lemma {:induction false} FiveWeights()
    ensures Weight(1, 5) == 16 && Weight(2, 5) == 8 && Weight(3, 5) == 4 && Weight(4, 5) == 2 && Weight(5, 5) == 1 && Pow2(5) == 32
  {
    SmallPowers();
    assert Pow2(0) == 1 && Pow2(2) == 4;
    PowNext(4);
  }

  /** The weight of the leaves when the second one has `a` bits. */
  lemma {:induction false} TenKraft(a: nat, h: seq<nat>)
    requires h == [1, a, 3, 4, 5, 5, 5, 5, 5, 5]
    ensures Kraft(h, 5) == 28 + Weight(a, 5)
  {
    hide Kraft, Weight;
    FiveWeights();
    KraftSnoc([], 1, 5);
    KraftSnoc([1], a, 5);
    KraftSnoc([1, a], 3, 5);
    KraftSnoc([1, a, 3], 4, 5);
    KraftSnoc([1, a, 3, 4], 5, 5);
    KraftSnoc([1, a, 3, 4, 5], 5, 5);
    KraftSnoc([1, a, 3, 4, 5, 5], 5, 5);
    KraftSnoc([1, a, 3, 4, 5, 5, 5], 5, 5);
    KraftSnoc([1, a, 3, 4, 5, 5, 5, 5], 5, 5);
    KraftSnoc([1, a, 3, 4, 5, 5, 5, 5, 5], 5, 5);
    NoKraft();
    assert [] + [1] == [1] && [1] + [a] == [1, a] && [1, a] + [3] == [1, a, 3] && [1, a, 3] + [4] == [1, a, 3, 4];
    assert [1, a, 3, 4] + [5] == [1, a, 3, 4, 5] && [1, a, 3, 4, 5] + [5] == [1, a, 3, 4, 5, 5];
    assert [1, a, 3, 4, 5, 5] + [5] == [1, a, 3, 4, 5, 5, 5] && [1, a, 3, 4, 5, 5, 5] + [5] == [1, a, 3, 4, 5, 5, 5, 5];
    assert [1, a, 3, 4, 5, 5, 5, 5] + [5] == [1, a, 3, 4, 5, 5, 5, 5, 5] && [1, a, 3, 4, 5, 5, 5, 5, 5] + [5] == h;
  }

  lemma {:induction false} NoKraft()
    ensures Kraft([], 5) == 0
  {
  }

  /** With a limit of 5 bits there are four units to repay; the leaf of two bits does it alone, at half the price of two others. */
  lemma {:induction false} TenLimited()
    ensures LimitedLengths(TenCounts(), 5) == [1, 3, 3, 4, 5, 5, 5, 5, 5, 5]
  {
    hide Kraft, Weight, Pow2, QueueLengths, HighBit, LastAt, UsedFrom, StopRank, Returned, Repaid;
    var c, l, cut: seq<nat>, paid: seq<nat> := TenCounts(), QueueLengths(TenCounts()), [1, 2, 3, 4, 5, 5, 5, 5, 5, 5], [1, 3, 3, 4, 5, 5, 5, 5, 5, 5];
    TenTree();
    FiveWeights();
    assert Truncated(l, 5) == cut;
    TenKraft(2, cut);
    TenKraft(3, paid);
    RankThree(c, cut);
    PaidOnce(c, cut, paid);
    NoneReturned(paid, 5);
  }

  lemma {:induction false} RankThree(c: seq<nat>, cut: seq<nat>)
    requires c == TenCounts() && cut == [1, 2, 3, 4, 5, 5, 5, 5, 5, 5]
    ensures PayingRank(c, cut, 5, 4) == 3 && LastAt(cut, 5, 3) == 1
  {
    hide LastAt, Pow2;
    SmallPowers();
    FourBits();
    assert LastAt(cut, 5, 3) == 1 by { assert cut[1] + 3 == 5; }
    assert LastAt(cut, 5, 2) == 2 by { assert cut[2] + 2 == 5; }
    assert Worth(c, cut, 5, 3);
  }

  lemma {:induction false} FourBits()
    ensures HighBit(4) == 2
  {
    hide HighBit;
    assert Pow2(2) == 4;
    HighBitUnique(4, 2);
  }

  lemma {:induction false} PaidOnce(c: seq<nat>, cut: seq<nat>, paid: seq<nat>)
    requires |c| == |cut| <= NO_SYMBOL && PayingRank(c, cut, 5, 4) == 3 && LastAt(cut, 5, 3) == 1 < |cut|
    requires paid == cut[1 := cut[1] + 1]
    ensures Repaid(c, cut, 5, 4) == paid
  {
    hide LastAt, PayingRank;
    assert Pow2(2) == 4;
    RepaidDone(c, paid, 5, 0);
  }
}
