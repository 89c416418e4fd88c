/**
  A source for which the height limiter of Huff0 overflows: counts that grow like the Fibonacci numbers lead
  to a tree with one leaf on every level.
 */
module HufDeep {
  import opened Bits
  import opened HufHeight
  import opened HufTree
  import opened HufSort
  import opened HufBuild
  import opened HufCTable

  // ---------- steep counts ----------

  /** Every count is larger than all counts after the next one together. */
  ghost predicate Steep(c: seq<nat>) {
    forall i: nat {:trigger c[i]} | i < |c| :: c[i] > 0 && (i + 2 <= |c| ==> c[i] > Total(c[i + 2..]))
  }

  /** One leaf on every level, and two on the last. */
  ghost predicate OnePerLevel(l: seq<nat>) {
    |l| > 0 && l[|l| - 1] == |l| - 1 && forall k: nat {:trigger l[k]} | k < |l| - 1 :: l[k] == k + 1
  }

  lemma {:induction false} TotalHas(c: seq<nat>, i: nat)
    requires i < |c|
    ensures c[i] <= Total(c)
  {
    if i < |c| - 1 { TotalHas(c[..|c| - 1], i); }
  }

  /** Only the last two can be joined. */
  lemma {:induction false} LastTwo(c: seq<nat>, i: nat)
    requires Steep(c) && TwoSmallest(c, i)
    ensures i == |c| - 2
  {
    hide Steep;
    if i < |c| - 2 { LargerThanLast(c, i); }
  }

  lemma {:induction false} LargerThanLast(c: seq<nat>, i: nat)
    requires Steep(c) && i + 2 < |c|
    ensures c[i] > c[|c| - 1]
  {
    var rest := c[i + 2..];
    TotalHas(rest, |rest| - 1);
  }

  lemma {:induction false} SteepJoin(c: seq<nat>)
    requires Steep(c) && 2 <= |c|
    ensures Steep(Join2(c, |c| - 2))
  {
    var n: nat := |c| - 2;
    var c' := Join2(c, n);
    assert c' == c[..n] + [c[n] + c[n + 1]];
    forall i: nat | i < |c'| ensures c'[i] > 0 && (i + 2 <= |c'| ==> c'[i] > Total(c'[i + 2..])) {
      if i + 2 < |c'| {
        assert c'[i + 2..] == Join2(c[i + 2..], n - (i + 2));
        TotalJoin(c[i + 2..], n - (i + 2));
        assert c[i] == c'[i];
      } else if i + 2 == |c'| {
        assert c'[i + 2..] == [];
        assert c[i] > 0 && c'[i] == c[i];
      } else {
        assert c[n] > 0;
      }
    }
  }

  /** Steep counts lead to a chain. */
  lemma {:induction false} ChainOf(c: seq<nat>, picks: seq<nat>)
    requires Greedy(c, picks) && Steep(c) && forall k | 0 <= k < |picks| :: picks[k] < |picks| - k
    ensures OnePerLevel(Lengths(picks)) && |Lengths(picks)| == |c|
    decreases |picks|
  {
    if |picks| > 0 {
      LastTwo(c, picks[0]);
      SteepJoin(c);
      ChainOf(Join2(c, picks[0]), picks[1..]);
    }
  }

  // ---------- what the limiter adds up ----------

  lemma {:induction false} CostAtLeast(l: seq<nat>, M: nat, D: nat, n: nat)
    requires n <= |l| && M < D && forall k: nat | n <= k < |l| :: M < l[k] <= D
    ensures CutCost(l, M, D, n) >= Shl(|l| - n, D - M - 1)
    decreases |l| - n
  {
    hide Shl, Pow2;
    if n < |l| {
      CostAtLeast(l, M, D, n + 1);
      ShlAdd(|l| - n - 1, 1, D - M - 1);
      ShlOne(D - M - 1);
      assert M < l[n] <= D;
      Pow2Mono(D - l[n], D - M - 1);
      PowNext(D - M - 1);
    } else {
      ShlZero(D - M - 1);
    }
  }

  lemma {:induction false} ChainCost(l: seq<nat>, M: nat)
    requires OnePerLevel(l) && |l| >= 40 && M <= 11
    ensures !CostInInt(l, M)
  {
    hide Shl, Pow2, CutCost;
    var D: nat := |l| - 1;
    forall k: nat | M <= k < |l| ensures M < l[k] <= D { assert k < |l| - 1 ==> l[k] == k + 1; }
    CostAtLeast(l, M, D, M);
    CutCostGrows(l, M, D, M);
    ShlMono(16, |l| - M, D - M - 1);
    SixteenShifted(D - M - 1);
  }

  lemma {:induction false} SixteenShifted(n: nat)
    requires n >= 27
    ensures Shl(16, n) >= 0x8000_0000
  {
    hide Shl, Pow2;
    SmallPowers();
    Pow2IsShl(4, n);
    Pow2Mono(31, n + 4);
    LargePowers();
    PowNext(30);
  }

  // ---------- Fibonacci counts ----------

  /** The first `n` Fibonacci numbers 1, 2, 3, 5, ..., the largest first. */
  function Fibs(n: nat): (c: seq<nat>)
    ensures |c| == n
  {
    seq(n, k requires 0 <= k < n => Fib(n - 1 - k))
  }

  lemma {:induction false} FibsAt(n: nat, k: nat)
    requires k < n
    ensures Fibs(n)[k] == Fib(n - 1 - k) > 0
  {
    hide Fib;
  }

  lemma {:induction false} FibTotal(n: nat)
    ensures Total(Fibs(n)) + 2 == Fib(n + 1)
  {
    hide Total;
    TotalNone();
    if n > 0 {
      FibTotal(n - 1);
      assert Fibs(n) == [Fib(n - 1)] + Fibs(n - 1);
      TotalConcat([Fib(n - 1)], Fibs(n - 1));
      TotalOne(Fib(n - 1));
    } else {
      assert Fibs(0) == [];
    }
  }

  lemma {:induction false} TotalNone()
    ensures Total([]) == 0
  {
  }

  lemma {:induction false} TotalOne(x: nat)
    ensures Total([x]) == x
  {
    assert [x][..0] == [];
  }

  lemma {:induction false} FibsSteep(n: nat)
    ensures Steep(Fibs(n))
  {
    hide Fib, Total;
    forall i: nat | i < n ensures Fibs(n)[i] > 0 && (i + 2 <= n ==> Fibs(n)[i] > Total(Fibs(n)[i + 2..])) {
      FibsAt(n, i);
      if i + 2 <= n {
        assert Fibs(n)[i + 2..] == Fibs(n - i - 2);
        FibTotal(n - i - 2);
      }
    }
  }

  lemma {:induction false} FibStrict(a: nat, b: nat)
    requires a < b
    ensures Fib(a) < Fib(b)
  {
    if a + 1 < b { FibStrict(a, b - 1); }
  }

  lemma {:induction false} InOrder(bytes: seq<nat>, n: nat, k: nat)
    requires k < n <= |bytes| && forall j | 0 <= j < n :: bytes[j] < n
    requires forall i, j | 0 <= i < j < n :: bytes[i] < bytes[j]
    ensures bytes[k] == k
  {
    AtLeastPlace(bytes, n, k);
    AtMostPlace(bytes, n, k);
  }

  lemma {:induction false} AtLeastPlace(bytes: seq<nat>, n: nat, k: nat)
    requires k < n <= |bytes| && forall i, j | 0 <= i < j < n :: bytes[i] < bytes[j]
    ensures bytes[k] >= k
  {
    if k > 0 { AtLeastPlace(bytes, n, k - 1); }
  }

  lemma {:induction false} AtMostPlace(bytes: seq<nat>, n: nat, k: nat)
    requires k < n <= |bytes| && (forall j | 0 <= j < n :: bytes[j] < n) && forall i, j | 0 <= i < j < n :: bytes[i] < bytes[j]
    ensures bytes[k] <= k
    decreases n - k
  {
    if k < n - 1 { AtMostPlace(bytes, n, k + 1); }
  }

  /** Different counts can be sorted in one way only. */
  lemma {:induction false} FibsSorted(bytes: seq<nat>, sorted: seq<nat>, n: nat)
    requires SortedTable(bytes, sorted, Fibs(n))
    ensures n <= |sorted| && sorted[..n] == Fibs(n)
  {
    hide Placed, Fib;
    var count := Fibs(n);
    forall i, j | 0 <= i < j < n ensures bytes[i] < bytes[j] {
      assert count[bytes[i]] >= count[bytes[j]] && bytes[i] != bytes[j];
      if bytes[j] < bytes[i] { FibStrict(n - 1 - bytes[i], n - 1 - bytes[j]); }
    }
    forall k | 0 <= k < n ensures sorted[k] == count[k] { InOrder(bytes, n, k); }
  }

  /**
    40 symbols that occur 1, 2, 3, 5, ... times: with a limit of at most 11, whatever tree is built for them, the
    cost that HUF_setMaxHeight adds up does not fit an int.
   */
  lemma {:induction false} LimiterOverflows(tree: seq<nat>, maxNbBits: nat)
    requires TreeOf(Fibs(40), tree) && maxNbBits <= 11
    ensures !CostInInt(tree, maxNbBits)
  {
    hide Fib, Fibs, SortedTable, Greedy, Lengths, OnePerLevel, CostInInt, Steep;
    var bytes: seq<nat>, sorted: seq<nat> :| SortedTable(bytes, sorted, Fibs(40)) && TreeOfSorted(sorted, 40, tree);
    FibsSorted(bytes, sorted, 40);
    FibsAt(40, 39);
    assert sorted[39] == sorted[..40][39];
    assert sorted[..|tree|] == Fibs(40);
    var picks: seq<nat> :| Greedy(Fibs(40), picks) && (forall k | 0 <= k < |picks| :: picks[k] < |picks| - k) && tree == Lengths(picks);
    FibsSteep(40);
    ChainOf(Fibs(40), picks);
    ChainCost(tree, maxNbBits);
  }

  /** The counts are within what the original takes. */
  lemma {:induction false} FibsAccepted()
    ensures TwoUsed(Fibs(40)) && Total(Fibs(40)) == 433494435 < NOT_YET
  {
    hide Fib, Fibs, Total;
    FibTotal(40);
    FibNumbers();
    FibsAt(40, 0);
    FibsAt(40, 1);
  }

  lemma {:induction false} FibNumbers()
    ensures Fib(41) == 433494437
  {
    hide Fib;
    DeepTotal();
    FibNext(30);
    FibNext(31);
    FibNext(32);
    FibNext(33);
    FibNext(34);
    FibNext(35);
    FibNext(36);
    FibNext(37);
    FibNext(38);
    FibNext(39);
  }

  lemma {:induction false} FibNext(n: nat)
    ensures Fib(n + 2) == Fib(n + 1) + Fib(n)
  {
  }
}
