/**
  The height limiter of Huff0. A code is given by the lengths of its leaves, sorted so that they never
  decrease; it is complete when the weights 2^-length add up to 1.
 */
module HufHeight {
  import opened Bits

  const HUF_TABLELOG_MAX := 12
  const HUF_TABLELOG_DEFAULT := 11
  const HUF_SYMBOLVALUE_MAX := 255
  const NO_SYMBOL := 0xF0F0F0F0

  // ---------- complete codes ----------

  /** 2^(M-x), or nothing for a length above `M`. */
  function Weight(x: nat, M: nat): nat {
    if x <= M then Pow2(M - x) else 0
  }

  function Kraft(s: seq<nat>, M: nat): nat {
    if |s| == 0 then 0 else Kraft(s[..|s| - 1], M) + Weight(s[|s| - 1], M)
  }

  ghost predicate NonDecreasing(s: seq<nat>) {
    forall i, j | 0 <= i < j < |s| :: s[i] <= s[j]
  }

  ghost predicate AtMost(s: seq<nat>, M: nat) {
    forall i | 0 <= i < |s| :: s[i] <= M
  }

  /** Sorted lengths of a complete code of height at most `M`. */
  ghost predicate Complete(s: seq<nat>, M: nat) {
    NonDecreasing(s) && AtMost(s, M) && Kraft(s, M) == Pow2(M)
  }

  lemma {:induction false} KraftUpdate(s: seq<nat>, M: nat, i: nat, v: nat)
    requires i < |s|
    ensures Kraft(s[i := v], M) + Weight(s[i], M) == Kraft(s, M) + Weight(v, M)
  {
    var n := |s| - 1;
    if i < n {
      assert s[i := v][..n] == s[..n][i := v];
      KraftUpdate(s[..n], M, i, v);
    } else {
      assert s[i := v][..n] == s[..n];
    }
  }

  /** Leaves at depth `M`. */
  function Deepest(s: seq<nat>, M: nat): nat {
    if |s| == 0 then 0 else Deepest(s[..|s| - 1], M) + (if s[|s| - 1] == M then 1 else 0)
  }

  lemma {:induction false} DeepestUpdate(s: seq<nat>, M: nat, i: nat, v: nat)
    requires i < |s|
    ensures Deepest(s[i := v], M) + (if s[i] == M then 1 else 0) == Deepest(s, M) + (if v == M then 1 else 0)
  {
    var n := |s| - 1;
    if i < n {
      assert s[i := v][..n] == s[..n][i := v];
      DeepestUpdate(s[..n], M, i, v);
    } else {
      assert s[i := v][..n] == s[..n];
    }
  }

  lemma {:induction false} DeepestTail(s: seq<nat>, M: nat, n: nat)
    requires n <= |s| && forall i | n <= i < |s| :: s[i] == M
    ensures Deepest(s, M) >= |s| - n
  {
    if n < |s| { DeepestTail(s[..|s| - 1], M, n); }
  }

  lemma {:induction false} DeepestNone(s: seq<nat>, M: nat)
    requires Deepest(s, M) > 0
    ensures exists i :: 0 <= i < |s| && s[i] == M
  {
    if s[|s| - 1] != M {
      DeepestNone(s[..|s| - 1], M);
      var i :| 0 <= i < |s| - 1 && s[..|s| - 1][i] == M;
      assert s[i] == M;
    }
  }

  /** Some leaf is above depth `M` in a complete code with leaves below it and at most 2^M of them. */
  lemma {:induction false} SomeShort(s: seq<nat>, M: nat, D: nat)
    requires |s| > 0 && Complete(s, D) && s[|s| - 1] == D && M < D
    requires |s| <= Pow2(M)
    ensures s[0] < M
  {
    if s[0] >= M {
      var n := |s| - 1;
      forall i | 0 <= i < n ensures M <= s[..n][i] { assert s[0] <= s[i]; }
      KraftBelow(s[..n], M, D);
      Pow2IsShl(M, D - M);
      ShlMono(n + 1, Pow2(M), D - M);
      ShlAdd(n, 1, D - M);
      ShlOne(D - M);
    }
  }

  lemma {:induction false} KraftBelow(s: seq<nat>, M: nat, D: nat)
    requires M <= D && forall i | 0 <= i < |s| :: M <= s[i]
    ensures Kraft(s, D) <= Shl(|s|, D - M)
  {
    if |s| == 0 {
      ShlZero(D - M);
    } else {
      var n := |s| - 1;
      KraftBelow(s[..n], M, D);
      ShlAdd(n, 1, D - M);
      ShlOne(D - M);
      if s[n] <= D { Pow2Mono(D - s[n], D - M); }
    }
  }

  /** A code of height at most `M`, measured at depth `D`. */
  lemma {:induction false} KraftScale(s: seq<nat>, M: nat, D: nat)
    requires M <= D && AtMost(s, M)
    ensures Kraft(s, D) == Shl(Kraft(s, M), D - M)
  {
    if |s| == 0 {
      ShlZero(D - M);
    } else {
      var n := |s| - 1;
      assert AtMost(s[..n], M);
      KraftScale(s[..n], M, D);
      ShlAdd(Kraft(s[..n], M), Pow2(M - s[n]), D - M);
      Pow2IsShl(M - s[n], D - M);
    }
  }

  // ---------- the debt, and the leaves that can pay it back ----------

  /** Weight of the leaves that are not at depth `M`, in units of 2^b. */
  function Upper(s: seq<nat>, M: nat, b: nat): nat {
    if |s| == 0 then 0
    else Upper(s[..|s| - 1], M, b) + (if s[|s| - 1] + b <= M then Pow2(M - b - s[|s| - 1]) else 0)
  }

  lemma {:induction false} KraftParts(s: seq<nat>, M: nat, b: nat)
    requires b > 0
    requires forall i | 0 <= i < |s| :: s[i] == M || s[i] + b <= M
    ensures Kraft(s, M) == Deepest(s, M) + Shl(Upper(s, M, b), b)
  {
    if |s| == 0 {
      ShlZero(b);
    } else {
      var n := |s| - 1;
      KraftParts(s[..n], M, b);
      ShlAdd(Upper(s[..n], M, b), Upper(s, M, b) - Upper(s[..n], M, b), b);
      if s[n] == M {
        ShlZero(b);
        assert Weight(M, M) == Pow2(0) == 1;
      } else {
        Pow2IsShl(M - b - s[n], b);
      }
    }
  }

  /** After a repayment that overshoots, enough leaves of depth `M` remain to give the excess back. */
  lemma {:induction false} EnoughDeepest(s: seq<nat>, M: nat, b: nat, cost: nat)
    requires 0 < b <= M && cost <= Pow2(b - 1)
    requires forall i | 0 <= i < |s| :: s[i] == M || s[i] + b <= M
    requires Kraft(s, M) == Pow2(M) + cost && Deepest(s, M) > cost
    ensures Deepest(s, M) > Pow2(b - 1) - cost
  {
    KraftParts(s, M, b);
    Pow2IsShl(M - b, b);
    var k, p := Upper(s, M, b), Pow2(M - b);
    if k < p {
      ShlMono(k + 1, p, b);
      ShlAdd(k, 1, b);
      ShlOne(b);
    } else {
      ShlMono(p, k, b);
    }
  }

  // ---------- last leaf of every rank ----------

  /** `v` is the last leaf of length `M` - `r`, or NO_SYMBOL if there is none. */
  ghost predicate RankOk(h: seq<nat>, M: nat, r: nat, v: nat) {
    if v == NO_SYMBOL then forall i | 0 <= i < |h| :: h[i] + r != M
    else v < |h| && h[v] + r == M && forall i | v < i < |h| :: h[i] + r > M
  }

  /** rankLast; entry 0 is written but never read. */
  ghost predicate RanksOk(h: seq<nat>, M: nat, rankLast: seq<nat>) {
    && |rankLast| == HUF_TABLELOG_MAX + 2
    && (forall r: nat | 1 <= r < |rankLast| :: RankOk(h, M, r, rankLast[r]))
  }

  /** Lengthening by one bit the last leaf of rank `r`. */
  function Paid(h: seq<nat>, rankLast: seq<nat>, r: nat): seq<nat>
    requires r < |rankLast| && rankLast[r] < |h|
  {
    h[rankLast[r] := h[rankLast[r]] + 1]
  }

  function PaidRanks(h: seq<nat>, M: nat, rankLast: seq<nat>, r: nat): seq<nat>
    requires 1 <= r < |rankLast| && rankLast[r] < |h|
  {
    var p := rankLast[r];
    var filled := if rankLast[r - 1] == NO_SYMBOL then rankLast[r - 1 := p] else rankLast;
    if p == 0 || h[p - 1] + r != M then filled[r := NO_SYMBOL] else filled[r := p - 1]
  }

  lemma {:induction false} PayRanks(h: seq<nat>, M: nat, rankLast: seq<nat>, r: nat)
    requires |h| <= NO_SYMBOL && NonDecreasing(h) && AtMost(h, M) && RanksOk(h, M, rankLast)
    requires 1 <= r < |rankLast| && rankLast[r] != NO_SYMBOL
    ensures rankLast[r] < |h| && h[rankLast[r]] + r == M
    ensures var h' := Paid(h, rankLast, r);
            NonDecreasing(h') && AtMost(h', M) && RanksOk(h', M, PaidRanks(h, M, rankLast, r))
  {
    var p := rankLast[r];
    assert RankOk(h, M, r, p);
    var h', rl' := Paid(h, rankLast, r), PaidRanks(h, M, rankLast, r);
    forall q: nat | 1 <= q < |rl'| ensures RankOk(h', M, q, rl'[q]) {
      assert RankOk(h, M, q, rankLast[q]);
    }
  }

  // ---------- repaying the cost ----------

  /** The leaves are `cost` too heavy in total (too light if negative), in units of 2^-M. */
  ghost predicate Debt(h: seq<nat>, M: nat, rankLast: seq<nat>, cost: int, n: nat) {
    && 0 < |h| <= Pow2(M) <= NO_SYMBOL && M <= HUF_TABLELOG_MAX
    && NonDecreasing(h) && AtMost(h, M) && RanksOk(h, M, rankLast)
    && Kraft(h, M) == Pow2(M) + cost
    && Deepest(h, M) > cost && Deepest(h, M) > -cost
    && (cost < 0 ==> h[0] < M)
    && (cost > 0 || rankLast[1] == NO_SYMBOL ==> DeepAfter(h, M, n))
  }

  ghost predicate DeepAfter(h: seq<nat>, M: nat, n: nat) {
    n < |h| && forall i | n < i < |h| :: h[i] == M
  }

  /** The rank that repays: either it does not overshoot, or it is the smallest one in use. */
  ghost predicate GoodRank(rankLast: seq<nat>, cost: nat, r: nat) {
    && 1 <= r < |rankLast| && rankLast[r] != NO_SYMBOL
    && (Pow2(r - 1) <= cost || forall q | 1 <= q < r :: rankLast[q] == NO_SYMBOL)
  }

  lemma {:induction false} PayDebt(h: seq<nat>, M: nat, rankLast: seq<nat>, cost: nat, n: nat, r: nat)
    requires Debt(h, M, rankLast, cost, n) && cost > 0 && GoodRank(rankLast, cost, r)
    ensures rankLast[r] < |h|
    ensures Debt(Paid(h, rankLast, r), M, PaidRanks(h, M, rankLast, r), cost - Pow2(r - 1), n)
  {
    hide RanksOk, Kraft, Deepest, Weight, Pow2, RankOk;
    PayRanks(h, M, rankLast, r);
    PaidMeasure(h, M, rankLast, cost, r);
    PaidShape(h, M, rankLast, cost, n, r);
  }

  lemma {:induction false} PaidMeasure(h: seq<nat>, M: nat, rankLast: seq<nat>, cost: nat, r: nat)
    requires AtMost(h, M) && RanksOk(h, M, rankLast) && GoodRank(rankLast, cost, r) && cost > 0
    requires rankLast[r] < |h| && h[rankLast[r]] + r == M
    requires Kraft(h, M) == Pow2(M) + cost && Deepest(h, M) > cost
    ensures var h', cost' := Paid(h, rankLast, r), cost - Pow2(r - 1);
            Kraft(h', M) == Pow2(M) + cost' && Deepest(h', M) > cost' && Deepest(h', M) > -cost'
            && (r == 1 ==> cost' >= 0)
  {
    hide Kraft, Deepest, Weight, Pow2, RanksOk;
    var p := rankLast[r];
    PowZero();
    KraftUpdate(h, M, p, h[p] + 1);
    DeepestUpdate(h, M, p, h[p] + 1);
    RankWeight(h[p], M, r);
    if Pow2(r - 1) > cost {
      forall i | 0 <= i < |h| ensures h[i] == M || h[i] + r <= M { NotBetween(h, M, rankLast, r, i); }
      EnoughDeepest(h, M, r, cost);
    }
  }

  lemma {:induction false} RankWeight(x: nat, M: nat, r: nat)
    requires 1 <= r && x + r == M
    ensures Weight(x, M) == Pow2(r - 1) + Pow2(r - 1) && Weight(x + 1, M) == Pow2(r - 1)
  {
  }

  lemma {:induction false} PowZero()
    ensures Pow2(0) == 1
  {
  }

  lemma {:induction false} NotBetween(h: seq<nat>, M: nat, rankLast: seq<nat>, r: nat, i: nat)
    requires RanksOk(h, M, rankLast) && AtMost(h, M) && 1 <= r < |rankLast| && i < |h|
    requires forall q | 1 <= q < r :: rankLast[q] == NO_SYMBOL
    ensures h[i] == M || h[i] + r <= M
  {
    var q: nat := M - h[i];
    assert 1 <= q < |rankLast| ==> RankOk(h, M, q, rankLast[q]);
  }

  lemma {:induction false} PaidShape(h: seq<nat>, M: nat, rankLast: seq<nat>, cost: nat, n: nat, r: nat)
    requires DeepAfter(h, M, n) && NonDecreasing(h) && cost > 0
    requires 1 <= r < |rankLast| && rankLast[r] < |h| && h[rankLast[r]] + r == M
    ensures DeepAfter(Paid(h, rankLast, r), M, n)
    ensures r > 1 ==> Paid(h, rankLast, r)[0] < M
  {
    assert h[0] <= h[rankLast[r]];
  }

  /** Shortening by one bit the first leaf of depth `M` gives back one unit. */
  lemma {:induction false} GiveBack(h: seq<nat>, M: nat, rankLast: seq<nat>, cost: int, n: nat, q: nat)
    requires Debt(h, M, rankLast, cost, n) && cost < 0
    requires 0 < q < |h| && h[q] == M && h[q - 1] < M
    ensures Debt(h[q := M - 1], M, rankLast[1 := q], cost + 1, n)
  {
    KraftUpdate(h, M, q, M - 1);
    DeepestUpdate(h, M, q, M - 1);
    PowZero();
    assert Pow2(1) == 2 * Pow2(0);
    assert M > 0;
    var h', rl' := h[q := M - 1], rankLast[1 := q];
    assert NonDecreasing(h') && AtMost(h', M);
    assert RanksOk(h', M, rl') by {
      hide Kraft, Deepest, Pow2;
      forall r: nat | 1 <= r < |rl'| ensures RankOk(h', M, r, rl'[r]) {
        assert RankOk(h, M, r, rankLast[r]);
      }
    }
  }

  /** With a rank-1 leaf known, the leaf after it is the first one of depth `M`. */
  lemma {:induction false} AfterRankOne(h: seq<nat>, M: nat, rankLast: seq<nat>, cost: int, n: nat)
    requires Debt(h, M, rankLast, cost, n) && cost < 0
    ensures rankLast[1] != NO_SYMBOL ==>
              rankLast[1] + 1 < |h| && h[rankLast[1]] == M - 1 && h[rankLast[1] + 1] == M
    ensures exists i :: 0 <= i < |h| && h[i] == M
  {
    DeepestNone(h, M);
    assert RankOk(h, M, 1, rankLast[1]);
  }

  lemma {:induction false} DebtPaid(h: seq<nat>, M: nat, rankLast: seq<nat>, n: nat)
    requires Debt(h, M, rankLast, 0, n)
    ensures Complete(h, M) && h[|h| - 1] == M
  {
    DeepestNone(h, M);
  }

  // ---------- the limited code ----------

  /** The last leaf of length `M` - `r`, or NO_SYMBOL if there is none. */
  ghost function LastAt(h: seq<nat>, M: nat, r: nat): (v: nat)
    ensures v == NO_SYMBOL || v < |h|
    ensures v == NO_SYMBOL && |h| <= NO_SYMBOL ==> forall i | 0 <= i < |h| :: h[i] + r != M
    ensures v != NO_SYMBOL ==> h[v] + r == M && forall i | v < i < |h| :: h[i] + r != M
  {
    if |h| == 0 then NO_SYMBOL
    else if h[|h| - 1] + r == M then |h| - 1
    else
      assert forall i | 0 <= i < |h| - 1 :: h[..|h| - 1][i] == h[i];
      LastAt(h[..|h| - 1], M, r)
  }

  lemma {:induction false} RankIsLast(h: seq<nat>, M: nat, r: nat, v: nat)
    requires RankOk(h, M, r, v) && |h| <= NO_SYMBOL
    ensures v == LastAt(h, M, r)
  {
  }

  /**
    Lengthening the last leaf of rank `q` is worth it: rank `q` is in use, and the rank below, of which two leaves
    would have to be lengthened instead, is empty or its last leaf is at least half as frequent. The product is that
    of 32-bit numbers.
   */
  ghost predicate Worth(counts: seq<nat>, h: seq<nat>, M: nat, q: nat)
    requires |counts| == |h| <= NO_SYMBOL && q > 0
  {
    var high, low := LastAt(h, M, q), LastAt(h, M, q - 1);
    high != NO_SYMBOL && (low == NO_SYMBOL || counts[high] <= (2 * counts[low]) % 0x1_0000_0000)
  }

  /** The highest rank up to `r` that is worth it, or 1. */
  ghost function StopRank(counts: seq<nat>, h: seq<nat>, M: nat, r: nat): (stop: nat)
    requires |counts| == |h| <= NO_SYMBOL && r > 0
    ensures 1 <= stop <= r && (stop == 1 || Worth(counts, h, M, stop))
    ensures forall q | stop < q <= r :: !Worth(counts, h, M, q)
  {
    if r == 1 || Worth(counts, h, M, r) then r else StopRank(counts, h, M, r - 1)
  }

  /** The lowest rank from `r` on that is in use. */
  ghost function UsedFrom(h: seq<nat>, M: nat, r: nat): (u: nat)
    ensures r <= u && (u <= HUF_TABLELOG_MAX ==> LastAt(h, M, u) != NO_SYMBOL)
    ensures forall q | r <= q < u :: LastAt(h, M, q) == NO_SYMBOL
    decreases HUF_TABLELOG_MAX + 1 - r
  {
    if r > HUF_TABLELOG_MAX || LastAt(h, M, r) != NO_SYMBOL then r else UsedFrom(h, M, r + 1)
  }

  /** The rank that repays `cost` units: no more than the largest power of two in it, unless no smaller rank is in use. */
  ghost function PayingRank(counts: seq<nat>, h: seq<nat>, M: nat, cost: nat): (r: nat)
    requires |counts| == |h| <= NO_SYMBOL && cost > 0
    ensures r > 0
  {
    UsedFrom(h, M, StopRank(counts, h, M, HighBit(cost) + 1))
  }

  /**
    The price of a repayment. No higher rank would have been worth it. And the rank taken either is worth it, so that
    its last leaf is at most twice as frequent as that of the rank below, if there is one, or no lower rank is in use.
   */
  lemma {:induction false} PriceRule(counts: seq<nat>, h: seq<nat>, M: nat, cost: nat)
    requires |counts| == |h| <= NO_SYMBOL && cost > 0
    requires forall i | 0 <= i < |counts| :: counts[i] < 0x8000_0000
    ensures var r, top := PayingRank(counts, h, M, cost), HighBit(cost) + 1;
            && (forall q: nat | r < q <= top && LastAt(h, M, q) != NO_SYMBOL ::
                  LastAt(h, M, q - 1) != NO_SYMBOL && counts[LastAt(h, M, q)] > 2 * counts[LastAt(h, M, q - 1)])
            && ((forall q: nat | 1 <= q < r :: LastAt(h, M, q) == NO_SYMBOL)
                || (1 < r <= top && LastAt(h, M, r) != NO_SYMBOL
                    && (LastAt(h, M, r - 1) == NO_SYMBOL || counts[LastAt(h, M, r)] <= 2 * counts[LastAt(h, M, r - 1)])))
  {
    hide HighBit, LastAt, UsedFrom, StopRank;
    var top := HighBit(cost) + 1;
    var r, stop := PayingRank(counts, h, M, cost), StopRank(counts, h, M, top);
    forall q: nat | r < q <= top && LastAt(h, M, q) != NO_SYMBOL
      ensures LastAt(h, M, q - 1) != NO_SYMBOL && counts[LastAt(h, M, q)] > 2 * counts[LastAt(h, M, q - 1)] {
      assert !Worth(counts, h, M, q);
    }
  }

  /** The lengths after as many repayments as it takes. */
  ghost function Repaid(counts: seq<nat>, h: seq<nat>, M: nat, cost: int): (h': seq<nat>)
    requires |counts| == |h| <= NO_SYMBOL
    ensures |h'| == |h|
    decreases if cost > 0 then cost else 0
  {
    if cost <= 0 then h
    else
      var r := PayingRank(counts, h, M, cost);
      var p := LastAt(h, M, r);
      if p == NO_SYMBOL then h else Repaid(counts, h[p := h[p] + 1], M, cost - Pow2(r - 1))
  }

  /** The first leaf of length `M` from `i` on. */
  ghost function FirstDeep(h: seq<nat>, M: nat, i: nat): (f: nat)
    requires i <= |h|
    ensures i <= f <= |h| && (f < |h| ==> h[f] == M) && forall k | i <= k < f :: h[k] != M
    decreases |h| - i
  {
    if i == |h| || h[i] == M then i else FirstDeep(h, M, i + 1)
  }

  /** The first `n` leaves of length `M` shortened by one bit. */
  ghost function Returned(h: seq<nat>, M: nat, n: nat): (h': seq<nat>)
    ensures |h'| == |h|
  {
    seq(|h|, i requires 0 <= i < |h| =>
      if FirstDeep(h, M, 0) <= i < FirstDeep(h, M, 0) + n && M > 0 then M - 1 else h[i])
  }

  ghost function Truncated(l: seq<nat>, M: nat): (h: seq<nat>)
    ensures |h| == |l|
  {
    seq(|l|, i requires 0 <= i < |l| => if l[i] > M then M else l[i])
  }

  /**
    What HUF_setMaxHeight makes of a code that is too high: the leaves below the limit are cut, leaves are lengthened
    until the weights fit into 1, and then as many of the deepest leaves are shortened as there is weight left.
   */
  ghost function Limited(counts: seq<nat>, l: seq<nat>, M: nat): (h: seq<nat>)
    requires |counts| == |l| <= NO_SYMBOL
    ensures |h| == |l|
  {
    var paid := Repaid(counts, Truncated(l, M), M, Kraft(Truncated(l, M), M) - Pow2(M));
    if Kraft(paid, M) <= Pow2(M) then Returned(paid, M, Pow2(M) - Kraft(paid, M)) else paid
  }

  lemma {:induction false} TruncatedIs(h: seq<nat>, l: seq<nat>, M: nat, n: nat)
    requires |h| == |l| && n <= |h| && (forall i | 0 <= i < n :: h[i] == l[i] <= M) && forall i | n <= i < |h| :: h[i] == M <= l[i]
    ensures h == Truncated(l, M)
  {
  }

  /** Shortening the first leaf of length `M` is one more of them. */
  lemma {:induction false} ReturnNext(h: seq<nat>, h0: seq<nat>, M: nat, n: nat, q: nat)
    requires NonDecreasing(h0) && AtMost(h0, M) && h == Returned(h0, M, n) && M > 0
    requires NonDecreasing(h) && 0 < q < |h| && h[q] == M && h[q - 1] < M
    ensures h[q := M - 1] == Returned(h0, M, n + 1)
  {
    var f := FirstDeep(h0, M, 0);
    if f < |h0| { forall i | f <= i < |h0| ensures h0[i] == M { assert h0[f] <= h0[i]; } }
    assert f + n < |h| ==> h[f + n] == h0[f + n];
    assert h[q] == if f <= q < f + n then M - 1 else h0[q];
  }

  // ---------- HUF_setMaxHeight ----------

  /** What cutting a leaf of depth `x` to `M` costs, in units of 2^-D. */
  function CutShare(x: nat, M: nat, D: nat): nat {
    if M < x <= D && Pow2(D - x) <= Pow2(D - M) then Pow2(D - M) - Pow2(D - x) else 0
  }

  /** And all leaves from `n` on: what `totalCost` adds up to before it is renormalized. */
  function CutCost(l: seq<nat>, M: nat, D: nat, n: nat): nat
    requires n <= |l|
    decreases |l| - n
  {
    if n == |l| then 0 else CutShare(l[n], M, D) + CutCost(l, M, D, n + 1)
  }

  /** The int that HUF_setMaxHeight adds up the cost in does not overflow. */
  predicate CostInInt(l: seq<nat>, M: nat) {
    |l| > 0 && CutCost(l, M, l[|l| - 1], 0) < 0x8000_0000
  }

  lemma {:induction false} CutCostGrows(l: seq<nat>, M: nat, D: nat, n: nat)
    requires n <= |l|
    ensures CutCost(l, M, D, n) <= CutCost(l, M, D, 0)
    decreases n
  {
    hide CutShare;
    if n > 0 { CutCostGrows(l, M, D, n - 1); }
  }

  lemma {:induction false} CutCostBound(l: seq<nat>, M: nat, D: nat, n: nat)
    requires n <= |l|
    ensures CutCost(l, M, D, n) <= if M < D then Shl(|l| - n, D - M) else 0
    decreases |l| - n
  {
    hide Shl, Pow2;
    if n < |l| {
      CutCostBound(l, M, D, n + 1);
      if M < D {
        ShlAdd(|l| - n - 1, 1, D - M);
        ShlOne(D - M);
      }
    }
  }

  /** State of the truncation loop: leaves after `n` are cut to `M`, which adds `cost` units of 2^-D. */
  ghost predicate Cut(h: seq<nat>, h0: seq<nat>, M: nat, D: nat, cost: nat, n: nat) {
    && M < D && |h| == |h0| && n < |h|
    && (forall i | 0 <= i <= n :: h[i] == h0[i])
    && DeepAfter(h, M, n) && (forall i | n < i < |h| :: h0[i] > M)
    && Kraft(h, D) == Pow2(D) + cost
    && cost + (|h| - 1 - n) <= Shl(|h| - 1 - n, D - M) && cost == CutCost(h0, M, D, n + 1)
  }

  /** Before anything is cut. */
  lemma {:induction false} CutNothing(h0: seq<nat>, M: nat, D: nat)
    requires |h0| > 0 && M < D && Kraft(h0, D) == Pow2(D)
    ensures Cut(h0, h0, M, D, 0, |h0| - 1)
  {
    hide Kraft, Pow2;
    ShlZero(D - M);
  }

  lemma {:induction false} CutNext(h: seq<nat>, h0: seq<nat>, M: nat, D: nat, cost: nat, n: nat)
    requires M < D && Complete(h0, D) && h0[0] < M && Cut(h, h0, M, D, cost, n)
    requires n < |h| && h[n] > M
    ensures n > 0 && h[n] <= D && Pow2(D - h[n]) <= Pow2(D - M)
    ensures Cut(h[n := M], h0, M, D, cost + Pow2(D - M) - Pow2(D - h[n]), n - 1)
  {
    hide Kraft, Pow2, Shl;
    KraftUpdate(h, D, n, M);
    Pow2Mono(D - h[n], D - M);
    ShlAdd(|h| - 1 - n, 1, D - M);
    ShlOne(D - M);
  }

  /** The first two loops: every leaf below depth `M` is cut to `M`; `n` ends at the last leaf above it. */
  method Truncate(nbBits: array<nat>, M: nat) returns (totalCost: nat, n: nat)
    requires nbBits.Length > 0
    requires var D := nbBits[nbBits.Length - 1];
             Complete(nbBits[..], D) && M < D && CostInInt(nbBits[..], M)
    requires nbBits[0] < M
    modifies nbBits
    ensures nbBits[..] == Truncated(old(nbBits[..]), M)
    ensures NonDecreasing(nbBits[..]) && AtMost(nbBits[..], M)
    ensures Kraft(nbBits[..], M) == Pow2(M) + totalCost
    ensures Deepest(nbBits[..], M) > totalCost
    ensures DeepAfter(nbBits[..], M, n) && nbBits[n] < M && nbBits[0] < M
  {
    hide Cut, Pow2, Shl, Shr, Kraft, CutCost, Deepest, Truncated, CostInInt, NonDecreasing;
    ghost var h0 := nbBits[..];
    var largestBits := nbBits[nbBits.Length - 1];
    var baseCost := Pow2(largestBits - M);
    totalCost, n := 0, nbBits.Length - 1;
    CutNothing(h0, M, largestBits);
    while nbBits[n] > M
      invariant n < nbBits.Length && Cut(nbBits[..], h0, M, largestBits, totalCost, n)
      invariant n < nbBits.Length - 1 || nbBits[n] > M
      invariant totalCost < 0x8000_0000
      decreases n
    {
      ghost var h := nbBits[..];
      CutNext(h, h0, M, largestBits, totalCost, n);
      totalCost := totalCost + (baseCost - Pow2(largestBits - nbBits[n]));
      nbBits[n] := M;
      assert nbBits[..] == h[n := M];
      n := n - 1;
      CutInInt(nbBits[..], h0, M, totalCost, n);
    }
    CutDone(nbBits[..], h0, M, largestBits, totalCost, n);
    CutDeep(nbBits[..], h0, M, largestBits, totalCost, n);
    totalCost := Shr(totalCost, largestBits - M);
    while nbBits[n] == M
      invariant DeepAfter(nbBits[..], M, n)
      decreases n
    {
      n := n - 1;
    }
  }

  lemma {:induction false} CutDeep(h: seq<nat>, h0: seq<nat>, M: nat, D: nat, cost: nat, n: nat)
    requires Cut(h, h0, M, D, cost, n)
    ensures DeepAfter(h, M, n) && M < D
  {
    hide Kraft, Pow2, Shl, CutCost;
  }

  lemma {:induction false} CutInInt(h: seq<nat>, h0: seq<nat>, M: nat, cost: nat, n: nat)
    requires |h0| > 0 && Cut(h, h0, M, h0[|h0| - 1], cost, n) && CostInInt(h0, M)
    ensures cost < 0x8000_0000
  {
    hide CutCost;
    CutCostGrows(h0, M, h0[|h0| - 1], n + 1);
  }

  lemma {:induction false} CutShape(h: seq<nat>, h0: seq<nat>, M: nat, D: nat, cost: nat, n: nat)
    requires Cut(h, h0, M, D, cost, n) && Complete(h0, D) && h0[0] < M && h[n] <= M
    ensures NonDecreasing(h) && AtMost(h, M) && h[0] < M && h == Truncated(h0, M)
    ensures forall i | n + 1 <= i < |h| :: h[i] == M
  {
    hide Kraft, CutCost, Shl, Pow2, Truncated;
    TruncatedIs(h, h0, M, n + 1);
  }

  /** The cost is a whole number of units of 2^-M, less than the number of leaves cut. */
  lemma {:induction false} CutDone(h: seq<nat>, h0: seq<nat>, M: nat, D: nat, cost: nat, n: nat)
    requires Cut(h, h0, M, D, cost, n) && Complete(h0, D) && h0[0] < M
    requires h[n] <= M && n < |h| - 1
    ensures NonDecreasing(h) && AtMost(h, M) && h[0] < M && h == Truncated(h0, M)
    ensures Kraft(h, M) == Pow2(M) + Shr(cost, D - M)
    ensures Deepest(h, M) > Shr(cost, D - M)
  {
    hide CutCost, NonDecreasing, AtMost, Truncated, Deepest, Kraft, Shr, DeepAfter;
    var d, m := D - M, |h| - 1 - n;
    CutShape(h, h0, M, D, cost, n);
    KraftScale(h, M, D);
    Pow2IsShl(M, d);
    if Kraft(h, M) < Pow2(M) {
      ShlMono(Kraft(h, M) + 1, Pow2(M), d);
      ShlAdd(Kraft(h, M), 1, d);
      ShlOne(d);
      assert false;
    }
    var t := Kraft(h, M) - Pow2(M);
    ShlAdd(Pow2(M), t, d);
    ShrShl(t, d, d);
    ShiftNone(t);
    if t >= m { ShlMono(m, t, d); }
    DeepestTail(h, M, n + 1);
  }

  /** `v` is the last leaf of length `M` - `r` among [from, n], or NO_SYMBOL if there is none. */
  ghost predicate RankWithin(h: seq<nat>, M: nat, r: nat, v: nat, from: nat, n: nat)
    requires n < |h|
  {
    if v == NO_SYMBOL then forall i | from <= i <= n :: h[i] + r != M
    else from <= v <= n && h[v] + r == M && forall i | v < i <= n :: h[i] + r != M
  }

  /** Position of the last leaf of every rank. */
  method FindRankLast(nbBits: array<nat>, M: nat, n: nat, rankLast: array<nat>)
    requires NonDecreasing(nbBits[..]) && n < nbBits.Length <= NO_SYMBOL && nbBits[n] < M <= HUF_TABLELOG_MAX
    requires DeepAfter(nbBits[..], M, n)
    requires rankLast != nbBits && rankLast.Length == HUF_TABLELOG_MAX + 2
    requires forall r | 0 <= r < rankLast.Length :: rankLast[r] == NO_SYMBOL
    modifies rankLast
    ensures RanksOk(nbBits[..], M, rankLast[..])
  {
    var currentNbBits := M;
    for pos := n + 1 downto 0
      invariant currentNbBits == if pos <= n then nbBits[pos] else M
      invariant forall r: nat | 1 <= r < rankLast.Length :: RankWithin(nbBits[..], M, r, rankLast[r], pos, n)
    {
      if nbBits[pos] < currentNbBits {
        currentNbBits := nbBits[pos];
        rankLast[M - currentNbBits] := pos;
      }
    }
    forall r: nat | 1 <= r < rankLast.Length ensures RankOk(nbBits[..], M, r, rankLast[..][r]) {
      RankFound(nbBits[..], M, r, rankLast[r], n);
    }
  }

  lemma {:induction false} RankFound(h: seq<nat>, M: nat, r: nat, v: nat, n: nat)
    requires NonDecreasing(h) && n < |h| <= NO_SYMBOL && DeepAfter(h, M, n) && r > 0 && RankWithin(h, M, r, v, 0, n)
    ensures RankOk(h, M, r, v)
  {
  }

  lemma {:induction false} DeepestBound(s: seq<nat>, M: nat)
    ensures Deepest(s, M) <= |s|
    ensures Deepest(s, M) == |s| ==> Kraft(s, M) == |s|
  {
    if |s| > 0 {
      DeepestBound(s[..|s| - 1], M);
      PowZero();
    }
  }

  /** While there is a cost, some rank other than 0 is in use, and the search starts inside the table. */
  lemma {:induction false} SomeRank(h: seq<nat>, M: nat, rankLast: seq<nat>, cost: nat, n: nat) returns (top: nat)
    requires Debt(h, M, rankLast, cost, n) && cost > 0
    ensures HighBit(cost) < M
    ensures 1 <= top <= M <= HUF_TABLELOG_MAX && HUF_TABLELOG_MAX + 2 == |rankLast| && rankLast[top] != NO_SYMBOL
    ensures forall r | 1 <= r < |rankLast| && rankLast[r] != NO_SYMBOL :: rankLast[r] < |h|
  {
    forall r: nat | 1 <= r < |rankLast| && rankLast[r] != NO_SYMBOL ensures rankLast[r] < |h| {
      assert RankOk(h, M, r, rankLast[r]);
    }
    DeepestBound(h, M);
    HighBitBelow(cost, M);
    if h[0] == M { DeepestTail(h, M, 0); }
    top := M - h[0];
    assert RankOk(h, M, top, rankLast[top]);
  }

  /** The table of last leaves, but for its entry 0, which is not read. */
  lemma {:induction false} LastRanks(h: seq<nat>, M: nat, rankLast: seq<nat>, cost: nat, n: nat)
    requires Debt(h, M, rankLast, cost, n)
    ensures |h| <= NO_SYMBOL && |rankLast| == HUF_TABLELOG_MAX + 2
    ensures forall r: nat {:trigger rankLast[r]} | 1 <= r < |rankLast| :: rankLast[r] == LastAt(h, M, r)
  {
    hide Kraft, Deepest, Pow2, LastAt;
    forall r: nat | 1 <= r < |rankLast| ensures rankLast[r] == LastAt(h, M, r) {
      assert RankOk(h, M, r, rankLast[r]);
      RankIsLast(h, M, r, rankLast[r]);
    }
  }

  /** The search downwards from the largest power of two in the cost, for a rank that is worth it. */
  method FindStop(counts: seq<nat>, rankLast: array<nat>, start: nat, ghost h: seq<nat>, ghost M: nat) returns (stop: nat)
    requires |counts| == |h| <= NO_SYMBOL && 1 <= start < rankLast.Length
    requires forall r: nat {:trigger rankLast[r]} | 1 <= r < rankLast.Length :: rankLast[r] == LastAt(h, M, r)
    ensures stop == StopRank(counts, h, M, start)
  {
    hide LastAt;
    stop := start;
    while stop > 1
      invariant 1 <= stop <= start && StopRank(counts, h, M, start) == StopRank(counts, h, M, stop)
      decreases stop
    {
      var highPos := rankLast[stop];
      var lowPos := rankLast[stop - 1];
      if highPos != NO_SYMBOL {
        if lowPos == NO_SYMBOL { break; }
        var highTotal := counts[highPos];
        var lowTotal := 2 * counts[lowPos] % 0x1_0000_0000;
        if highTotal <= lowTotal { break; }
      }
      stop := stop - 1;
    }
  }

  /** The rank whose last leaf repays next. */
  method ChooseRank(counts: seq<nat>, rankLast: array<nat>, totalCost: nat, ghost h: seq<nat>, ghost M: nat, ghost n: nat)
    returns (nBitsToDecrease: nat)
    requires |counts| == |h| && Debt(h, M, rankLast[..], totalCost, n) && totalCost > 0
    ensures GoodRank(rankLast[..], totalCost, nBitsToDecrease)
    ensures |h| <= NO_SYMBOL && nBitsToDecrease == PayingRank(counts, h, M, totalCost)
  {
    hide Debt, Pow2, LastAt, HighBit, Worth, StopRank;
    ghost var top := SomeRank(h, M, rankLast[..], totalCost, n);
    LastRanks(h, M, rankLast[..], totalCost, n);
    nBitsToDecrease := FindStop(counts, rankLast, HighBit(totalCost) + 1, h, M);
    ghost var stop := nBitsToDecrease;
    Pow2Mono(stop - 1, HighBit(totalCost));
    StopUsed(counts, h, M, HighBit(totalCost) + 1);
    while nBitsToDecrease <= HUF_TABLELOG_MAX && rankLast[nBitsToDecrease] == NO_SYMBOL
      invariant stop <= nBitsToDecrease < rankLast.Length && UsedFrom(h, M, stop) == UsedFrom(h, M, nBitsToDecrease)
      invariant nBitsToDecrease <= top || rankLast[nBitsToDecrease] != NO_SYMBOL
      invariant nBitsToDecrease > stop ==> forall q | 1 <= q < nBitsToDecrease :: rankLast[q] == NO_SYMBOL
    {
      nBitsToDecrease := nBitsToDecrease + 1;
    }
  }

  /** The search ends at a rank in use, or at 1. */
  lemma {:induction false} StopUsed(counts: seq<nat>, h: seq<nat>, M: nat, start: nat)
    requires |counts| == |h| <= NO_SYMBOL && start > 0
    ensures var stop := StopRank(counts, h, M, start); 1 <= stop <= start && (stop == 1 || LastAt(h, M, stop) != NO_SYMBOL)
  {
    hide LastAt;
  }

  /** Lengthens one leaf, and moves the last-leaf positions accordingly. */
  method PayOne(nbBits: array<nat>, M: nat, rankLast: array<nat>, r: nat)
    requires nbBits != rankLast && 1 <= r < rankLast.Length && rankLast[r] < nbBits.Length < NO_SYMBOL
    requires nbBits[rankLast[r]] + r == M
    modifies nbBits, rankLast
    ensures nbBits[..] == Paid(old(nbBits[..]), old(rankLast[..]), r)
    ensures rankLast[..] == PaidRanks(old(nbBits[..]), M, old(rankLast[..]), r)
  {
    if rankLast[r - 1] == NO_SYMBOL { rankLast[r - 1] := rankLast[r]; }
    nbBits[rankLast[r]] := nbBits[rankLast[r]] + 1;
    if rankLast[r] == 0 {
      rankLast[r] := NO_SYMBOL;
    } else {
      rankLast[r] := rankLast[r] - 1;
      if nbBits[rankLast[r]] != M - r { rankLast[r] := NO_SYMBOL; }
    }
  }

  method Repay(counts: seq<nat>, nbBits: array<nat>, M: nat, cost: nat, ghost n: nat, rankLast: array<nat>)
    returns (totalCost: int)
    requires |counts| == nbBits.Length < NO_SYMBOL && nbBits != rankLast
    requires Debt(nbBits[..], M, rankLast[..], cost, n)
    modifies nbBits, rankLast
    ensures totalCost <= 0
    ensures Debt(nbBits[..], M, rankLast[..], totalCost, n) && nbBits[..] == Repaid(counts, old(nbBits[..]), M, cost)
  {
    hide *;
    totalCost := cost;
    while totalCost > 0
      invariant Debt(nbBits[..], M, rankLast[..], totalCost, n)
      invariant Repaid(counts, nbBits[..], M, totalCost) == Repaid(counts, old(nbBits[..]), M, cost)
    {
      ghost var h, rl := nbBits[..], rankLast[..];
      var nBitsToDecrease := ChooseRank(counts, rankLast, totalCost, h, M, n);
      RankInUse(h, M, rl, totalCost, n, nBitsToDecrease);
      PayDebt(h, M, rl, totalCost, n, nBitsToDecrease);
      RepaidNext(counts, h, M, rl, totalCost, n, nBitsToDecrease);
      totalCost := totalCost - Pow2(nBitsToDecrease - 1);
      PayOne(nbBits, M, rankLast, nBitsToDecrease);
    }
    RepaidDone(counts, nbBits[..], M, totalCost);
  }

  lemma {:induction false} RepaidNext(counts: seq<nat>, h: seq<nat>, M: nat, rankLast: seq<nat>, cost: nat, n: nat, r: nat)
    requires Debt(h, M, rankLast, cost, n) && GoodRank(rankLast, cost, r) && cost > 0 && rankLast[r] < |h|
    requires |counts| == |h| <= NO_SYMBOL && r == PayingRank(counts, h, M, cost)
    ensures Repaid(counts, h, M, cost) == Repaid(counts, Paid(h, rankLast, r), M, cost - Pow2(r - 1))
  {
    hide Debt, PayingRank, LastAt, Pow2;
    LastRanks(h, M, rankLast, cost, n);
  }

  lemma {:induction false} RepaidDone(counts: seq<nat>, h: seq<nat>, M: nat, cost: int)
    requires |counts| == |h| <= NO_SYMBOL && cost <= 0
    ensures Repaid(counts, h, M, cost) == h
  {
  }

  lemma {:induction false} RankInUse(h: seq<nat>, M: nat, rankLast: seq<nat>, cost: nat, n: nat, r: nat)
    requires Debt(h, M, rankLast, cost, n) && GoodRank(rankLast, cost, r)
    ensures 1 <= r < |rankLast| && rankLast[r] < |h| && h[rankLast[r]] + r == M
  {
    assert RankOk(h, M, r, rankLast[r]);
  }

  lemma {:induction false} DebtShape(h: seq<nat>, M: nat, rankLast: seq<nat>, cost: int, n: nat)
    requires Debt(h, M, rankLast, cost, n)
    ensures |h| > 0 && NonDecreasing(h) && AtMost(h, M) && |rankLast| > 1
    ensures cost < 0 ==> h[0] < M && (rankLast[1] == NO_SYMBOL ==> DeepAfter(h, M, n) && forall i | n < i < |h| :: h[i] == M)
  {
  }

  lemma {:induction false} DeepSame(h: seq<nat>, M: nat, rankLast: seq<nat>, cost: int, n0: nat, n: nat)
    requires Debt(h, M, rankLast, cost, n0) && n < |h| && forall i | n < i < |h| :: h[i] == M
    ensures Debt(h, M, rankLast, cost, n)
  {
    hide RanksOk, Kraft, Deepest, Pow2;
  }

  lemma {:induction false} NoneReturned(h: seq<nat>, M: nat)
    ensures Returned(h, M, 0) == h
  {
  }

  /** Shortens the first leaf of length `M`: the one after the last leaf of rank 1, or the one found by searching. */
  method GiveOne(nbBits: array<nat>, M: nat, ghost cost: int, n0: nat, rankLast: array<nat>) returns (n: nat, ghost q: nat)
    requires nbBits != rankLast && cost < 0 && n0 < nbBits.Length && Debt(nbBits[..], M, rankLast[..], cost, n0)
    modifies nbBits, rankLast
    ensures n < nbBits.Length && 0 < q < nbBits.Length && M > 0
    ensures old(nbBits[q]) == M && old(nbBits[q - 1]) < M && nbBits[..] == old(nbBits[..])[q := M - 1]
    ensures Debt(nbBits[..], M, rankLast[..], cost + 1, n)
  {
    hide *;
    ghost var h, rl := nbBits[..], rankLast[..];
    AfterRankOne(h, M, rl, cost, n0);
    DebtShape(h, M, rl, cost, n0);
    n := n0;
    if rankLast[1] == NO_SYMBOL {
      while nbBits[n] == M
        invariant n < nbBits.Length && forall i | n < i < nbBits.Length :: nbBits[i] == M
        decreases n
      {
        n := n - 1;
      }
      q := n + 1;
      DeepSame(h, M, rl, cost, n0, n);
      SomeDeep(h, M, rl, cost, n);
      GiveBack(h, M, rl, cost, n, q);
      nbBits[n + 1] := nbBits[n + 1] - 1;
      rankLast[1] := n + 1;
    } else {
      q := rankLast[1] + 1;
      GiveBack(h, M, rl, cost, n, q);
      nbBits[rankLast[1] + 1] := nbBits[rankLast[1] + 1] - 1;
      rankLast[1] := rankLast[1] + 1;
    }
    assert nbBits[..] == h[q := h[q] - 1] && rankLast[..] == rl[1 := q];
  }

  lemma {:induction false} SomeDeep(h: seq<nat>, M: nat, rankLast: seq<nat>, cost: int, n: nat)
    requires Debt(h, M, rankLast, cost, n) && cost < 0 && n < |h| && h[n] != M
    ensures n + 1 < |h| && h[n] < M
  {
    AfterRankOne(h, M, rankLast, cost, n);
    hide RanksOk, Kraft, Deepest, Pow2;
  }

  /** Gives back what the last repayment took too much. */
  method Overshoot(nbBits: array<nat>, M: nat, cost: int, n0: nat, rankLast: array<nat>)
    requires nbBits != rankLast && cost <= 0 && n0 < nbBits.Length
    requires Debt(nbBits[..], M, rankLast[..], cost, n0)
    modifies nbBits, rankLast
    ensures Complete(nbBits[..], M) && nbBits.Length > 0 && nbBits[nbBits.Length - 1] == M
    ensures nbBits[..] == Returned(old(nbBits[..]), M, -cost)
  {
    hide *;
    var totalCost, n: nat := cost, n0;
    ghost var h0 := nbBits[..];
    NoneReturned(h0, M);
    DebtShape(h0, M, rankLast[..], cost, n);
    while totalCost < 0
      invariant cost <= totalCost <= 0 && n < nbBits.Length
      invariant nbBits[..] == Returned(h0, M, totalCost - cost)
      invariant Debt(nbBits[..], M, rankLast[..], totalCost, n)
      decreases -totalCost
    {
      ghost var h, q := nbBits[..], 0;
      DebtShape(h, M, rankLast[..], totalCost, n);
      n, q := GiveOne(nbBits, M, totalCost, n, rankLast);
      ReturnNext(h, h0, M, totalCost - cost, q);
      totalCost := totalCost + 1;
    }
    DebtPaid(nbBits[..], M, rankLast[..], n);
  }

  /**
    HUF_setMaxHeight on the lengths of the leaves. From a complete sorted code of any height it makes a
    complete sorted code of height exactly the limit, the one that repaying by the price rule leads to, and it
    leaves a code within the limit alone. The second precondition keeps `totalCost` within an int.
   */
  method SetMaxHeight(counts: seq<nat>, nbBits: array<nat>, maxNbBits: nat) returns (height: nat)
    requires |counts| == nbBits.Length && 0 < nbBits.Length <= Pow2(maxNbBits) && maxNbBits <= HUF_TABLELOG_MAX
    requires var D := nbBits[nbBits.Length - 1];
             Complete(nbBits[..], D) && CostInInt(nbBits[..], maxNbBits)
    modifies nbBits
    ensures Complete(nbBits[..], height) && nbBits[nbBits.Length - 1] == height
    ensures height == if old(nbBits[nbBits.Length - 1]) <= maxNbBits then old(nbBits[nbBits.Length - 1]) else maxNbBits
    ensures nbBits.Length <= NO_SYMBOL
    ensures nbBits[..] == if old(nbBits[nbBits.Length - 1]) <= maxNbBits then old(nbBits[..]) else Limited(counts, old(nbBits[..]), maxNbBits)
  {
    LeavesFew(nbBits.Length, maxNbBits);
    hide Limited, Repaid, Returned, Truncated;
    var largestBits := nbBits[nbBits.Length - 1];
    if largestBits <= maxNbBits { return largestBits; }
    SomeShort(nbBits[..], maxNbBits, largestBits);
    ghost var l := nbBits[..];
    var totalCost, n := Truncate(nbBits, maxNbBits);
    var rankLast := new nat[HUF_TABLELOG_MAX + 2](_ => NO_SYMBOL);
    FindRankLast(nbBits, maxNbBits, n, rankLast);
    var owed := Repay(counts, nbBits, maxNbBits, totalCost, n, rankLast);
    OwedIs(nbBits[..], maxNbBits, rankLast[..], owed, n);
    LimitedIs(counts, l, maxNbBits, totalCost, owed, nbBits[..]);
    Overshoot(nbBits, maxNbBits, owed, n, rankLast);
    return maxNbBits;
  }

  lemma {:induction false} LeavesFew(n: nat, M: nat)
    requires n <= Pow2(M) && M <= HUF_TABLELOG_MAX
    ensures n <= Pow2(M) <= 4096 < NO_SYMBOL
  {
    hide Pow2, Shl;
    Pow2Mono(M, HUF_TABLELOG_MAX);
    SmallPowers();
    Pow2IsShl(8, 4);
    PowNext(8);
    PowNext(9);
    PowNext(10);
    PowNext(11);
  }

  lemma {:induction false} OwedIs(h: seq<nat>, M: nat, rankLast: seq<nat>, cost: int, n: nat)
    requires Debt(h, M, rankLast, cost, n)
    ensures Kraft(h, M) == Pow2(M) + cost
  {
  }

  lemma {:induction false} LimitedIs(counts: seq<nat>, l: seq<nat>, M: nat, cost: int, owed: int, paid: seq<nat>)
    requires |counts| == |l| <= NO_SYMBOL && Kraft(Truncated(l, M), M) == Pow2(M) + cost
    requires paid == Repaid(counts, Truncated(l, M), M, cost) && Kraft(paid, M) == Pow2(M) + owed && owed <= 0
    ensures Limited(counts, l, M) == Returned(paid, M, -owed)
  {
    hide Kraft, Pow2, Repaid, Returned, Truncated;
  }

  /** The limit on the number of leaves is necessary: a complete code of height `M` has at most 2^M. */
  lemma {:induction false} LeavesBound(s: seq<nat>, M: nat)
    requires Complete(s, M)
    ensures |s| <= Pow2(M)
  {
    KraftAtLeast(s, M);
  }

  lemma {:induction false} KraftAtLeast(s: seq<nat>, M: nat)
    requires AtMost(s, M)
    ensures Kraft(s, M) >= |s|
  {
    if |s| > 0 {
      assert AtMost(s[..|s| - 1], M);
      KraftAtLeast(s[..|s| - 1], M);
    }
  }
}
