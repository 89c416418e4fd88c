/**
  What FSE_normalizeCount makes of the counts of the symbols: the counters of the first method, the cases in which
  the second one takes over, and what the counters promise about the shares of the symbols.
 */
module FseCounters {
  import opened Bits
  import opened Errors
  import opened FseSpread

  const NOT_YET_ASSIGNED := -2

  // ---------- products and quotients ----------

  function Mul(a: nat, b: nat): nat {
    a * b
  }

  function Div(a: nat, b: nat): nat
    requires b > 0
  {
    a / b
  }

  lemma {:induction false} MulAdd(a: nat, b: nat, c: nat)
    ensures Mul(a + b, c) == Mul(a, c) + Mul(b, c)
  {
  }

  lemma {:induction false} MulSmall(c: nat)
    ensures Mul(0, c) == 0 && Mul(1, c) == c
  {
  }

  lemma {:induction false} MulMono(a: nat, b: nat, c: nat)
    requires a <= b
    ensures Mul(a, c) <= Mul(b, c)
  {
  }

  lemma {:induction false} MulPositive(a: nat, b: nat)
    requires a > 0 && b > 0
    ensures Mul(a, b) > 0
  {
  }

  lemma {:induction false} DivBounds(a: nat, b: nat)
    requires b > 0
    ensures Mul(b, Div(a, b)) <= a < Mul(b, Div(a, b)) + b
  {
  }

  lemma {:induction false} MulIsShl(a: nat, n: nat)
    ensures Mul(Pow2(n), a) == Shl(a, n)
  {
    if n > 0 {
      MulIsShl(a, n - 1);
      MulAdd(Pow2(n - 1), Pow2(n - 1), a);
    } else {
      MulSmall(a);
    }
  }

  // ---------- counts ----------

  function SumCount(count: seq<nat>, n: nat): nat
    requires n <= |count|
  {
    if n == 0 then 0 else SumCount(count, n - 1) + count[n - 1]
  }

  /** Symbols in use among the first `n`. */
  function Used(count: seq<nat>, n: nat): nat
    requires n <= |count|
  {
    if n == 0 then 0 else Used(count, n - 1) + (if count[n - 1] > 0 then 1 else 0)
  }

  lemma {:induction false} UsedBounds(count: seq<nat>, n: nat)
    requires n <= |count|
    ensures Used(count, n) <= n && Used(count, n) <= SumCount(count, n)
  {
    if n > 0 { UsedBounds(count, n - 1); }
  }

  lemma {:induction false} CountBound(count: seq<nat>, n: nat, s: nat)
    requires s < n <= |count|
    ensures count[s] <= SumCount(count, n)
  {
    if s < n - 1 { CountBound(count, n - 1, s); }
  }

  /** If no symbol is above `q`, they make up at most `q` for each symbol in use. */
  lemma {:induction false} AllLow(count: seq<nat>, n: nat, q: nat)
    requires n <= |count| && forall s | 0 <= s < n :: count[s] <= q
    ensures SumCount(count, n) <= Mul(Used(count, n), q)
  {
    hide Mul;
    if n == 0 {
      MulSmall(q);
    } else {
      AllLow(count, n - 1, q);
      MulAdd(Used(count, n - 1), 1, q);
      MulSmall(q);
    }
  }

  /** If no symbol is above the low threshold, there are at least as many symbols as cells. */
  lemma {:induction false} SomeHigh(count: seq<nat>, L: nat)
    requires SumCount(count, |count|) > 0
    requires forall s | 0 <= s < |count| :: count[s] <= Shr(SumCount(count, |count|), L)
    ensures Used(count, |count|) >= Pow2(L)
  {
    hide Mul, Shl, Shr, Pow2;
    var total, u := SumCount(count, |count|), Used(count, |count|);
    var q := Shr(total, L);
    AllLow(count, |count|, q);
    Split(total, L);
    MulIsShl(q, L);
    if u < Pow2(L) {
      MulMono(u + 1, Pow2(L), q);
      MulAdd(u, 1, q);
      MulSmall(q);
      if q == 0 { MulZero(u); }
    }
  }

  lemma {:induction false} MulZero(a: nat)
    ensures Mul(a, 0) == 0
  {
  }

  /** FSE_minTableLog. */
  function MinTableLog(srcSize: nat, maxSymbolValue: nat): nat
    requires srcSize > 1 && maxSymbolValue > 0
  {
    var minBitsSrc := HighBit(srcSize) + 1;
    var minBitsSymbols := HighBit(maxSymbolValue) + 2;
    if minBitsSrc < minBitsSymbols then minBitsSrc else minBitsSymbols
  }

  /** A table log is large enough if the table has more cells than the source has bytes, or than twice the largest symbol. */
  lemma {:induction false} LargeEnough(srcSize: nat, maxSymbolValue: nat, L: nat)
    requires srcSize > 1 && maxSymbolValue > 0
    ensures L >= MinTableLog(srcSize, maxSymbolValue) <==> srcSize < Pow2(L) || maxSymbolValue + maxSymbolValue < Pow2(L)
  {
    hide Pow2, HighBit;
    var h, k := HighBit(srcSize), HighBit(maxSymbolValue);
    PowNext(h);
    PowNext(k);
    PowNext(k + 1);
    if L >= h + 1 { Pow2Mono(h + 1, L); } else { Pow2Mono(L, h); }
    if L >= k + 2 { Pow2Mono(k + 2, L); } else { Pow2Mono(L, k + 1); }
  }

  /** A table of that size has room for every symbol in use, and some symbol is above the low threshold. */
  lemma {:induction false} RoomForAll(count: seq<nat>, L: nat)
    requires |count| > 1 && SumCount(count, |count|) > 1
    requires L >= MinTableLog(SumCount(count, |count|), |count| - 1)
    ensures Used(count, |count|) <= Pow2(L)
    ensures exists s :: 0 <= s < |count| && count[s] > Shr(SumCount(count, |count|), L)
  {
    hide Pow2, Shr, HighBit;
    var total, n := SumCount(count, |count|), |count|;
    UsedBounds(count, n);
    var h := if HighBit(total) + 1 < HighBit(n - 1) + 2 then HighBit(total) + 1 else HighBit(n - 1) + 2;
    Pow2Mono(h, L);
    PowNext(HighBit(total));
    PowNext(HighBit(n - 1));
    PowNext(HighBit(n - 1) + 1);
    assert total < Pow2(L) || n + n <= Pow2(L);
    if forall s | 0 <= s < n :: count[s] <= Shr(total, L) {
      SomeHigh(count, L);
      assert false;
    }
  }

  // ---------- sums of counters ----------

  lemma {:induction false} FreqSumUpdate(a: seq<int>, n: nat, s: nat, v: int)
    requires s < n <= |a|
    ensures FreqSum(a[s := v], n) + Freq(a[s]) == FreqSum(a, n) + Freq(v)
  {
    if s == n - 1 {
      FreqSumSame(a[s := v], a, n - 1);
    } else {
      FreqSumUpdate(a, n - 1, s, v);
    }
  }

  /** Counters for exactly the symbols in use, below `n`; low-probability symbols get -1. */
  ghost predicate Fits(norm: seq<int>, count: seq<nat>, n: nat) {
    n <= |norm| && |norm| == |count| && forall k | 0 <= k < n :: norm[k] >= -1 && (norm[k] == 0 <==> count[k] == 0)
  }

  function RestToBeat(proba: nat): nat
    requires proba < 8
  {
    [0, 473195, 504333, 520860, 550000, 700000, 750000, 830000][proba]
  }

  /** The scaled count, rounded up when enough is left over; never 0 for a symbol in use. */
  function Probability(c: nat, step: nat, scale: nat): (p: nat)
    requires scale >= 20
  {
    var proba := Shr(Mul(c, step), scale);
    if proba < 8 && Mul(c, step) - Shl(proba, scale) > Mul(Pow2(scale - 20), RestToBeat(proba)) then proba + 1 else proba
  }

  lemma {:induction false} ProbabilityPositive(c: nat, step: nat, scale: nat)
    requires scale >= 20 && c > 0 && step > 0
    ensures Probability(c, step, scale) > 0
  {
    MulMono(1, c, step);
    MulSmall(step);
    if Shr(Mul(c, step), scale) == 0 {
      ShlZero(scale);
      MulZero(Pow2(scale - 20));
    }
  }


  /** First symbol with the largest value. */
  ghost function FirstMax(a: seq<int>): (m: nat)
    requires |a| > 0
    ensures m < |a| && (forall k | 0 <= k < |a| :: a[k] <= a[m]) && (forall k | 0 <= k < m :: a[k] < a[m])
  {
    if |a| == 1 then 0 else
      var m := FirstMax(a[..|a| - 1]);
      assert forall k | 0 <= k < |a| - 1 :: a[..|a| - 1][k] == a[k];
      if a[|a| - 1] > a[m] then |a| - 1 else m
  }

  // ---------- the first method ----------

  /** What FSE_normalizeCount accepts: a source of more than one byte and a table with room for its alphabet. */
  ghost predicate Normalizable(count: seq<nat>, L: nat) {
    && |count| > 1 && 1 < SumCount(count, |count|) < 0x1_0000_0000
    && L <= BYTE_LIMITS.maxTableLog && L >= MinTableLog(SumCount(count, |count|), |count| - 1)
  }

  /** The counter of the first method: -1 up to the low threshold, the rounded share above it. */
  ghost function ScaledAt(c: nat, total: nat, L: nat): int
    requires total > 0 && L <= BYTE_LIMITS.maxTableLog
  {
    if c == 0 then 0
    else if c <= Shr(total, L) then -1
    else Probability(c, Div(0x4000_0000_0000_0000, total), 62 - L)
  }

  ghost function Scaled(count: seq<nat>, L: nat): (a: seq<int>)
    requires Normalizable(count, L)
    ensures |a| == |count|
  {
    seq(|count|, s requires 0 <= s < |count| => ScaledAt(count[s], SumCount(count, |count|), L))
  }

  /**
    The counters for these counts: what the first method leaves over, or has given out too much, goes to the first
    symbol with the largest counter, unless it would lose half of its cells; then the second method decides, and may
    refuse the counts.
   */
  ghost function Normalization(count: seq<nat>, L: nat): (r: Option<seq<int>>)
    requires Normalizable(count, L)
  {
    var a := Scaled(count, L);
    var m := FirstMax(a);
    var rest := Pow2(L) - FreqSum(a, |a|);
    if a[m] + rest + rest > 1 then Some(a[m := a[m] + rest]) else SecondMethod(count, L)
  }

  // ---------- the second method ----------

  /** Sum of the counters assigned so far. */
  function Assigned(norm: seq<int>, n: nat): nat
    requires n <= |norm|
  {
    if n == 0 then 0 else Assigned(norm, n - 1) + (if norm[n - 1] == NOT_YET_ASSIGNED then 0 else Freq(norm[n - 1]))
  }

  /** Total count of the symbols not yet assigned. */
  function Pending(norm: seq<int>, count: seq<nat>, n: nat): nat
    requires n <= |norm| && n <= |count|
  {
    if n == 0 then 0 else Pending(norm, count, n - 1) + (if norm[n - 1] == NOT_YET_ASSIGNED then count[n - 1] else 0)
  }

  /** The mark of a symbol: -1 up to the low threshold, 1 up to the second one, to be decided above it. */
  ghost function Mark(c: nat, low: nat, one: nat): int {
    if c == 0 then 0 else if c <= low then -1 else if c <= one then 1 else NOT_YET_ASSIGNED
  }

  ghost function Marks(count: seq<nat>, low: nat, one: nat): (m: seq<int>)
    ensures |m| == |count|
  {
    seq(|count|, s requires 0 <= s < |count| => Mark(count[s], low, one))
  }

  /**
    Up to this count a symbol gets a single cell: one and a half cells' worth of the total or, if the others would
    still have more than that count for each cell that is left, one and a half times what they have for a cell.
   */
  ghost function SingleCell(count: seq<nat>, L: nat): nat
    requires Normalizable(count, L)
  {
    var total := SumCount(count, |count|);
    var one := Shr(Mul(total, 3), L + 1) % 0x1_0000_0000;
    var marks := Marks(count, Shr(total, L), one);
    var rest, left := Pow2(L) - Assigned(marks, |marks|), Pending(marks, count, |marks|);
    if rest > 0 && Div(left, rest) > one then More(one, left, rest) else one
  }

  ghost function More(one: nat, left: nat, rest: nat): (r: nat)
    requires rest > 0
    ensures r >= one
  {
    MulPositive(rest, 2);
    var more := Div(Mul(left, 3), Mul(rest, 2)) % 0x1_0000_0000;
    if more > one then more else one
  }

  /** Number of single cells among the first `n` marks. */
  ghost function Ones(marks: seq<int>, n: nat): nat
    requires n <= |marks|
  {
    if n == 0 then 0 else Ones(marks, n - 1) + (if marks[n - 1] == 1 then 1 else 0)
  }

  /** The single cells share `rest` more as evenly as can be; the first ones get one more than the last ones. */
  ghost function Evenly(marks: seq<int>, rest: nat): (norm: seq<int>)
    requires Ones(marks, |marks|) > 0
    ensures |norm| == |marks|
  {
    seq(|marks|, s requires 0 <= s < |marks| => EvenAt(marks, rest, s))
  }

  ghost function EvenAt(marks: seq<int>, rest: nat, s: nat): int
    requires Ones(marks, |marks|) > 0 && s < |marks|
  {
    var q := Div(rest, Ones(marks, |marks|));
    if marks[s] != 1 then marks[s]
    else 1 + q + (if Mul(Ones(marks, |marks|), q) + Ones(marks, s) < rest then 1 else 0)
  }

  /**
    Cells for the undecided symbols among the first `n`: their part of what is left, in fixed point, rounded to the
    nearest number of cells.
   */
  ghost function UpTo(marks: seq<int>, count: seq<nat>, n: nat, rest: nat, v: nat): nat
    requires n <= |marks| == |count| && Pending(marks, count, |marks|) > 0 && v > 0
  {
    var mid := Pow2(v - 1) - 1;
    Shr(mid + Mul(Pending(marks, count, n), Div(Shl(rest, v) + mid, Pending(marks, count, |marks|))), v)
  }

  /** Every undecided symbol gets a cell. */
  ghost predicate AllServed(marks: seq<int>, count: seq<nat>, rest: nat, v: nat)
    requires |marks| == |count| && Pending(marks, count, |marks|) > 0 && v > 0
  {
    forall s | 0 <= s < |marks| && marks[s] == NOT_YET_ASSIGNED ::
      UpTo(marks, count, s, rest, v) < UpTo(marks, count, s + 1, rest, v)
  }

  ghost function ShareAt(marks: seq<int>, count: seq<nat>, rest: nat, v: nat, s: nat): int
    requires s < |marks| == |count| && Pending(marks, count, |marks|) > 0 && v > 0
  {
    if marks[s] == NOT_YET_ASSIGNED
    then UpTo(marks, count, s + 1, rest, v) - UpTo(marks, count, s, rest, v)
    else marks[s]
  }

  ghost function Shares(marks: seq<int>, count: seq<nat>, rest: nat, v: nat): (r: Option<seq<int>>)
    requires |marks| == |count| && Pending(marks, count, |marks|) > 0 && v > 0
    ensures r.Some? ==> |r.value| == |marks|
  {
    if AllServed(marks, count, rest, v)
    then Some(seq(|marks|, s requires 0 <= s < |marks| => ShareAt(marks, count, rest, v, s)))
    else None
  }

  /** The counters of the second method; it refuses if a symbol would be left without a cell. */
  ghost function SecondMethod(count: seq<nat>, L: nat): (r: Option<seq<int>>)
    requires Normalizable(count, L)
  {
    var marks := Marks(count, Shr(SumCount(count, |count|), L), SingleCell(count, L));
    MarksFit(count, L, SingleCell(count, L));
    LastStep(marks, count, Pow2(L) - Assigned(marks, |marks|), 62 - L)
  }

  /** What is left over goes to the first most frequent symbol, or evenly to all, or to the undecided symbols. */
  ghost function LastStep(marks: seq<int>, count: seq<nat>, rest: nat, v: nat): (r: Option<seq<int>>)
    requires 0 < |marks| == |count| && v > 0
    requires Pending(marks, count, |marks|) == 0 ==> Ones(marks, |marks|) > 0
  {
    if Assigned(marks, |marks|) == |marks| then
      Some(marks[FirstMax(count) := marks[FirstMax(count)] + rest])
    else if Pending(marks, count, |marks|) == 0 then
      Some(Evenly(marks, rest))
    else
      Shares(marks, count, rest, v)
  }

  // ---------- marks ----------

  lemma {:induction false} MarksAssigned(count: seq<nat>, low: nat, one: nat, n: nat)
    requires n <= |count|
    ensures var m := Marks(count, low, one);
            && Assigned(m, n) <= Used(count, n)
            && (Pending(m, count, n) == 0 <==> forall k | 0 <= k < n :: m[k] != NOT_YET_ASSIGNED)
            && (Pending(m, count, n) == 0 ==> Assigned(m, n) == Used(count, n))
            && (Assigned(m, n) == Used(count, n) ==> Pending(m, count, n) == 0)
  {
    if n > 0 { MarksAssigned(count, low, one, n - 1); }
  }

  lemma {:induction false} SomeOne(marks: seq<int>, n: nat, s: nat)
    requires s < n <= |marks| && marks[s] == 1
    ensures Ones(marks, n) > 0
  {
    if s < n - 1 { SomeOne(marks, n - 1, s); }
  }

  /** The marks leave room in the table, and if nothing is undecided some symbol has a single cell. */
  lemma {:induction false} MarksFit(count: seq<nat>, L: nat, one: nat)
    requires Normalizable(count, L)
    ensures var m := Marks(count, Shr(SumCount(count, |count|), L), one);
            && Assigned(m, |m|) <= Pow2(L)
            && (Assigned(m, |m|) == |m| || Assigned(m, |m|) == Pow2(L) ==> Pending(m, count, |m|) == 0)
            && (Pending(m, count, |m|) == 0 ==> Ones(m, |m|) > 0)
  {
    hide Shr, Pow2, SumCount, MinTableLog, Used, Assigned, Pending, Ones;
    var low := Shr(SumCount(count, |count|), L);
    var m := Marks(count, low, one);
    RoomForAll(count, L);
    UsedBounds(count, |count|);
    MarksAssigned(count, low, one, |count|);
    if Pending(m, count, |m|) == 0 {
      var s :| 0 <= s < |count| && count[s] > low;
      SomeOne(m, |m|, s);
    }
  }

  // ---------- the counters fill the table ----------

  /** Counters that fill the table; exactly the symbols up to the low threshold have a counter of -1. */
  ghost predicate Filling(norm: seq<int>, count: seq<nat>, L: nat) {
    && Fits(norm, count, |count|) && FreqSum(norm, |norm|) == Pow2(L)
    && forall s | 0 <= s < |count| :: norm[s] == -1 <==> 0 < count[s] <= Shr(SumCount(count, |count|), L)
  }

  lemma {:induction false} StepPositive(total: nat)
    requires 1 < total < 0x1_0000_0000
    ensures Div(0x4000_0000_0000_0000, total) > 0
  {
  }

  lemma {:induction false} ScaledAtSign(c: nat, total: nat, L: nat)
    requires 1 < total < 0x1_0000_0000 && L <= BYTE_LIMITS.maxTableLog
    ensures var p := ScaledAt(c, total, L);
            p >= -1 && (p == 0 <==> c == 0) && (p == -1 <==> 0 < c <= Shr(total, L))
  {
    hide Shr, Probability, Div;
    StepPositive(total);
    if c > 0 { ProbabilityPositive(c, Div(0x4000_0000_0000_0000, total), 62 - L); }
  }

  lemma {:induction false} FirstFits(count: seq<nat>, L: nat)
    requires Normalizable(count, L)
    ensures var a := Scaled(count, L);
            var m := FirstMax(a);
            var rest := Pow2(L) - FreqSum(a, |a|);
            && a[m] > 0 && (a[m] + rest + rest > 1 ==> Filling(a[m := a[m] + rest], count, L))
  {
    hide Shr, Pow2, FreqSum, SumCount, MinTableLog, ScaledAt;
    var total, low := SumCount(count, |count|), Shr(SumCount(count, |count|), L);
    var a := Scaled(count, L);
    var m := FirstMax(a);
    var rest := Pow2(L) - FreqSum(a, |a|);
    forall s | 0 <= s < |count|
      ensures a[s] >= -1 && (a[s] == 0 <==> count[s] == 0) && (a[s] == -1 <==> 0 < count[s] <= low)
    {
      ScaledAtSign(count[s], total, L);
    }
    RoomForAll(count, L);
    var s :| 0 <= s < |count| && count[s] > low;
    assert a[s] > 0;
    if a[m] + rest + rest > 1 {
      FreqSumUpdate(a, |a|, m, a[m] + rest);
    }
  }

  lemma {:induction false} EvenSum(marks: seq<int>, rest: nat, n: nat)
    requires Ones(marks, |marks|) > 0 && n <= |marks|
    ensures var q := Div(rest, Ones(marks, |marks|));
            var extra := rest - Mul(Ones(marks, |marks|), q);
            FreqSum(Evenly(marks, rest), n)
            == FreqSum(marks, n) + Mul(Ones(marks, n), q) + (if Ones(marks, n) < extra then Ones(marks, n) else extra)
  {
    hide Mul, Div;
    var q := Div(rest, Ones(marks, |marks|));
    DivBounds(rest, Ones(marks, |marks|));
    if n == 0 {
      MulSmall(q);
    } else {
      EvenSum(marks, rest, n - 1);
      MulAdd(Ones(marks, n - 1), 1, q);
      MulSmall(q);
    }
  }

  lemma {:induction false} AssignedAll(norm: seq<int>, n: nat)
    requires n <= |norm| && forall k | 0 <= k < n :: norm[k] != NOT_YET_ASSIGNED
    ensures Assigned(norm, n) == FreqSum(norm, n)
  {
    if n > 0 { AssignedAll(norm, n - 1); }
  }

  lemma {:induction false} EvenFills(marks: seq<int>, rest: nat)
    requires Ones(marks, |marks|) > 0
    ensures FreqSum(Evenly(marks, rest), |marks|) == FreqSum(marks, |marks|) + rest
  {
    hide Mul, Div, Ones, FreqSum;
    DivBounds(rest, Ones(marks, |marks|));
    EvenSum(marks, rest, |marks|);
  }

  lemma {:induction false} ShrMono(x: nat, y: nat, n: nat)
    requires x <= y
    ensures Shr(x, n) <= Shr(y, n)
  {
    if n > 0 { ShrMono(Half(x), Half(y), n - 1); }
  }

  /** The rounding of the proportional steps telescopes to exactly what is to be distributed. */
  lemma {:induction false} Telescopes(total: nat, d: nat, v: nat)
    requires 0 < total < Pow2(v) && v > 0
    ensures var mid := Pow2(v - 1) - 1;
            Shr(mid, v) == 0 && Shr(mid + Mul(total, Div(Shl(d, v) + mid, total)), v) == d
  {
    hide Mul, Div, Shl, Shr, Pow2;
    var mid := Pow2(v - 1) - 1;
    var x := Shl(d, v) + mid;
    PowNext(v - 1);
    DivBounds(x, total);
    LowSmall(mid, v);
    Join(mid + Mul(total, Div(x, total)) - Shl(d, v), d, v);
  }

  lemma {:induction false} WordFits(total: nat, v: nat)
    requires total < 0x1_0000_0000 && v >= 50
    ensures total < Pow2(v)
  {
    SmallPowers();
    Pow2IsShl(8, 8);
    ShlByte(256);
    Pow2IsShl(16, 8);
    ShlByte(0x1_0000);
    Pow2IsShl(24, 8);
    ShlByte(0x100_0000);
    Pow2Mono(32, v);
  }

  /** All undecided symbols together get exactly what is left. */
  lemma {:induction false} UpToAll(marks: seq<int>, count: seq<nat>, rest: nat, v: nat)
    requires |marks| == |count| && 0 < Pending(marks, count, |marks|) < 0x1_0000_0000 && v >= 50
    ensures UpTo(marks, count, 0, rest, v) == 0 && UpTo(marks, count, |marks|, rest, v) == rest
  {
    hide Mul, Div, Shl, Shr, Pow2;
    var left := Pending(marks, count, |marks|);
    WordFits(left, v);
    Telescopes(left, rest, v);
    MulSmall(Div(Shl(rest, v) + (Pow2(v - 1) - 1), left));
  }

  lemma {:induction false} SharesSum(marks: seq<int>, count: seq<nat>, rest: nat, v: nat, n: nat)
    requires n <= |marks| == |count| && Pending(marks, count, |marks|) > 0 && v > 0 && AllServed(marks, count, rest, v)
    ensures FreqSum(Shares(marks, count, rest, v).value, n) + UpTo(marks, count, 0, rest, v)
         == Assigned(marks, n) + UpTo(marks, count, n, rest, v)
  {
    hide Mul, Div, Shl, Shr, Pow2;
    if n > 0 { SharesSum(marks, count, rest, v, n - 1); }
  }

  lemma {:induction false} PendingBound(norm: seq<int>, count: seq<nat>, n: nat)
    requires n <= |norm| && n <= |count|
    ensures Pending(norm, count, n) <= SumCount(count, n)
  {
    if n > 0 { PendingBound(norm, count, n - 1); }
  }

  lemma {:induction false} SecondFits(count: seq<nat>, L: nat)
    requires Normalizable(count, L) && SecondMethod(count, L).Some?
    ensures Filling(SecondMethod(count, L).value, count, L)
  {
    hide Shr, Pow2, FreqSum, SumCount, MinTableLog, Assigned, Pending, Ones, Shares, Evenly, SingleCell, Used;
    var low := Shr(SumCount(count, |count|), L);
    var marks := Marks(count, low, SingleCell(count, L));
    MarksFit(count, L, SingleCell(count, L));
    MarksAssigned(count, low, SingleCell(count, L), |count|);
    PendingBound(marks, count, |count|);
    var rest := Pow2(L) - Assigned(marks, |marks|);
    if Pending(marks, count, |marks|) == 0 {
      AssignedAll(marks, |marks|);
      if Assigned(marks, |marks|) == |marks| {
        GivenFits(count, L, marks, low, rest);
      } else {
        EvenFits(count, L, marks, low, rest);
      }
    } else {
      SharesFit(count, L, marks, low, rest);
    }
  }

  /** The marks of the second method. */
  ghost predicate Marked(marks: seq<int>, count: seq<nat>, low: nat) {
    |marks| == |count| && exists one: nat :: marks == Marks(count, low, one)
  }

  lemma {:induction false} GivenFits(count: seq<nat>, L: nat, marks: seq<int>, low: nat, rest: nat)
    requires Normalizable(count, L) && low == Shr(SumCount(count, |count|), L) && Marked(marks, count, low)
    requires FreqSum(marks, |marks|) + rest == Pow2(L) && forall s | 0 <= s < |marks| :: marks[s] != NOT_YET_ASSIGNED
    ensures Filling(marks[FirstMax(count) := marks[FirstMax(count)] + rest], count, L)
  {
    hide Shr, Pow2, FreqSum, SumCount, MinTableLog;
    RoomForAll(count, L);
    var m := FirstMax(count);
    FreqSumUpdate(marks, |marks|, m, marks[m] + rest);
  }

  lemma {:induction false} EvenFits(count: seq<nat>, L: nat, marks: seq<int>, low: nat, rest: nat)
    requires |count| > 0 && low == Shr(SumCount(count, |count|), L) && Marked(marks, count, low) && Ones(marks, |marks|) > 0
    requires FreqSum(marks, |marks|) + rest == Pow2(L) && forall s | 0 <= s < |marks| :: marks[s] != NOT_YET_ASSIGNED
    ensures Filling(Evenly(marks, rest), count, L)
  {
    hide Shr, Pow2, FreqSum, SumCount, Ones, Mul, Div;
    EvenFills(marks, rest);
  }

  lemma {:induction false} SharesFit(count: seq<nat>, L: nat, marks: seq<int>, low: nat, rest: nat)
    requires |count| > 0 && low == Shr(SumCount(count, |count|), L) && Marked(marks, count, low) && L <= BYTE_LIMITS.maxTableLog
    requires Assigned(marks, |marks|) + rest == Pow2(L) && 0 < Pending(marks, count, |marks|) < 0x1_0000_0000
    requires Shares(marks, count, rest, 62 - L).Some?
    ensures Filling(Shares(marks, count, rest, 62 - L).value, count, L)
  {
    hide Shr, Pow2, FreqSum, SumCount, Assigned, Pending, UpTo;
    UpToAll(marks, count, rest, 62 - L);
    SharesSum(marks, count, rest, 62 - L, |marks|);
    var norm := Shares(marks, count, rest, 62 - L).value;
    forall s | 0 <= s < |marks| ensures norm[s] == ShareAt(marks, count, rest, 62 - L, s) {}
  }

  /**
    Whichever method decides, the counters fill the table exactly, exactly the symbols in use have one, and exactly
    those up to the low threshold count as improbable.
   */
  lemma {:induction false} NormalizationFills(count: seq<nat>, L: nat)
    requires Normalizable(count, L) && Normalization(count, L).Some?
    ensures Filling(Normalization(count, L).value, count, L)
  {
    hide Shr, Pow2, FreqSum, SumCount, MinTableLog, ScaledAt, SecondMethod;
    FirstFits(count, L);
    if SecondMethod(count, L).Some? { SecondFits(count, L); }
  }
}
