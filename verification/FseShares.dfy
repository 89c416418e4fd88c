/**
  What normalized counters promise: how far the counter of a symbol can be from its share of the table, for both
  methods of FSE_normalizeCount.
 */
module FseShares {
  import opened Bits
  import opened Errors
  import opened FseSpread
  import opened FseCounters

  // ---------- products ----------

  lemma {:induction false} MulAssoc(a: nat, b: nat, c: nat)
    ensures Mul(a, Mul(b, c)) == Mul(Mul(a, b), c)
  {
  }

  lemma {:induction false} MulSwap(a: nat, b: nat)
    ensures Mul(a, b) == Mul(b, a)
  {
  }

  lemma {:induction false} MulStrict(a: nat, b: nat, c: nat)
    requires a < b && c > 0
    ensures Mul(a, c) + c <= Mul(b, c)
  {
    MulAdd(a + 1, b - a - 1, c);
    MulAdd(a, 1, c);
    MulSmall(c);
  }

  lemma {:induction false} ShlMul(a: nat, b: nat, n: nat)
    ensures Mul(Shl(a, n), b) == Shl(Mul(a, b), n)
  {
    hide Mul;
    if n > 0 {
      ShlMul(a, b, n - 1);
      MulAdd(Shl(a, n - 1), Shl(a, n - 1), b);
    }
  }

  lemma {:induction false} ShlBelow(a: nat, b: nat, n: nat)
    requires Shl(a, n) < Shl(b, n)
    ensures a < b
  {
    if b <= a { ShlMono(b, a, n); }
  }

  // ---------- within one cell ----------

  /**
    `w` cells are at most one cell away from the share of `c` out of `left` in `all`, where a cell is 2^v parts:
    above by less than one cell, below by less than one cell and one part for each of the `c`.
   */
  ghost predicate Near(w: nat, c: nat, left: nat, all: nat, v: nat) {
    && Shl(Mul(w, left), v) < Mul(c, all) + Shl(left, v)
    && Mul(c, all) < Shl(Mul(w + 1, left), v) + Mul(c, left)
  }

  lemma {:induction false} NearBy(w: nat, c: nat, left: nat, all: nat, v: nat, step: nat)
    requires left > 0 && c > 0 && step == Div(all, left)
    requires Shl(w, v) < Mul(c, step) + Pow2(v) && Mul(c, step) < Shl(w + 1, v)
    ensures Near(w, c, left, all, v)
  {
    hide Mul, Div, Shl, Pow2;
    DivBounds(all, left);
    var x := Mul(c, step);
    var y := Mul(left, step);
    var z := Mul(x, left);
    assert z == Mul(c, y) by {
      MulAssoc(c, step, left);
      MulSwap(step, left);
    }
    assert z <= Mul(c, all) < z + Mul(c, left) by {
      MulSwap(c, y);
      MulSwap(c, all);
      MulSwap(c, left);
      MulMono(y, all, c);
      MulStrict(all, y + left, c);
      MulAdd(y, left, c);
    }
    assert Shl(Mul(w, left), v) < z + Shl(left, v) by {
      ShlMul(w, left, v);
      MulIsShl(left, v);
      MulStrict(Shl(w, v), x + Pow2(v), left);
      MulAdd(x, Pow2(v), left);
    }
    assert z < Shl(Mul(w + 1, left), v) by {
      ShlMul(w + 1, left, v);
      MulStrict(x, Shl(w + 1, v), left);
    }
  }

  // ---------- the first method ----------

  /** The rounding: up exactly if more than a tabled part of a cell is left over, which depends on the number of cells. */
  lemma {:induction false} Rounding(c: nat, step: nat, scale: nat, q: nat)
    requires scale >= 20 && Shl(q, scale) <= Mul(c, step) < Shl(q, scale) + Pow2(scale)
    ensures var up := q < 8 && Mul(c, step) - Shl(q, scale)
                               > Mul([0, 473195, 504333, 520860, 550000, 700000, 750000, 830000][q], Pow2(scale - 20));
            Probability(c, step, scale) == if up then q + 1 else q
  {
    hide Mul, Shl, Shr, Pow2;
    Join(Mul(c, step) - Shl(q, scale), q, scale);
    if q < 8 { MulSwap(RestToBeat(q), Pow2(scale - 20)); }
  }

  /** A scaled counter above the low threshold is within one cell of the share of its symbol. */
  lemma {:induction false} ScaledNear(c: nat, total: nat, L: nat)
    requires 1 < total < 0x1_0000_0000 && L <= BYTE_LIMITS.maxTableLog && c > Shr(total, L)
    ensures var p := ScaledAt(c, total, L);
            && p > 0 && Near(p, c, total, 0x4000_0000_0000_0000, 62 - L)
            && Mul(p, total) < Shl(c, L) + total
            && (Mul(c, total) <= Pow2(62 - L) ==> Shl(c, L) <= Mul(p + 1, total))
  {
    hide Mul, Div, Shl, Shr, Pow2;
    var step, v := Div(0x4000_0000_0000_0000, total), 62 - L;
    var x := Mul(c, step);
    var q := Shr(x, v);
    Split(x, v);
    ScaledAtSign(c, total, L);
    Rounding(c, step, v, q);
    ShlAdd(q, 1, v);
    ShlAdd(q + 1, 1, v);
    ShlOne(v);
    var p := ScaledAt(c, total, L);
    NearBy(p, c, total, 0x4000_0000_0000_0000, v, step);
    WholeTable(c, L);
    assert Mul(p, total) < Shl(c, L) + total by {
      ShlAdd(Shl(c, L), total, v);
      ShlBelow(Mul(p, total), Shl(c, L) + total, v);
    }
    if Mul(c, total) <= Pow2(v) {
      ShlAdd(Mul(p + 1, total), 1, v);
      ShlBelow(Shl(c, L), Mul(p + 1, total) + 1, v);
    }
  }

  lemma {:induction false} WholeTable(c: nat, L: nat)
    requires L <= 62
    ensures Mul(c, 0x4000_0000_0000_0000) == Shl(Shl(c, L), 62 - L)
  {
    hide Mul, Shl;
    Pow62();
    ShlShl(c, L, 62 - L);
    MulIsShl(c, 62);
    MulSwap(c, Pow2(62));
  }

  lemma {:induction false} Pow62()
    ensures Pow2(62) == 0x4000_0000_0000_0000
  {
    hide Pow2, Shl;
    SmallPowers();
    Pow2IsShl(8, 8);
    ShlByte(256);
    Pow2IsShl(16, 8);
    ShlByte(0x1_0000);
    Pow2IsShl(24, 8);
    ShlByte(0x100_0000);
    Pow2IsShl(32, 8);
    ShlByte(0x1_0000_0000);
    Pow2IsShl(40, 8);
    ShlByte(0x100_0000_0000);
    Pow2IsShl(48, 8);
    ShlByte(0x1_0000_0000_0000);
    PowNext(56);
    PowNext(57);
    PowNext(58);
    PowNext(59);
    PowNext(60);
    PowNext(61);
  }

  /** A counter of the first method, before the correction. */
  ghost predicate FirstShare(p: int, c: nat, total: nat, L: nat)
    requires L <= 62
  {
    && (p == 0 <==> c == 0) && (p == -1 <==> 0 < c <= Shr(total, L))
    && (c > Shr(total, L) ==> p > 0 && Mul(p, total) < Shl(c, L) + total && Near(p, c, total, 0x4000_0000_0000_0000, 62 - L))
  }

  /**
    The first method: every counter is within one cell of its share, except that the first largest one takes what
    is left over or given out too much, and keeps more than half of its cells.
   */
  ghost predicate FirstWay(norm: seq<int>, a: seq<int>, m: nat, count: seq<nat>, L: nat)
    requires L <= 62
  {
    && m < |a| == |norm| == |count| && norm == a[m := norm[m]]
    && (forall s | 0 <= s < |count| :: FirstShare(a[s], count[s], SumCount(count, |count|), L))
    && (forall s | 0 <= s < |count| :: a[s] <= a[m])
    && (forall s | 0 <= s < m :: a[s] < a[m])
    && FreqSum(a, |a|) + norm[m] - a[m] == Pow2(L) && norm[m] + norm[m] > a[m] + 1
  }

  // ---------- the second method ----------

  /** The undecided symbols share what is left within one cell. */
  ghost predicate LeftShared(norm: seq<int>, marks: seq<int>, count: seq<nat>, L: nat)
    requires |norm| == |marks| == |count| && L <= 61
  {
    var rest := Pow2(L) - Assigned(marks, |marks|);
    && rest >= 0
    && forall s | 0 <= s < |count| ::
         if marks[s] == NOT_YET_ASSIGNED
         then norm[s] > 0 && Near(norm[s], count[s], Pending(marks, count, |marks|), Shl(rest, 62 - L) + Pow2(61 - L) - 1, 62 - L)
         else norm[s] == marks[s]
  }

  /**
    The second method: symbols up to a threshold have a single cell. If that leaves nobody, all the rest goes to the
    first most frequent symbol when the whole alphabet is in use; otherwise it is spread as evenly as can be, from
    the first symbol on, over those that are not improbable. If it leaves somebody, they share it in proportion.
   */
  ghost predicate SecondWay(norm: seq<int>, one: nat, m: nat, count: seq<nat>, L: nat)
    requires L <= 61
  {
    var low := Shr(SumCount(count, |count|), L);
    var marks := Marks(count, low, one);
    && m < |count| == |norm|
    && if forall s | 0 <= s < |count| :: 0 < count[s] && (count[s] <= one || count[s] <= low) then
         RestToOne(norm, marks, count, m)
       else if forall s | 0 <= s < |count| :: count[s] <= one || count[s] <= low then
         EvenlySpread(norm, marks, count, low)
       else
         LeftShared(norm, marks, count, L)
  }

  /** Every symbol has a single cell, but `m`, the first most frequent one. */
  ghost predicate RestToOne(norm: seq<int>, marks: seq<int>, count: seq<nat>, m: nat)
    requires m < |norm| == |marks| == |count|
  {
    && (forall s | 0 <= s < |count| :: count[s] <= count[m] && (s < m ==> count[s] < count[m]))
    && (forall s | 0 <= s < |count| && s != m :: norm[s] == marks[s])
  }

  /** The symbols above the low threshold have the same number of cells, the first ones perhaps one more. */
  ghost predicate EvenlySpread(norm: seq<int>, marks: seq<int>, count: seq<nat>, low: nat)
    requires |norm| == |marks| == |count|
  {
    && (forall s | 0 <= s < |count| && count[s] <= low :: norm[s] == marks[s])
    && (forall s, t | 0 <= s < t < |count| && count[s] > low && count[t] > low :: norm[t] <= norm[s] <= norm[t] + 1)
  }

  lemma {:induction false} ShareNear(marks: seq<int>, count: seq<nat>, rest: nat, v: nat, s: nat)
    requires s < |marks| == |count| && Pending(marks, count, |marks|) > 0 && v > 0
    requires marks[s] == NOT_YET_ASSIGNED && count[s] > 0
    requires UpTo(marks, count, s, rest, v) < UpTo(marks, count, s + 1, rest, v)
    ensures Near(ShareAt(marks, count, rest, v, s), count[s], Pending(marks, count, |marks|), Shl(rest, v) + Pow2(v - 1) - 1, v)
  {
    hide Mul, Div, Shl, Shr, Pow2, Near;
    var all := Shl(rest, v) + (Pow2(v - 1) - 1);
    var step := Div(all, Pending(marks, count, |marks|));
    var x := Pow2(v - 1) - 1 + Mul(Pending(marks, count, s), step);
    MulAdd(Pending(marks, count, s), count[s], step);
    var y := x + Mul(count[s], step);
    Split(x, v);
    Split(y, v);
    var w := Shr(y, v) - Shr(x, v);
    ShlAdd(Shr(x, v), w, v);
    ShlAdd(w, 1, v);
    ShlOne(v);
    NearBy(w, count[s], Pending(marks, count, |marks|), all, v, step);
  }

  lemma {:induction false} OnesMono(marks: seq<int>, a: nat, b: nat)
    requires a <= b <= |marks|
    ensures Ones(marks, a) <= Ones(marks, b)
    decreases b
  {
    if a < b { OnesMono(marks, a, b - 1); }
  }

  lemma {:induction false} EvenOrder(marks: seq<int>, rest: nat, s: nat, t: nat)
    requires Ones(marks, |marks|) > 0 && s < t < |marks| && marks[s] == 1 && marks[t] == 1
    ensures EvenAt(marks, rest, t) <= EvenAt(marks, rest, s) <= EvenAt(marks, rest, t) + 1
  {
    hide Mul, Div, Ones;
    OnesMono(marks, s, t);
  }

  lemma {:induction false} SpreadEvenly(marks: seq<int>, one: nat, low: nat, count: seq<nat>, rest: nat)
    requires marks == Marks(count, low, one) && Ones(marks, |marks|) > 0
    requires forall s | 0 <= s < |count| :: marks[s] != NOT_YET_ASSIGNED
    ensures EvenlySpread(Evenly(marks, rest), marks, count, low)
  {
    hide Ones, EvenAt;
    forall s, t | 0 <= s < t < |count| && count[s] > low && count[t] > low
      ensures EvenAt(marks, rest, t) <= EvenAt(marks, rest, s) <= EvenAt(marks, rest, t) + 1
    {
      assert marks[s] == 1 && marks[t] == 1;
      EvenOrder(marks, rest, s, t);
    }
    EvenElse(marks, rest);
  }

  lemma {:induction false} SharedLeft(marks: seq<int>, one: nat, low: nat, count: seq<nat>, L: nat, rest: nat)
    requires marks == Marks(count, low, one) && L <= BYTE_LIMITS.maxTableLog && Assigned(marks, |marks|) + rest == Pow2(L)
    requires Pending(marks, count, |marks|) > 0 && Shares(marks, count, rest, 62 - L).Some?
    ensures LeftShared(Shares(marks, count, rest, 62 - L).value, marks, count, L)
  {
    hide Shl, Pow2, Assigned, Pending, UpTo, Near;
    var v := 62 - L;
    forall s | 0 <= s < |count| && marks[s] == NOT_YET_ASSIGNED
      ensures ShareAt(marks, count, rest, v, s) > 0
      ensures Near(ShareAt(marks, count, rest, v, s), count[s], Pending(marks, count, |marks|), Shl(rest, v) + Pow2(v - 1) - 1, v)
    {
      ShareNear(marks, count, rest, v, s);
    }
  }

  lemma {:induction false} LastStepWay(marks: seq<int>, one: nat, count: seq<nat>, L: nat, rest: nat)
    requires Normalizable(count, L) && marks == Marks(count, Shr(SumCount(count, |count|), L), one)
    requires Assigned(marks, |marks|) + rest == Pow2(L)
    requires Pending(marks, count, |marks|) == 0 ==> Ones(marks, |marks|) > 0
    requires LastStep(marks, count, rest, 62 - L).Some?
    ensures SecondWay(LastStep(marks, count, rest, 62 - L).value, one, FirstMax(count), count, L)
  {
    hide Shr, Pow2, SumCount, MinTableLog, Assigned, Pending, Ones, Used, Evenly, Shares, EvenlySpread, LeftShared;
    var low := Shr(SumCount(count, |count|), L);
    MarksAssigned(count, low, one, |count|);
    UsedAll(count, |count|);
    if Pending(marks, count, |marks|) == 0 {
      forall s | 0 <= s < |count| ensures count[s] <= one || count[s] <= low { assert marks[s] != NOT_YET_ASSIGNED; }
      SpreadEvenly(marks, one, low, count, rest);
    } else {
      var s :| 0 <= s < |count| && marks[s] == NOT_YET_ASSIGNED;
      assert !(count[s] <= one || count[s] <= low);
      SharedLeft(marks, one, low, count, L, rest);
    }
  }

  lemma {:induction false} EvenElse(marks: seq<int>, rest: nat)
    requires Ones(marks, |marks|) > 0
    ensures forall s | 0 <= s < |marks| && marks[s] != 1 :: EvenAt(marks, rest, s) == marks[s]
  {
  }

  lemma {:induction false} UsedAll(count: seq<nat>, n: nat)
    requires n <= |count|
    ensures Used(count, n) <= n
    ensures Used(count, n) == n <==> forall k | 0 <= k < n :: count[k] > 0
  {
    if n > 0 { UsedAll(count, n - 1); }
  }

  /** Every normalization goes one of the two ways. */
  lemma {:induction false} NormalizationShares(count: seq<nat>, L: nat)
    requires Normalizable(count, L) && Normalization(count, L).Some?
    ensures var norm := Normalization(count, L).value;
            || FirstWay(norm, Scaled(count, L), FirstMax(Scaled(count, L)), count, L)
            || SecondWay(norm, SingleCell(count, L), FirstMax(count), count, L)
  {
    hide Shr, Pow2, SumCount, MinTableLog, ScaledAt, FirstShare, SecondWay, SingleCell, LastStep, Assigned, Pending, Ones, FreqSum;
    var total := SumCount(count, |count|);
    var a := Scaled(count, L);
    var m := FirstMax(a);
    forall s | 0 <= s < |count| ensures FirstShare(a[s], count[s], total, L) {
      FirstShareAt(count[s], total, L);
    }
    if a[m] + Pow2(L) - FreqSum(a, |a|) + Pow2(L) - FreqSum(a, |a|) <= 1 {
      MarksFit(count, L, SingleCell(count, L));
      var marks := Marks(count, Shr(total, L), SingleCell(count, L));
      LastStepWay(marks, SingleCell(count, L), count, L, Pow2(L) - Assigned(marks, |marks|));
    }
  }

  lemma {:induction false} FirstShareAt(c: nat, total: nat, L: nat)
    requires 1 < total < 0x1_0000_0000 && L <= BYTE_LIMITS.maxTableLog
    ensures FirstShare(ScaledAt(c, total, L), c, total, L)
  {
    hide Shr, Shl, Mul, Near, ScaledAt, Pow2;
    ScaledAtSign(c, total, L);
    if c > Shr(total, L) { ScaledNear(c, total, L); }
  }

  // ---------- an example ----------

  lemma {:induction false} Pow57()
    ensures Pow2(57) == 0x200_0000_0000_0000 && Pow2(37) == 0x20_0000_0000 && Pow2(5) == 32
  {
    hide Pow2, Shl;
    SmallPowers();
    PowNext(4);
    Pow2IsShl(8, 8);
    ShlByte(256);
    Pow2IsShl(16, 8);
    ShlByte(0x1_0000);
    Pow2IsShl(24, 8);
    ShlByte(0x100_0000);
    PowNext(32);
    PowNext(33);
    PowNext(34);
    PowNext(35);
    PowNext(36);
    Pow62();
    PowNext(57);
    PowNext(58);
    PowNext(59);
    PowNext(60);
    PowNext(61);
  }

  /** A share of 3.2 cells gets 3, one of 28.8 cells gets 28 and the cell that is left over. */
  lemma {:induction false} TenthAndRest()
    ensures var count: seq<nat> := [100, 900];
            Normalizable(count, 5) && Normalization(count, 5) == Some([3, 29])
  {
    hide Mul, Div, Shl, Shr, Pow2, MinTableLog, Probability, HighBit;
    var count: seq<nat> := [100, 900];
    var step := 4611686018427387;
    assert SumCount(count, 2) == 1000 by { assert SumCount(count, 1) == 100; }
    RoomFor1000();
    Quotient1000();
    Pow57();
    assert Shr(1000, 5) == 31 by {
      MulIsShl(31, 5);
      Product(32, 31);
      Join(8, 31, 5);
    }
    assert Probability(100, step, 57) == 3 by {
      Product(100, step);
      MulIsShl(3, 57);
      Product(0x200_0000_0000_0000, 3);
      Rounding(100, step, 57, 3);
      Product(520860, 0x20_0000_0000);
    }
    assert Probability(900, step, 57) == 28 by {
      Product(900, step);
      MulIsShl(28, 57);
      Product(0x200_0000_0000_0000, 28);
      Rounding(900, step, 57, 28);
    }
    var a := Scaled(count, 5);
    assert a == [3, 28];
    assert FreqSum(a, 2) == 31 by { assert FreqSum(a, 1) == 3; }
    assert FirstMax(a) == 1;
    assert a[1 := 29] == [3, 29];
  }

  lemma {:induction false} Product(a: nat, b: nat)
    ensures Mul(a, b) == a * b
  {
  }

  lemma {:induction false} Quotient1000()
    ensures Div(0x4000_0000_0000_0000, 1000) == 4611686018427387
  {
  }

  lemma {:induction false} RoomFor1000()
    ensures MinTableLog(1000, 1) == 2
  {
    hide Pow2, HighBit;
    SmallPowers();
    PowNext(0);
    PowNext(8);
    assert Pow2(0) == 1;
    HighBitUnique(1, 0);
    HighBitUnique(1000, 9);
  }
}
