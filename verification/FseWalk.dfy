/**
  The spreading walk of FSE: position 0, then repeated odd steps modulo the table size. It visits every
  cell exactly once and is back at 0 after `Pow2(L)` steps.
 */
module FseWalk {
  import opened Bits

  /** FSE_TABLESTEP. */
  function TableStep(tableSize: nat): nat {
    Shr(tableSize, 1) + Shr(tableSize, 3) + 3
  }

  function Times(step: nat, w: nat): nat {
    if w == 0 then 0 else step + Times(step, w - 1)
  }

  /** Position after `w` steps. */
  function Pos(L: nat, step: nat, w: nat): nat {
    Low(Times(step, w), L)
  }

  /** How many of the first `w` positions are at or below `high`. */
  function Rank(L: nat, step: nat, high: int, w: nat): nat {
    if w == 0 then 0
    else Rank(L, step, high, w - 1) + (if Pos(L, step, w - 1) <= high then 1 else 0)
  }

  lemma {:induction false} StepIsOdd(L: nat)
    requires L >= 5
    ensures Odd(TableStep(Pow2(L))) == 1 && TableStep(Pow2(L)) < Pow2(L)
  {
    var p := Pow2(0);
    assert Shl(p, L) == Pow2(L) && Shl(p, L - 1) == Pow2(L - 1) && Shl(p, L - 3) == Pow2(L - 3)
      && Shl(p, L - 4) == Pow2(L - 4) by {
      Pow2IsShl(0, L);
      Pow2IsShl(0, L - 1);
      Pow2IsShl(0, L - 3);
      Pow2IsShl(0, L - 4);
    }
    ShrShl(p, L, 1);
    ShrShl(p, L, 3);
    Pow2Mono(5, L);
    SmallPowers();
    assert Pow2(L - 1) == Pow2(L - 2) + Pow2(L - 2) && Pow2(L - 2) == Pow2(L - 3) + Pow2(L - 3);
    assert Pow2(L - 3) == Pow2(L - 4) + Pow2(L - 4) && Pow2(L - 4) == Pow2(L - 5) + Pow2(L - 5);
    HalfUnique(TableStep(Pow2(L)), Pow2(L - 2) + Pow2(L - 4) + 1);
  }

  /** One step of the walk is one masked addition. */
  lemma {:induction false} PosNext(L: nat, step: nat, w: nat)
    ensures Low(Pos(L, step, w) + step, L) == Pos(L, step, w + 1)
  {
    LowPlus(Times(step, w), step, L);
  }

  lemma {:induction false} LowPlus(a: nat, b: nat, n: nat)
    ensures Low(Low(a, n) + b, n) == Low(a + b, n)
  {
    hide Half, Odd, Low;
    NoBits(Low(a, n) + b, a + b);
    if n > 0 {
      var c := Half(Odd(a) + b);
      LowPlus(Half(a), c, n - 1);
      LowHalves(a, b, n, c);
    }
  }

  lemma {:induction false} NoBits(a: nat, b: nat)
    ensures Low(a, 0) == Low(b, 0)
  {
  }

  lemma {:induction false} LowHalves(a: nat, b: nat, n: nat, c: nat)
    requires n > 0 && c == Half(Odd(a) + b)
    requires Low(Low(Half(a), n - 1) + c, n - 1) == Low(Half(a) + c, n - 1)
    ensures Low(Low(a, n) + b, n) == Low(a + b, n)
  {
    hide Half, Odd, Low;
    HalfOfLow(a, n);
    LowUnfold(Low(a, n) + b, n);
    LowUnfold(a + b, n);
    HalfOfSum(a, b);
    HalfOfSum(Low(a, n), b);
  }

  lemma {:induction false} LowUnfold(x: nat, n: nat)
    requires n > 0
    ensures Low(x, n) == Odd(x) + Low(Half(x), n - 1) + Low(Half(x), n - 1)
  {
  }

  lemma {:induction false} TimesDouble(step: nat, k: nat)
    ensures Times(step, k + k) == Times(step, k) + Times(step, k)
  {
    TimesSum(step, k, k);
  }

  lemma {:induction false} TimesParity(step: nat, w: nat)
    requires Odd(step) == 1
    ensures Odd(Times(step, w)) == Odd(w)
  {
    if w > 0 {
      TimesParity(step, w - 1);
      OddSum(step, Times(step, w - 1));
      OddSum(1, w - 1);
    }
  }

  lemma {:induction false} TimesSum(step: nat, a: nat, b: nat)
    ensures Times(step, a + b) == Times(step, a) + Times(step, b)
  {
    if b > 0 { TimesSum(step, a, b - 1); }
  }

  /** The walk does not return to 0 before a full turn. */
  lemma {:induction false} NoEarlyReturn(L: nat, step: nat, w: nat)
    requires Odd(step) == 1
    requires 0 < w < Pow2(L)
    ensures Pos(L, step, w) != 0
  {
    if L > 0 && Odd(w) == 0 {
      var h := Half(w);
      TimesDouble(step, h);
      HalfUnique(Times(step, w), Times(step, h));
      NoEarlyReturn(L - 1, step, h);
    } else if L > 0 {
      TimesParity(step, w);
    }
  }

  lemma {:induction false} FullTurn(L: nat, step: nat)
    ensures Pos(L, step, Pow2(L)) == 0
  {
    if L > 0 {
      var t := Times(step, Pow2(L - 1));
      TimesDouble(step, Pow2(L - 1));
      HalfUnique(t + t, t);
      FullTurn(L - 1, step);
    }
  }

  lemma {:induction false} LowDiff(a: nat, d: nat, n: nat)
    requires Low(a, n) == Low(a + d, n)
    ensures Low(d, n) == 0
  {
    if n > 0 {
      HalfOfLow(a, n);
      HalfOfLow(a + d, n);
      OddSum(a, d);
      HalfUnique(a + d, Half(a) + Half(d));
      LowDiff(Half(a), Half(d), n - 1);
    }
  }

  /** No cell is visited twice in one turn. */
  lemma {:induction false} PosInjective(L: nat, step: nat, i: nat, j: nat)
    requires Odd(step) == 1
    requires i < j < Pow2(L)
    ensures Pos(L, step, i) != Pos(L, step, j)
  {
    hide Low, Times, Odd, Pow2;
    if Pos(L, step, i) == Pos(L, step, j) {
      TimesSum(step, i, j - i);
      LowDiff(Times(step, i), Times(step, j - i), L);
      NoEarlyReturn(L, step, j - i);
    }
  }

  lemma {:induction false} PosBound(L: nat, step: nat, w: nat)
    ensures Pos(L, step, w) < Pow2(L)
  {
    Split(Times(step, w), L);
  }

  // ---------- every cell is visited ----------

  /** The cells below `n`. */
  ghost function Cells(n: nat): set<nat> {
    if n == 0 then {} else Cells(n - 1) + {n - 1}
  }

  lemma {:induction false} CellsHas(n: nat, c: nat)
    ensures c in Cells(n) <==> c < n
  {
    if n > 0 { CellsHas(n - 1, c); }
  }

  lemma {:induction false} CellsCount(n: nat)
    ensures |Cells(n)| == n
  {
    if n > 0 {
      CellsCount(n - 1);
      CellsHas(n - 1, n - 1);
    }
  }

  /** Positions at or below `high` visited in the first `w` steps. */
  ghost function Visited(L: nat, step: nat, high: int, w: nat): set<nat> {
    if w == 0 then {}
    else
      var p := Pos(L, step, w - 1);
      Visited(L, step, high, w - 1) + (if p <= high then {p} else {})
  }

  lemma {:induction false} VisitedHas(L: nat, step: nat, high: int, w: nat, c: nat)
    ensures c in Visited(L, step, high, w) <==> c <= high && exists i: nat :: i < w && Pos(L, step, i) == c
  {
    if w > 0 {
      VisitedHas(L, step, high, w - 1, c);
      if c == Pos(L, step, w - 1) { assert w - 1 < w && Pos(L, step, w - 1) == c; }
    }
  }

  lemma {:induction false} NewPosition(L: nat, step: nat, high: int, w: nat)
    requires Odd(step) == 1 && w < Pow2(L)
    ensures Pos(L, step, w) !in Visited(L, step, high, w)
  {
    hide Pos, Odd, Pow2, Visited;
    var p := Pos(L, step, w);
    VisitedHas(L, step, high, w, p);
    forall i: nat | i < w ensures Pos(L, step, i) != p { PosInjective(L, step, i, w); }
  }

  lemma {:induction false} VisitedCount(L: nat, step: nat, high: int, w: nat)
    requires Odd(step) == 1
    requires w <= Pow2(L)
    ensures |Visited(L, step, high, w)| == Rank(L, step, high, w)
  {
    hide Pos, Odd, Pow2;
    if w > 0 {
      NewPosition(L, step, high, w - 1);
      VisitedCount(L, step, high, w - 1);
      OneMore(Visited(L, step, high, w - 1), Pos(L, step, w - 1));
    }
  }

  lemma {:induction false} OneMore(s: set<nat>, p: nat)
    ensures p !in s ==> |s + {p}| == |s| + 1
  {
  }

  lemma {:induction false} RankAll(L: nat, step: nat, high: int, w: nat)
    requires high + 1 >= Pow2(L)
    ensures Rank(L, step, high, w) == w
  {
    if w > 0 {
      RankAll(L, step, high, w - 1);
      PosBound(L, step, w - 1);
    }
  }

  lemma {:induction false} SubsetSameSize<T>(a: set<T>, b: set<T>)
    requires a <= b && |a| == |b|
    ensures a == b
  {
    if x :| x in b && x !in a {
      assert a <= b - {x};
      SubsetSize(a, b - {x});
    }
  }

  lemma {:induction false} SubsetSize<T>(a: set<T>, b: set<T>)
    requires a <= b
    ensures |a| <= |b|
  {
    assert b == a + (b - a);
  }

  /** The walk reaches every cell. */
  lemma {:induction false} PosOnto(L: nat, step: nat, c: nat) returns (w: nat)
    requires Odd(step) == 1
    requires c < Pow2(L)
    ensures w < Pow2(L) && Pos(L, step, w) == c
  {
    hide Pos, Odd, Cells, Visited, Pow2;
    var n := Pow2(L);
    VisitedCount(L, step, n - 1, n);
    RankAll(L, step, n - 1, n);
    CellsCount(n);
    forall x | x in Visited(L, step, n - 1, n) ensures x in Cells(n) {
      VisitedHas(L, step, n - 1, n, x);
      CellsHas(n, x);
    }
    SubsetSameSize(Visited(L, step, n - 1, n), Cells(n));
    CellsHas(n, c);
    VisitedHas(L, step, n - 1, n, c);
    w :| w < n && Pos(L, step, w) == c;
  }

  /** A full turn meets exactly the `high + 1` cells at or below `high`. */
  lemma {:induction false} RankFull(L: nat, step: nat, high: int)
    requires Odd(step) == 1
    requires -1 <= high < Pow2(L)
    ensures Rank(L, step, high, Pow2(L)) == high + 1
  {
    hide Odd, Pow2, Rank, Visited, Cells, Pos;
    var n := Pow2(L);
    VisitedCount(L, step, high, n);
    CellsCount(high + 1);
    forall x: nat ensures x in Visited(L, step, high, n) <==> x in Cells(high + 1) {
      VisitedHas(L, step, high, n, x);
      CellsHas(high + 1, x);
      if x <= high { var w := PosOnto(L, step, x); }
    }
    assert Visited(L, step, high, n) == Cells(high + 1);
  }

  lemma {:induction false} RankMono(L: nat, step: nat, high: int, i: nat, j: nat)
    requires i <= j
    ensures Rank(L, step, high, i) <= Rank(L, step, high, j)
    decreases j
  {
    if i < j { RankMono(L, step, high, i, j - 1); }
  }
}
