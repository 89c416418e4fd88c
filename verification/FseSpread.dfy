/**
  Normalized counters and the spread of symbols over the FSE state table, shared by the encoder and the
  decoder. A spread is described cell by cell, independently of the loops that fill it.
 */
module FseSpread {
  import opened Bits
  import opened FseWalk

  const MIN_TABLELOG := 5
  const TABLELOG_ABSOLUTE_MAX := 15

  /** Limits of one instantiation of the table builders: FSE_MAX_SYMBOL_VALUE and FSE_MAX_TABLELOG. */
  datatype Limits = Limits(maxSymbolValue: nat, maxTableLog: nat)

  const BYTE_LIMITS := Limits(255, 12)
  const U16_LIMITS := Limits(286, 13)

  /** The larger of the two table logs. */
  const MAX_TABLELOG := 13

  /** Number of cells of a symbol: a counter of -1 marks a low-probability symbol with one cell. */
  function Freq(x: int): nat {
    if x < 0 then -x else x
  }

  function FreqSum(norm: seq<int>, n: nat): nat
    requires n <= |norm|
  {
    if n == 0 then 0 else FreqSum(norm, n - 1) + Freq(norm[n - 1])
  }

  /** Cells taken by the regular symbols below `n`. */
  function PosSum(norm: seq<int>, n: nat): nat
    requires n <= |norm|
  {
    if n == 0 then 0 else PosSum(norm, n - 1) + (if norm[n - 1] > 0 then norm[n - 1] else 0)
  }

  /** Number of low-probability symbols below `n`. */
  function LowSum(norm: seq<int>, n: nat): nat
    requires n <= |norm|
  {
    if n == 0 then 0 else LowSum(norm, n - 1) + (if norm[n - 1] == -1 then 1 else 0)
  }

  ghost predicate NormOk(norm: seq<int>, L: nat) {
    && L >= MIN_TABLELOG
    && |norm| > 0
    && (forall s | 0 <= s < |norm| :: norm[s] >= -1)
    && FreqSum(norm, |norm|) == Pow2(L)
  }

  /** Highest cell left to regular symbols. */
  function High(norm: seq<int>, L: nat): int {
    Pow2(L) - 1 - LowSum(norm, |norm|)
  }

  /** The `r`-th regular cell, in walk order, belongs to symbol `s`. */
  ghost predicate InSlot(norm: seq<int>, s: nat, r: nat) {
    s < |norm| && PosSum(norm, s) <= r < PosSum(norm, s + 1)
  }

  /**
    Low-probability symbols fill the table from the top; the regular symbols take their cells in symbol
    order along the walk.
   */
  ghost predicate IsSpread(t: seq<nat>, norm: seq<int>, L: nat) {
    var size := Pow2(L);
    var step := TableStep(size);
    && |t| == size
    && (forall w: nat | w < size && Pos(L, step, w) <= High(norm, L) ::
          Pos(L, step, w) < size && InSlot(norm, t[Pos(L, step, w)], Rank(L, step, High(norm, L), w)))
    && LowLaid(t, norm, |norm|)
  }

  ghost predicate LowLaid(t: seq<nat>, norm: seq<int>, n: nat)
    requires n <= |norm|
  {
    forall s: nat | s < n && norm[s] == -1 ::
      0 <= |t| - 1 - LowSum(norm, s) && t[|t| - 1 - LowSum(norm, s)] == s
  }

  // ---------- sums ----------

  lemma {:induction false} SumParts(norm: seq<int>, n: nat)
    requires n <= |norm|
    requires forall s | 0 <= s < |norm| :: norm[s] >= -1
    ensures FreqSum(norm, n) == PosSum(norm, n) + LowSum(norm, n)
  {
    if n > 0 { SumParts(norm, n - 1); }
  }

  lemma {:induction false} FreqSumSame(a: seq<int>, b: seq<int>, n: nat)
    requires n <= |a| && n <= |b| && forall k | 0 <= k < n :: a[k] == b[k]
    ensures FreqSum(a, n) == FreqSum(b, n)
  {
    if n > 0 { FreqSumSame(a, b, n - 1); }
  }

  lemma {:induction false} SumMono(norm: seq<int>, a: nat, b: nat)
    requires a <= b <= |norm|
    ensures FreqSum(norm, a) <= FreqSum(norm, b)
    ensures PosSum(norm, a) <= PosSum(norm, b)
    ensures LowSum(norm, a) <= LowSum(norm, b)
    decreases b
  {
    if a < b { SumMono(norm, a, b - 1); }
  }

  lemma {:induction false} SlotUnique(norm: seq<int>, s: nat, t: nat, r: nat)
    requires InSlot(norm, s, r) && InSlot(norm, t, r)
    ensures s == t
  {
    if s < t { SumMono(norm, s + 1, t); }
    if t < s { SumMono(norm, t + 1, s); }
  }

  lemma {:induction false} HighBounds(norm: seq<int>, L: nat)
    requires NormOk(norm, L)
    ensures -1 <= High(norm, L) < Pow2(L)
    ensures High(norm, L) + 1 == PosSum(norm, |norm|)
  {
    SumParts(norm, |norm|);
  }

  // ---------- the spread is determined by the counters ----------

  /** The n-th low-probability cell from the top has an owner. */
  lemma {:induction false} LowOwner(norm: seq<int>, n: nat, k: nat) returns (s: nat)
    requires n <= |norm| && k < LowSum(norm, n)
    ensures s < n && norm[s] == -1 && LowSum(norm, s) == k
  {
    if norm[n - 1] == -1 && LowSum(norm, n - 1) == k {
      s := n - 1;
    } else {
      s := LowOwner(norm, n - 1, k);
    }
  }

  /** The encoder's and the decoder's spread are the same table. */
  lemma {:induction false} SpreadUnique(t: seq<nat>, t': seq<nat>, norm: seq<int>, L: nat)
    requires NormOk(norm, L)
    requires IsSpread(t, norm, L) && IsSpread(t', norm, L)
    ensures t == t'
  {
    var size, step, high := Pow2(L), TableStep(Pow2(L)), High(norm, L);
    StepIsOdd(L);
    forall c | 0 <= c < size ensures t[c] == t'[c] {
      if c <= high {
        var w := PosOnto(L, step, c);
        SlotUnique(norm, t[c], t'[c], Rank(L, step, high, w));
      } else {
        var s := LowOwner(norm, |norm|, size - 1 - c);
      }
    }
  }

  // ---------- each symbol gets exactly its number of cells ----------

  /** Occurrences of `s` among the first `n` cells. */
  function Occ(t: seq<nat>, n: nat, s: nat): nat
    requires n <= |t|
  {
    if n == 0 then 0 else Occ(t, n - 1, s) + (if t[n - 1] == s then 1 else 0)
  }

  lemma {:induction false} OccPositive(src: seq<nat>, n: nat, i: nat)
    requires i < n <= |src|
    ensures Occ(src, n, src[i]) > 0
  {
    if i < n - 1 { OccPositive(src, n - 1, i); }
  }

  lemma {:induction false} OccHas(src: seq<nat>, n: nat, s: nat) returns (i: nat)
    requires n <= |src| && Occ(src, n, s) > 0
    ensures i < n && src[i] == s
  {
    if src[n - 1] == s { i := n - 1; } else { i := OccHas(src, n - 1, s); }
  }

  ghost function CellsOf(t: seq<nat>, n: nat, s: nat): set<nat>
    requires n <= |t|
  {
    if n == 0 then {} else CellsOf(t, n - 1, s) + (if t[n - 1] == s then {n - 1} else {})
  }

  lemma {:induction false} CellsOfHas(t: seq<nat>, n: nat, s: nat, c: nat)
    requires n <= |t|
    ensures c in CellsOf(t, n, s) <==> c < n && t[c] == s
  {
    if n > 0 { CellsOfHas(t, n - 1, s, c); }
  }

  lemma {:induction false} CellsOfStep(t: seq<nat>, n: nat, s: nat)
    requires n <= |t|
    ensures n == 0 ==> |CellsOf(t, n, s)| == Occ(t, n, s) == 0
    ensures n > 0 && t[n - 1] == s ==>
              CellsOf(t, n, s) == CellsOf(t, n - 1, s) + {n - 1} && Occ(t, n, s) == Occ(t, n - 1, s) + 1
    ensures n > 0 && t[n - 1] != s ==>
              CellsOf(t, n, s) == CellsOf(t, n - 1, s) && Occ(t, n, s) == Occ(t, n - 1, s)
  {
  }

  lemma {:induction false} CellsOfCount(t: seq<nat>, n: nat, s: nat)
    requires n <= |t|
    ensures |CellsOf(t, n, s)| == Occ(t, n, s)
  {
    hide CellsOf, Occ;
    CellsOfStep(t, n, s);
    if n > 0 {
      CellsOfCount(t, n - 1, s);
      CellsOfHas(t, n - 1, s, n - 1);
      OneMore(CellsOf(t, n - 1, s), n - 1);
    }
  }

  /** Cells given to `s` in the first `w` steps of the walk. */
  ghost function Placed(norm: seq<int>, L: nat, s: nat, w: nat): set<nat> {
    if w == 0 then {}
    else
      var step, high := TableStep(Pow2(L)), High(norm, L);
      Placed(norm, L, s, w - 1)
      + (if Pos(L, step, w - 1) <= high && InSlot(norm, s, Rank(L, step, high, w - 1))
         then {Pos(L, step, w - 1)} else {})
  }

  lemma {:induction false} PlacedHas(norm: seq<int>, L: nat, s: nat, w: nat, c: nat)
    ensures c in Placed(norm, L, s, w) <==>
            exists i: nat :: i < w && Pos(L, TableStep(Pow2(L)), i) == c && c <= High(norm, L)
                  && InSlot(norm, s, Rank(L, TableStep(Pow2(L)), High(norm, L), i))
  {
    if w > 0 {
      PlacedHas(norm, L, s, w - 1, c);
      if c == Pos(L, TableStep(Pow2(L)), w - 1) { assert w - 1 < w; }
    }
  }

  /** One more step of the walk gives `s` a new cell, or none. */
  lemma {:induction false} PlacedNext(norm: seq<int>, L: nat, s: nat, w: nat)
    requires L >= MIN_TABLELOG && w < Pow2(L)
    ensures var step, high := TableStep(Pow2(L)), High(norm, L);
            |Placed(norm, L, s, w + 1)| == |Placed(norm, L, s, w)|
                                           + (if Pos(L, step, w) <= high && InSlot(norm, s, Rank(L, step, high, w)) then 1 else 0)
  {
    hide Pow2, TableStep, Pos, High, Rank, InSlot;
    var step := TableStep(Pow2(L));
    var p := Pos(L, step, w);
    StepIsOdd(L);
    PlacedHas(norm, L, s, w, p);
    forall i: nat | i < w ensures Pos(L, step, i) != p { PosInjective(L, step, i, w); }
    OneMore(Placed(norm, L, s, w), p);
  }

  lemma {:induction false} PlacedNone(norm: seq<int>, L: nat, s: nat)
    ensures Placed(norm, L, s, 0) == {} && Rank(L, TableStep(Pow2(L)), High(norm, L), 0) == 0
  {
  }

  /** The symbols before `s` are served first, then `s` itself, and then the others. */
  lemma {:induction false} PlacedCount(norm: seq<int>, L: nat, s: nat, w: nat)
    requires NormOk(norm, L) && s < |norm|
    requires w <= Pow2(L)
    ensures var r := Rank(L, TableStep(Pow2(L)), High(norm, L), w);
            |Placed(norm, L, s, w)| ==
            if r <= PosSum(norm, s) then 0
            else if r <= PosSum(norm, s + 1) then r - PosSum(norm, s)
            else PosSum(norm, s + 1) - PosSum(norm, s)
  {
    hide Pow2, TableStep, Pos, PosSum, High, FreqSum, Placed;
    if w > 0 {
      PlacedCount(norm, L, s, w - 1);
      SumMono(norm, s, s + 1);
      PlacedNext(norm, L, s, w - 1);
    } else {
      PlacedNone(norm, L, s);
    }
  }

  lemma {:induction false} SpreadCount(t: seq<nat>, norm: seq<int>, L: nat, s: nat)
    requires NormOk(norm, L) && IsSpread(t, norm, L)
    requires s < |norm|
    ensures |t| == Pow2(L) && Occ(t, Pow2(L), s) == Freq(norm[s])
  {
    assert |t| == Pow2(L);
    assert |Placed(norm, L, s, Pow2(L))| == PosSum(norm, s + 1) - PosSum(norm, s) by {
      HighBounds(norm, L);
      StepIsOdd(L);
      SumMono(norm, s + 1, |norm|);
      PlacedCount(norm, L, s, Pow2(L));
      RankFull(L, TableStep(Pow2(L)), High(norm, L));
    }
    hide IsSpread, Placed, CellsOf, Occ, Pow2;
    CellsOfCount(t, Pow2(L), s);
    CellsSplit(t, norm, L, s);
  }

  lemma {:induction false} LowBelow(norm: seq<int>, n: nat)
    requires n <= |norm|
    ensures LowSum(norm, n) <= FreqSum(norm, n)
  {
    if n > 0 { LowBelow(norm, n - 1); }
  }

  lemma {:induction false} LowNext(norm: seq<int>, n: nat)
    requires n < |norm|
    ensures LowSum(norm, n + 1) == LowSum(norm, n) + if norm[n] == -1 then 1 else 0
  {
  }

  lemma {:induction false} SpreadSize(t: seq<nat>, norm: seq<int>, L: nat)
    requires IsSpread(t, norm, L)
    ensures |t| == Pow2(L)
  {
  }

  lemma {:induction false} CellsSplit(t: seq<nat>, norm: seq<int>, L: nat, s: nat)
    requires NormOk(norm, L) && IsSpread(t, norm, L)
    requires s < |norm|
    ensures |CellsOf(t, Pow2(L), s)| == |Placed(norm, L, s, Pow2(L))| + (if norm[s] == -1 then 1 else 0)
  {
    hide IsSpread, Placed, CellsOf, Pow2, LowSum, FreqSum;
    var size := Pow2(L);
    var placed := Placed(norm, L, s, size);
    SpreadSize(t, norm, L);
    LowBelow(norm, s + 1);
    SumMono(norm, s + 1, |norm|);
    LowNext(norm, s);
    var low := if norm[s] == -1 then {size - 1 - LowSum(norm, s)} else {};
    forall c: nat ensures c in CellsOf(t, size, s) <==> c in placed + low {
      CellOwner(t, norm, L, s, c);
    }
    assert CellsOf(t, size, s) == placed + low;
    if norm[s] == -1 {
      PlacedHas(norm, L, s, size, size - 1 - LowSum(norm, s));
      assert placed !! low;
    }
  }

  lemma {:induction false} CellOwner(t: seq<nat>, norm: seq<int>, L: nat, s: nat, c: nat)
    requires NormOk(norm, L) && IsSpread(t, norm, L)
    requires s < |norm|
    ensures var low := if norm[s] == -1 then {Pow2(L) - 1 - LowSum(norm, s)} else {};
            c in CellsOf(t, Pow2(L), s) <==> c in Placed(norm, L, s, Pow2(L)) + low
  {
    hide Pow2, TableStep, Pos;
    var size := Pow2(L);
    var step, high := TableStep(size), High(norm, L);
    StepIsOdd(L);
    CellsOfHas(t, size, s, c);
    PlacedHas(norm, L, s, size, c);
    SumMono(norm, s + 1, |norm|);
    if c < size && c <= high {
      var w := PosOnto(L, step, c);
      var r := Rank(L, step, high, w);
      if InSlot(norm, s, r) { SlotUnique(norm, s, t[c], r); }
      forall i: nat | i < size && Pos(L, step, i) == c ensures i == w {
        if i < w { PosInjective(L, step, i, w); }
        if w < i { PosInjective(L, step, w, i); }
      }
    } else if c < size {
      var o := LowOwner(norm, |norm|, size - 1 - c);
    } else {
      forall i: nat ensures Pos(L, step, i) < size { PosBound(L, step, i); }
    }
  }

  lemma {:induction false} OccMono(t: seq<nat>, a: nat, b: nat, s: nat)
    requires a <= b <= |t|
    ensures Occ(t, a, s) <= Occ(t, b, s)
    decreases b
  {
    if a < b { OccMono(t, a, b - 1, s); }
  }

  /** The symbol of a cell is a coded one, and the cell is one of its `Freq` cells. */
  lemma {:induction false} CellRank(t: seq<nat>, norm: seq<int>, L: nat, u: nat)
    requires NormOk(norm, L) && IsSpread(t, norm, L)
    requires u < Pow2(L)
    ensures t[u] < |norm|
    ensures Occ(t, u, t[u]) < Freq(norm[t[u]])
  {
    hide Pow2, TableStep, Pos, Rank;
    StepIsOdd(L);
    if u <= High(norm, L) {
      var w := PosOnto(L, TableStep(Pow2(L)), u);
    } else {
      var s := LowOwner(norm, |norm|, Pow2(L) - 1 - u);
    }
    OccMono(t, u + 1, Pow2(L), t[u]);
    SpreadCount(t, norm, L, t[u]);
  }

  /** The `k`-th cell of symbol `s`. */
  lemma {:induction false} CellAt(t: seq<nat>, n: nat, s: nat, k: nat) returns (u: nat)
    requires n <= |t| && k < Occ(t, n, s)
    ensures u < n && t[u] == s && Occ(t, u, s) == k
  {
    if t[n - 1] == s && Occ(t, n - 1, s) == k {
      u := n - 1;
    } else {
      u := CellAt(t, n - 1, s, k);
    }
  }

  // ---------- filling the table ----------

  /** State of the spread loop after `w` steps, `n` regular cells laid, at `position`. */
  ghost predicate Spreading(t: seq<nat>, norm: seq<int>, L: nat, w: nat, position: nat, n: nat) {
    var step, high := TableStep(Pow2(L)), High(norm, L);
    && |t| == Pow2(L) && w <= Pow2(L)
    && position == Pos(L, step, w)
    && n == Rank(L, step, high, w)
    && LowLaid(t, norm, |norm|)
    && (forall i: nat | i < w && Pos(L, step, i) <= high ::
          Pos(L, step, i) < |t| && InSlot(norm, t[Pos(L, step, i)], Rank(L, step, high, i)))
  }

  lemma {:induction false} SpreadStart(t: seq<nat>, norm: seq<int>, L: nat)
    requires NormOk(norm, L) && |t| == Pow2(L) && LowLaid(t, norm, |norm|)
    ensures Spreading(t, norm, L, 0, 0, 0)
  {
    ShlZero(L);
    LowSmall(0, L);
  }

  lemma {:induction false} SpreadPlace(t: seq<nat>, norm: seq<int>, L: nat, w: nat, position: nat, n: nat, s: nat)
    requires NormOk(norm, L) && Spreading(t, norm, L, w, position, n)
    requires InSlot(norm, s, n)
    requires position <= High(norm, L)
    ensures position < |t|
    ensures Spreading(t[position := s], norm, L, w + 1, Low(position + TableStep(Pow2(L)), L), n + 1)
  {
    hide Pow2, TableStep, Pos, FreqSum, PosSum;
    var step, high := TableStep(Pow2(L)), High(norm, L);
    StepIsOdd(L);
    HighBounds(norm, L);
    SumMono(norm, s + 1, |norm|);
    RankFull(L, step, high);
    PosBound(L, step, w);
    PosNext(L, step, w);
    forall i: nat | i < w ensures Pos(L, step, i) != Pos(L, step, w) { PosInjective(L, step, i, w); }
    forall x: nat | x < |norm| && norm[x] == -1 ensures |t| - 1 - LowSum(norm, x) > high {
      SumMono(norm, x + 1, |norm|);
    }
  }

  lemma {:induction false} SpreadSkip(t: seq<nat>, norm: seq<int>, L: nat, w: nat, position: nat, n: nat)
    requires NormOk(norm, L) && Spreading(t, norm, L, w, position, n)
    requires position > High(norm, L) >= 0
    ensures w < Pow2(L)
    ensures Spreading(t, norm, L, w + 1, Low(position + TableStep(Pow2(L)), L), n)
  {
    hide Pow2, TableStep, Pos;
    FullTurn(L, TableStep(Pow2(L)));
    PosNext(L, TableStep(Pow2(L)), w);
  }

  lemma {:induction false} SpreadDone(t: seq<nat>, norm: seq<int>, L: nat, w: nat, position: nat)
    requires NormOk(norm, L) && Spreading(t, norm, L, w, position, PosSum(norm, |norm|))
    requires w == 0 || position <= High(norm, L)
    ensures position == 0 && IsSpread(t, norm, L)
  {
    hide Pow2, TableStep, Pos;
    var size := Pow2(L);
    var step, high := TableStep(size), High(norm, L);
    StepIsOdd(L);
    HighBounds(norm, L);
    RankFull(L, step, high);
    FullTurn(L, step);
    if w == 0 { SpreadStart(t, norm, L); }
    if w < size && position <= high {
      RankMono(L, step, high, w + 1, size);
      assert false;
    }
  }

  /**
    The spread loop of FSE_buildCTable_wksp and FSE_buildDTable: lays the regular symbols along the walk,
    skipping the cells above `highThreshold`; returns the final position.
   */
  method SpreadSymbols(table: array<nat>, norm: seq<int>, L: nat, highThreshold: int) returns (position: nat)
    requires NormOk(norm, L)
    requires table.Length == Pow2(L)
    requires highThreshold == High(norm, L)
    requires LowLaid(table[..], norm, |norm|)
    modifies table
    ensures position == 0
    ensures IsSpread(table[..], norm, L)
  {
    hide Pow2, TableStep, High, Spreading, LowLaid, IsSpread;
    var step := TableStep(table.Length);
    position := 0;
    ghost var w: nat := 0;
    SpreadStart(table[..], norm, L);
    HighBounds(norm, L);
    for s := 0 to |norm|
      invariant w == 0 || position <= highThreshold
      invariant Spreading(table[..], norm, L, w, position, PosSum(norm, s))
    {
      SumMono(norm, s + 1, |norm|);
      for nbOccurrences := 0 to if norm[s] > 0 then norm[s] else 0
        invariant w == 0 || position <= highThreshold
        invariant Spreading(table[..], norm, L, w, position, PosSum(norm, s) + nbOccurrences)
      {
        if w == 0 { assert position == 0 by { StartPosition(table[..], norm, L, position, PosSum(norm, s) + nbOccurrences); } }
        SpreadPlace(table[..], norm, L, w, position, PosSum(norm, s) + nbOccurrences, s);
        ghost var t := table[..][position := s];
        table[position] := s;
        assert table[..] == t;
        position := Low(position + step, L);
        w := w + 1;
        while position > highThreshold
          invariant Spreading(table[..], norm, L, w, position, PosSum(norm, s) + nbOccurrences + 1)
          decreases table.Length - w
        {
          SpreadSkip(table[..], norm, L, w, position, PosSum(norm, s) + nbOccurrences + 1);
          position := Low(position + step, L);
          w := w + 1;
        }
      }
    }
    SpreadDone(table[..], norm, L, w, position);
  }

  lemma {:induction false} StartPosition(t: seq<nat>, norm: seq<int>, L: nat, position: nat, n: nat)
    requires Spreading(t, norm, L, 0, position, n)
    ensures position == 0
  {
    ShlZero(L);
    LowSmall(0, L);
  }
}
