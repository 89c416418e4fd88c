/**
  The single-symbol decoding table of Huff0: one cell for every bit string of tableLog bits, holding the
  symbol whose code the string starts with.
 */
module HufX1 {
  import opened Bits
  import opened HufHeight
  import opened HufCode

  /** HUF_DEltX1. */
  datatype DEltX1 = DEltX1(symbol: nat, nbBits: nat)

  /** Weights and lengths of the same code: the longest codes have weight 1, absent symbols weight 0. */
  ghost predicate WeightsOf(weights: seq<nat>, lens: seq<nat>, M: nat) {
    && |weights| == |lens| && AtMost(lens, M)
    && forall s | 0 <= s < |lens| :: weights[s] == if lens[s] == 0 then 0 else M + 1 - lens[s]
  }

  /** The cell for the string `x`. */
  ghost predicate CellX1(c: DEltX1, lens: seq<nat>, M: nat, x: nat) {
    Matches(lens, M, x, c.symbol) && c.nbBits == lens[c.symbol]
  }

  ghost predicate TableX1(dt: seq<DEltX1>, lens: seq<nat>, M: nat) {
    |dt| == Pow2(M) && forall x: nat | x < |dt| :: CellX1(dt[x], lens, M, x)
  }

  /** First cell of symbol `s`. */
  function CellStart(lens: seq<nat>, M: nat, s: nat): nat
    requires s < |lens| && lens[s] <= M
  {
    Shl(ValueOf(lens, M, s), M - lens[s])
  }

  /** The cells of a symbol are those whose string starts with its code. */
  lemma {:induction false} CellsMatch(lens: seq<nat>, M: nat, s: nat, x: nat)
    requires s < |lens| && 0 < lens[s] <= M
    ensures Matches(lens, M, x, s) <==> CellStart(lens, M, s) <= x < CellStart(lens, M, s) + Pow2(M - lens[s])
  {
    var v, k := ValueOf(lens, M, s), M - lens[s];
    var q := Shr(x, k);
    Split(x, k);
    ShlOne(k);
    if q < v {
      ShlMono(q + 1, v, k);
      ShlAdd(q, 1, k);
    }
    if q > v {
      ShlMono(v + 1, q, k);
      ShlAdd(v, 1, k);
    }
  }

  lemma {:induction false} CellsFit(lens: seq<nat>, M: nat, s: nat)
    requires FullCode(lens, M) && s < |lens| && 0 < lens[s] <= M
    ensures CellStart(lens, M, s) + Pow2(M - lens[s]) <= Pow2(M)
  {
    ValueFits(lens, M, s);
    ShlBound(ValueOf(lens, M, s), lens[s], M - lens[s]);
  }

  /** Starting cell of every weight. */
  lemma {:induction false} NothingBefore(lens: seq<nat>, tableLog: nat)
    ensures Shl(Start(lens, tableLog, tableLog), 0) == 0
  {
    ShlZero(0);
  }

  method RankStarts(rankVal: array<nat>, tableLog: nat, ghost lens: seq<nat>)
    requires FullCode(lens, tableLog) && tableLog < rankVal.Length
    requires forall w: nat {:trigger rankVal[w]} | 1 <= w <= tableLog :: rankVal[w] == NbOf(lens, tableLog + 1 - w, |lens|)
    modifies rankVal
    ensures forall w: nat {:trigger rankVal[w]} | 1 <= w <= tableLog ::
              rankVal[w] == Shl(Start(lens, tableLog, tableLog + 1 - w), w - 1)
  {
    hide Start, FullCode, NbOf;
    var nextRankStart := 0;
    NothingBefore(lens, tableLog);
    for n := 1 to tableLog + 1
      invariant nextRankStart == Shl(Start(lens, tableLog, tableLog + 1 - n), n - 1)
      invariant forall w: nat {:trigger rankVal[w]} | 1 <= w <= tableLog ::
                  rankVal[w] == if w < n then Shl(Start(lens, tableLog, tableLog + 1 - w), w - 1)
                                else NbOf(lens, tableLog + 1 - w, |lens|)
    {
      var current := nextRankStart;
      StartDouble(lens, tableLog, tableLog - n);
      ShlAdd(Start(lens, tableLog, tableLog + 1 - n), rankVal[n], n - 1);
      ShlAdd(Start(lens, tableLog, tableLog - n), Start(lens, tableLog, tableLog - n), n - 1);
      nextRankStart := nextRankStart + Shl(rankVal[n], n - 1);
      rankVal[n] := current;
    }
  }

  /** The cells of the first `n` symbols are filled. */
  ghost predicate FilledX1(dt: seq<DEltX1>, lens: seq<nat>, M: nat, n: nat) {
    forall x: nat, s: nat {:trigger Matches(lens, M, x, s)} | x < |dt| && s < n && Matches(lens, M, x, s) ::
      dt[x] == DEltX1(s, lens[s])
  }

  lemma {:induction false} FillNext(dt: seq<DEltX1>, dt': seq<DEltX1>, lens: seq<nat>, M: nat, n: nat)
    requires FullCode(lens, M) && n < |lens| && FilledX1(dt, lens, M, n) && |dt| == |dt'|
    requires forall x: nat | x < |dt| ::
               dt'[x] == if 0 < lens[n] <= M && CellStart(lens, M, n) <= x < CellStart(lens, M, n) + Pow2(M - lens[n])
                         then DEltX1(n, lens[n]) else dt[x]
    ensures FilledX1(dt', lens, M, n + 1)
  {
    forall x: nat, s: nat {:trigger Matches(lens, M, x, s)} | x < |dt| && s < n + 1 && Matches(lens, M, x, s)
      ensures dt'[x] == DEltX1(s, lens[s])
    {
      if 0 < lens[n] <= M {
        CellsMatch(lens, M, n, x);
        if Matches(lens, M, x, n) { DecodeUnique(lens, M, x, s, n); }
      }
    }
  }

  lemma {:induction false} FilledAll(dt: seq<DEltX1>, lens: seq<nat>, M: nat)
    requires FullCode(lens, M) && |dt| == Pow2(M) && FilledX1(dt, lens, M, |lens|)
    ensures TableX1(dt, lens, M)
  {
    forall x: nat | x < |dt| ensures CellX1(dt[x], lens, M, x) {
      var s := DecodeExists(lens, M, x);
    }
  }

  method FillCells(dt: array<DEltX1>, uStart: nat, length: nat, cell: DEltX1)
    requires uStart + length <= dt.Length
    modifies dt
    ensures forall x: nat {:trigger dt[x]} | x < dt.Length :: dt[x] == if uStart <= x < uStart + length then cell else old(dt[x])
  {
    for u := uStart to uStart + length
      invariant forall x: nat {:trigger dt[x]} | x < dt.Length :: dt[x] == if uStart <= x < u then cell else old(dt[x])
    {
      dt[u] := cell;
    }
  }

  /** Where the next symbol of each weight starts, after `n` symbols. */
  ghost predicate RankVals(rankVal: seq<nat>, lens: seq<nat>, M: nat, n: nat)
    requires n <= |lens|
  {
    |rankVal| > M && forall w: nat {:trigger rankVal[w]} | 1 <= w <= M ::
      rankVal[w] == Shl(Start(lens, M, M + 1 - w) + NbOf(lens, M + 1 - w, n), w - 1)
  }

  /** One symbol: its starting cell, its number of cells, and the starting cells after it. */
  lemma {:induction false} NextRank(rankVal: seq<nat>, weights: seq<nat>, lens: seq<nat>, M: nat, n: nat)
    requires FullCode(lens, M) && WeightsOf(weights, lens, M) && n < |lens| && RankVals(rankVal, lens, M, n)
    ensures var w := weights[n];
            w <= M && (w == 0 <==> lens[n] == 0)
            && (w == 0 ==> Half(Pow2(w)) == 0)
            && (w > 0 ==> lens[n] == M + 1 - w && rankVal[w] == CellStart(lens, M, n) && Half(Pow2(w)) == Pow2(M - lens[n])
                          && rankVal[w] + Half(Pow2(w)) <= Pow2(M))
            && RankVals(rankVal[w := rankVal[w] + Half(Pow2(w))], lens, M, n + 1)
  {
    hide FullCode, Start, Shl, CellStart;
    var w := weights[n];
    if w == 0 {
      assert Half(Pow2(0)) == 0;
    } else {
      HalfUnique(Pow2(w), Pow2(w - 1));
      NextCell(lens, M, n);
      CellStartIs(lens, M, n);
    }
    hide Pow2;
  }

  lemma {:induction false} CellStartIs(lens: seq<nat>, M: nat, n: nat)
    requires n < |lens| && lens[n] <= M
    ensures CellStart(lens, M, n) == Shl(Start(lens, M, lens[n]) + NbOf(lens, lens[n], n), M - lens[n])
  {
  }

  /**
    The table-filling part of HUF_readDTableX1_wksp, for the weights of a complete code: every cell is
    written, with the one symbol whose code starts its index.
   */
  method FillDTableX1(huffWeight: seq<nat>, rankVal: array<nat>, tableLog: nat, ghost lens: seq<nat>) returns (dt: array<DEltX1>)
    requires FullCode(lens, tableLog) && WeightsOf(huffWeight, lens, tableLog) && tableLog < rankVal.Length
    requires forall w: nat {:trigger rankVal[w]} | 1 <= w <= tableLog :: rankVal[w] == NbOf(lens, tableLog + 1 - w, |lens|)
    modifies rankVal
    ensures fresh(dt) && TableX1(dt[..], lens, tableLog)
  {
    RankStarts(rankVal, tableLog, lens);
    assert |huffWeight| == |lens|;
    assert RankVals(rankVal[..], lens, tableLog, 0);
    dt := new DEltX1[Pow2(tableLog)](_ => DEltX1(0, 0));
    hide FullCode, FilledX1, WeightsOf, RankVals, Start, Pow2, CellStart;
    NoneFilled(dt[..], lens, tableLog);
    for n := 0 to |huffWeight|
      invariant tableLog < rankVal.Length && RankVals(rankVal[..], lens, tableLog, n)
      invariant FilledX1(dt[..], lens, tableLog, n)
    {
      ghost var before, starts := dt[..], rankVal[..];
      NextRank(starts, huffWeight, lens, tableLog, n);
      var w := huffWeight[n];
      var length := Half(Pow2(w));
      var uStart := rankVal[w];
      rankVal[w] := uStart + length;
      if length > 0 { FillCells(dt, uStart, length, DEltX1(n, tableLog + 1 - w)); }
      assert rankVal[..] == starts[w := starts[w] + length];
      FillNext(before, dt[..], lens, tableLog, n);
    }
    FilledAll(dt[..], lens, tableLog);
  }

  lemma {:induction false} NoneFilled(dt: seq<DEltX1>, lens: seq<nat>, M: nat)
    ensures FilledX1(dt, lens, M, 0)
  {
  }

  lemma {:induction false} NextCell(lens: seq<nat>, M: nat, n: nat)
    requires FullCode(lens, M) && n < |lens| && 0 < lens[n] <= M
    ensures Shl(ValueOf(lens, M, n) + 1, M - lens[n]) == CellStart(lens, M, n) + Pow2(M - lens[n]) <= Pow2(M)
  {
    CellsFit(lens, M, n);
    ShlAdd(ValueOf(lens, M, n), 1, M - lens[n]);
    ShlOne(M - lens[n]);
  }
}
