/**
  The preparation of the double-symbol table in HUF_readDTableX2_wksp: the symbols sorted by weight, and where
  each weight starts in the tables of every size.
 */
module HufX2Build {
  import opened Bits
  import opened HufHeight
  import opened HufCode
  import opened HufX1
  import opened HufX2

  /** Number of symbols of each weight. */
  ghost predicate StatsFor(rankStats: seq<nat>, lens: seq<nat>, M: nat) {
    |rankStats| > M && forall w: nat {:trigger rankStats[w]} | 1 <= w <= M :: rankStats[w] == NbOf(lens, M + 1 - w, |lens|)
  }

  method MaxWeight(rankStats: seq<nat>, tableLog: nat, ghost lens: seq<nat>) returns (maxW: nat)
    requires StatsFor(rankStats, lens, tableLog) && FullCode(lens, tableLog) && tableLog > 0
    ensures maxW == Top(lens, tableLog) > 0
  {
    hide FullCode, NbOf;
    ghost var s := DecodeExists(lens, tableLog, 0);
    TopBound(lens, tableLog, s, tableLog);
    maxW := tableLog;
    while rankStats[maxW] == 0
      invariant 0 < maxW <= tableLog && TopBelow(lens, tableLog, maxW) == Top(lens, tableLog)
      decreases maxW
    {
      maxW := maxW - 1;
    }
  }

  // ---------- the sorted list ----------

  /** No code is shorter than those of the largest weight. */
  lemma {:induction false} NoneAboveTop(lens: seq<nat>, M: nat, w: nat)
    requires w <= M
    ensures forall m: nat {:trigger NbOf(lens, m, |lens|)} | M + 1 - w <= m < M + 1 - TopBelow(lens, M, w) :: NbOf(lens, m, |lens|) == 0
  {
    if w > 0 && NbOf(lens, M + 1 - w, |lens|) == 0 { NoneAboveTop(lens, M, w - 1); }
  }

  lemma {:induction false} LongerFlat(lens: seq<nat>, M: nat, n: nat)
    requires n <= M && forall m: nat {:trigger NbOf(lens, m, |lens|)} | 1 <= m <= n :: NbOf(lens, m, |lens|) == 0
    ensures Longer(lens, M, 0) == Longer(lens, M, n)
  {
    if n > 0 { LongerFlat(lens, M, n - 1); }
  }

  lemma {:induction false} NoShorter(lens: seq<nat>, M: nat)
    ensures Longer(lens, M, 0) == Longer(lens, M, M - Top(lens, M))
  {
    hide Longer;
    NoneAboveTop(lens, M, M);
    LongerFlat(lens, M, M - Top(lens, M));
  }

  /** Symbols below `k` with more than `n` bits. */
  function LongerOf(lens: seq<nat>, M: nat, n: nat, k: nat): nat
    requires k <= |lens|
    decreases M - n
  {
    if n >= M then 0 else LongerOf(lens, M, n + 1, k) + NbOf(lens, n + 1, k)
  }

  lemma {:induction false} LongerOfNext(lens: seq<nat>, M: nat, n: nat, k: nat)
    requires k < |lens|
    ensures LongerOf(lens, M, n, k + 1) == LongerOf(lens, M, n, k) + (if n < lens[k] <= M then 1 else 0)
    decreases M - n
  {
    if n < M { LongerOfNext(lens, M, n + 1, k); }
  }

  lemma {:induction false} AllCounted(lens: seq<nat>, M: nat, k: nat)
    requires AtMost(lens, M) && k <= |lens|
    ensures LongerOf(lens, M, 0, k) + NbOf(lens, 0, k) == k
  {
    if k > 0 {
      AllCounted(lens, M, k - 1);
      LongerOfNext(lens, M, 0, k - 1);
    } else {
      LongerOfNone(lens, M, 0);
    }
  }

  lemma {:induction false} LongerOfNone(lens: seq<nat>, M: nat, n: nat)
    ensures LongerOf(lens, M, n, 0) == 0
    decreases M - n
  {
    if n < M { LongerOfNone(lens, M, n + 1); }
  }

  lemma {:induction false} LongerIs(lens: seq<nat>, M: nat, n: nat)
    ensures Longer(lens, M, n) == LongerOf(lens, M, n, |lens|)
    decreases M - n
  {
    if n < M { LongerIs(lens, M, n + 1); }
  }

  /** The places of the symbols in use, then those of the others, take up the list. */
  lemma {:induction false} PlaceCount(lens: seq<nat>, M: nat)
    requires AtMost(lens, M)
    ensures Longer(lens, M, 0) + NbOf(lens, 0, |lens|) == |lens|
  {
    AllCounted(lens, M, |lens|);
    LongerIs(lens, M, 0);
  }

  /** Where the next symbol of each weight goes, after the first `s` symbols. */
  ghost predicate SortStarts(rankStart0: seq<nat>, lens: seq<nat>, M: nat, s: nat)
    requires s <= |lens|
  {
    && |rankStart0| > M + 1 && rankStart0[1] == Longer(lens, M, 0) + NbOf(lens, 0, s)
    && forall w: nat | 1 <= w <= Top(lens, M) :: SortStart(rankStart0, lens, M, s, w)
  }

  ghost predicate SortStart(rankStart0: seq<nat>, lens: seq<nat>, M: nat, s: nat, w: nat)
    requires s <= |lens|
  {
    1 <= w <= M && w + 1 < |rankStart0| && rankStart0[w + 1] == Longer(lens, M, M + 1 - w) + NbOf(lens, M + 1 - w, s)
  }

  /** Starting places; rankStart is one entry into rankStart0. */
  method WeightStarts(rankStats: seq<nat>, maxW: nat, M: nat, ghost lens: seq<nat>) returns (rankStart0: array<nat>, sizeOfSort: nat)
    requires StatsFor(rankStats, lens, M) && maxW == Top(lens, M) && 0 < M <= HUF_TABLELOG_MAX
    ensures fresh(rankStart0) && SortStarts(rankStart0[..], lens, M, 0) && sizeOfSort == Longer(lens, M, 0)
  {
    hide TopBelow, NbOf;
    rankStart0 := new nat[HUF_TABLELOG_MAX + 2](_ => 0);
    var nextRankStart := 0;
    assert Longer(lens, M, M) == 0;
    for w := 1 to maxW + 1
      invariant nextRankStart == Longer(lens, M, M + 1 - w)
      invariant forall v: nat {:trigger rankStart0[v]} | 2 <= v <= w :: rankStart0[v] == Longer(lens, M, M + 2 - v)
    {
      var current := nextRankStart;
      nextRankStart := nextRankStart + rankStats[w];
      rankStart0[w + 1] := current;
    }
    NoShorter(lens, M);
    rankStart0[1] := nextRankStart;
    sizeOfSort := nextRankStart;
    NoneYet(lens);
    forall w: nat | 1 <= w <= Top(lens, M) ensures SortStart(rankStart0[..], lens, M, 0, w) {
      assert rankStart0[w + 1] == Longer(lens, M, M + 2 - (w + 1));
    }
  }

  lemma {:induction false} NoneYet(lens: seq<nat>)
    ensures forall n: nat {:trigger NbOf(lens, n, 0)} :: NbOf(lens, n, 0) == 0
  {
  }

  /** The symbols in use among the first `n` are in their places. */
  ghost predicate InPlace(list: seq<SortedSymbol>, lens: seq<nat>, M: nat, n: nat)
    requires n <= |lens|
  {
    forall t: nat, k: nat {:trigger AtPlace(lens, M, t, k)} | t < n && AtPlace(lens, M, t, k) ::
      k < |list| && list[k] == SortedSymbol(t, M + 1 - lens[t])
  }

  /** One symbol: its place, and the places of the next ones. */
  lemma {:induction false} SortStep(list: seq<SortedSymbol>, rankStart0: seq<nat>, lens: seq<nat>, M: nat, s: nat, w: nat)
    requires AtMost(lens, M) && s < |lens| == |list| && w == (if lens[s] == 0 then 0 else M + 1 - lens[s])
    requires SortStarts(rankStart0, lens, M, s) && InPlace(list, lens, M, s)
    ensures w + 1 < |rankStart0| && rankStart0[w + 1] < |list|
    ensures SortStarts(rankStart0[w + 1 := rankStart0[w + 1] + 1], lens, M, s + 1)
    ensures InPlace(list[rankStart0[w + 1] := SortedSymbol(s, w)], lens, M, s + 1)
  {
    SortPlace(list, rankStart0, lens, M, s, w);
    hide TopBelow, Longer, AtMost, InPlace;
    PlacedNext(list, lens, M, s, w, rankStart0[w + 1]);
    var after := rankStart0[w + 1 := rankStart0[w + 1] + 1];
    var s': nat := s + 1;
    forall v: nat | 1 <= v <= Top(lens, M) ensures SortStart(after, lens, M, s', v) {
      assert SortStart(rankStart0, lens, M, s, v);
    }
  }

  lemma {:induction false} PlacedNext(list: seq<SortedSymbol>, lens: seq<nat>, M: nat, s: nat, w: nat, r: nat)
    requires s < |lens| && r < |list| && InPlace(list, lens, M, s)
    requires if lens[s] == 0 then r >= Longer(lens, M, 0) else w == M + 1 - lens[s] && AtPlace(lens, M, s, r)
    ensures InPlace(list[r := SortedSymbol(s, w)], lens, M, s + 1)
  {
    hide Longer, NbOf;
    var list' := list[r := SortedSymbol(s, w)];
    forall t: nat, k: nat {:trigger AtPlace(lens, M, t, k)} | t < s + 1 && AtPlace(lens, M, t, k)
      ensures k < |list'| && list'[k] == SortedSymbol(t, M + 1 - lens[t])
    {
      PlaceBounds(lens, M, t, k);
      if k == r && t < s && lens[s] > 0 { PlaceDistinct(lens, M, t, s, r); }
    }
  }

  lemma {:induction false} SortPlace(list: seq<SortedSymbol>, rankStart0: seq<nat>, lens: seq<nat>, M: nat, s: nat, w: nat)
    requires AtMost(lens, M) && s < |lens| == |list| && w == (if lens[s] == 0 then 0 else M + 1 - lens[s])
    requires SortStarts(rankStart0, lens, M, s)
    ensures w <= M && w + 1 < |rankStart0| && rankStart0[w + 1] < |list|
    ensures if w == 0 then rankStart0[1] >= Longer(lens, M, 0) else w <= Top(lens, M) && AtPlace(lens, M, s, rankStart0[w + 1])
  {
    hide TopBelow, Longer;
    PlaceCount(lens, M);
    assert lens[s] <= M;
    if w == 0 {
      NbMono(lens, 0, s + 1, |lens|);
    } else {
      TopBound(lens, M, s, M);
      assert SortStart(rankStart0, lens, M, s, w);
      PlaceBounds(lens, M, s, rankStart0[w + 1]);
    }
  }

  lemma {:induction false} SortedAll(list: seq<SortedSymbol>, rankStart0: seq<nat>, lens: seq<nat>, M: nat)
    requires AtMost(lens, M) && |list| == |lens| && SortStarts(rankStart0, lens, M, |lens|) && InPlace(list, lens, M, |lens|)
    ensures Longer(lens, M, 0) <= |list| && SortedList(list[..Longer(lens, M, 0)], lens, M)
    ensures forall v: nat {:trigger rankStart0[v]} | 2 <= v <= Top(lens, M) :: rankStart0[v] == Longer(lens, M, M + 1 - v)
  {
    PlaceCount(lens, M);
    assert Longer(lens, M, M) == 0;
    var sorted := list[..Longer(lens, M, 0)];
    forall k: nat {:trigger sorted[k]} | k < |sorted|
      ensures AtPlace(lens, M, sorted[k].symbol, k) && sorted[k].weight == M + 1 - lens[sorted[k].symbol]
    {
      var t := PlaceTaken(lens, M, k, 0);
    }
    forall v: nat {:trigger rankStart0[v]} | 2 <= v <= Top(lens, M) ensures rankStart0[v] == Longer(lens, M, M + 1 - v) {
      assert SortStart(rankStart0, lens, M, |lens|, v - 1);
    }
  }

  /** Counting sort of the symbols by weight; weight 0 goes to the end, and is forgotten. */
  method SortSymbols(weightList: seq<nat>, rankStart0: array<nat>, sizeOfSort: nat, ghost lens: seq<nat>, M: nat)
    returns (sortedSymbol: seq<SortedSymbol>)
    requires WeightsOf(weightList, lens, M) && SortStarts(rankStart0[..], lens, M, 0) && sizeOfSort == Longer(lens, M, 0)
    modifies rankStart0
    ensures SortedList(sortedSymbol, lens, M) && rankStart0.Length > M
    ensures forall w: nat {:trigger rankStart0[w]} | 1 <= w <= Top(lens, M) :: rankStart0[w] == Longer(lens, M, M + 1 - w)
  {
    assert AtMost(lens, M) && |weightList| == |lens|;
    assert Longer(lens, M, M) == 0;
    hide SortStarts, Longer, Top, AtMost, SortedList;
    var list := new SortedSymbol[|weightList|](_ => SortedSymbol(0, 0));
    for s := 0 to |weightList|
      invariant SortStarts(rankStart0[..], lens, M, s) && InPlace(list[..], lens, M, s)
    {
      var w := weightList[s];
      SortStep(list[..], rankStart0[..], lens, M, s, w);
      ghost var starts, places := rankStart0[..], list[..];
      var r := rankStart0[w + 1];
      rankStart0[w + 1] := r + 1;
      list[r] := SortedSymbol(s, w);
      assert rankStart0[..] == starts[w + 1 := starts[w + 1] + 1];
      assert list[..] == places[starts[w + 1] := SortedSymbol(s, w)];
    }
    SortedAll(list[..], rankStart0[..], lens, M);
    assert list[..sizeOfSort] == list[..][..sizeOfSort];
    StartsLong(rankStart0[..], lens, M);
    rankStart0[1] := 0;
    sortedSymbol := list[..sizeOfSort];
  }

  lemma {:induction false} StartsLong(rankStart0: seq<nat>, lens: seq<nat>, M: nat)
    requires SortStarts(rankStart0, lens, M, |lens|)
    ensures |rankStart0| > M + 1
  {
  }

  // ---------- starting cells ----------

  /** First cell of the codes of weight `w`, in the table of `D` bits. */
  ghost predicate FirstCells(rankVal0: seq<nat>, lens: seq<nat>, D: nat, M: nat, n: nat) {
    M <= D && n <= M + 1 && |rankVal0| > M
    && forall w: nat {:trigger rankVal0[w]} | 1 <= w < n :: rankVal0[w] == Shl(Start(lens, D, M + 1 - w), D - (M + 1 - w))
  }

  /** The codes of weight `w` take up the cells up to those of weight `w` + 1. */
  lemma {:induction false} NextFirstCell(lens: seq<nat>, D: nat, M: nat, w: nat)
    requires FullCode(lens, D) && 1 <= w <= M <= D
    ensures Shl(Start(lens, D, M + 1 - w), D - (M + 1 - w)) + Shl(NbOf(lens, M + 1 - w, |lens|), D - (M + 1 - w))
         == Shl(Start(lens, D, M - w), D - (M - w))
  {
    hide Start, NbOf, FullCode;
    var n: nat := M - w;
    StartDouble(lens, D, n);
    ShlAdd(Start(lens, D, n + 1), NbOf(lens, n + 1, |lens|), D - n - 1);
    ShlAdd(Start(lens, D, n), Start(lens, D, n), D - n - 1);
  }

  method FirstRow(rankStats: seq<nat>, D: nat, M: nat, maxW: nat, ghost lens: seq<nat>) returns (rankVal0: seq<nat>)
    requires StatsFor(rankStats, lens, M) && FullCode(lens, D) && AtMost(lens, M) && 0 < M <= D && maxW == Top(lens, M) && M <= HUF_TABLELOG_MAX
    ensures FirstCells(rankVal0, lens, D, M, maxW + 1)
  {
    hide Start, FullCode, Top, NbOf, Shl;
    var rescale := (D - M) - 1;
    var nextRankVal := 0;
    var row := new nat[HUF_TABLELOG_MAX + 1](_ => 0);
    NothingBelow(lens, D, M);
    for w := 1 to maxW + 1
      invariant nextRankVal == Shl(Start(lens, D, M + 1 - w), D - (M + 1 - w))
      invariant forall v: nat {:trigger row[v]} | 1 <= v < w :: row[v] == Shl(Start(lens, D, M + 1 - v), D - (M + 1 - v))
    {
      NextFirstCell(lens, D, M, w);
      var current := nextRankVal;
      nextRankVal := nextRankVal + Shl(rankStats[w], w + rescale);
      row[w] := current;
    }
    rankVal0 := row[..];
  }

  lemma {:induction false} NothingBelow(lens: seq<nat>, D: nat, M: nat)
    requires AtMost(lens, M) && M <= D
    ensures Shl(Start(lens, D, M), D - M) == 0
  {
    WiderStart(lens, M, D, M);
    ShlZero(D - M);
  }

  lemma {:induction false} FirstRanks(rankVal0: seq<nat>, lens: seq<nat>, D: nat, M: nat)
    requires FirstCells(rankVal0, lens, D, M, Top(lens, M) + 1)
    ensures Ranks(rankVal0, lens, D, M, D, 1, 0)
  {
    hide Start, TopBelow, Longer, NbOf, Shl;
    forall w: nat | 1 <= w && 1 <= w <= Top(lens, M) ensures RankIs(rankVal0, lens, D, M, D, 0, w) {
      assert rankVal0[w] >= 0;
    }
  }

  /** The same cells in the table of the bits after a code of `c` bits. */
  lemma {:induction false} ShiftedRanks(rankVal0: seq<nat>, ranks: seq<nat>, lens: seq<nat>, D: nat, M: nat, c: nat)
    requires FirstCells(rankVal0, lens, D, M, Top(lens, M) + 1) && c < D && |ranks| > M
    requires forall w: nat {:trigger ranks[w]} | 1 <= w <= Top(lens, M) :: ranks[w] == Shr(rankVal0[w], c)
    ensures OriginRanks(ranks, lens, D, M, c)
  {
    hide Start, TopBelow, NbOf, Shl, Shr, Longer;
    var minWeight, from := MinWeight(D, M, c), Longer(lens, M, D - c);
    var width: nat := D - c;
    forall w: nat | 1 <= w && minWeight <= w <= Top(lens, M) ensures RankIs(ranks, lens, D, M, width, from, w) {
      LongerMono(lens, M, M + 1 - w, D - c);
      assert ranks[w] == Shr(rankVal0[w], c);
      ShrShl(Start(lens, D, M + 1 - w), D - (M + 1 - w), c);
      ShiftNone(Start(lens, D, M + 1 - w));
    }
  }

  method ShiftedRow(rankVal0: seq<nat>, D: nat, M: nat, maxW: nat, consumed: nat, ghost lens: seq<nat>) returns (row: seq<nat>)
    requires FirstCells(rankVal0, lens, D, M, maxW + 1) && maxW == Top(lens, M) && consumed < D && M <= HUF_TABLELOG_MAX
    ensures OriginRanks(row, lens, D, M, consumed)
  {
    var rankValPtr := new nat[HUF_TABLELOG_MAX + 1](_ => 0);
    for w := 1 to maxW + 1
      invariant forall v: nat {:trigger rankValPtr[v]} | 1 <= v < w :: rankValPtr[v] == Shr(rankVal0[v], consumed)
    {
      rankValPtr[w] := Shr(rankVal0[w], consumed);
    }
    row := rankValPtr[..];
    hide FirstCells, Top, OriginRanks;
    ShiftedRanks(rankVal0, row, lens, D, M, consumed);
  }

  /** rankVal: one row of starting cells for every number of bits that may have been consumed. */
  method BuildRankVal(rankStats: seq<nat>, D: nat, M: nat, maxW: nat, ghost lens: seq<nat>) returns (rankVal: seq<seq<nat>>)
    requires StatsFor(rankStats, lens, M) && FullCode(lens, D) && AtMost(lens, M) && 0 < M <= D <= HUF_TABLELOG_MAX && 0 < maxW == Top(lens, M)
    ensures |rankVal| == D + 1 && Ranks(rankVal[0], lens, D, M, D, 1, 0)
    ensures forall c: nat {:trigger rankVal[c]} | M + 1 - maxW <= c <= D - (M + 1 - maxW) :: OriginRanks(rankVal[c], lens, D, M, c)
  {
    hide StatsFor, FullCode, AtMost, Top, FirstCells, Ranks, OriginRanks;
    var rankVal0 := FirstRow(rankStats, D, M, maxW, lens);
    FirstRanks(rankVal0, lens, D, M);
    var minBits := M + 1 - maxW;
    rankVal := seq(D + 1, _ => rankVal0);
    var consumed := minBits;
    while consumed < D - minBits + 1
      invariant minBits <= consumed && |rankVal| == D + 1 && rankVal[0] == rankVal0
      invariant forall c: nat {:trigger rankVal[c]} | minBits <= c < consumed && c <= D - minBits :: OriginRanks(rankVal[c], lens, D, M, c)
      decreases D - consumed
    {
      var row := ShiftedRow(rankVal0, D, M, maxW, consumed, lens);
      rankVal := rankVal[consumed := row];
      consumed := consumed + 1;
    }
  }

  // ---------- HUF_readDTableX2_wksp from the weights on ----------

  /**
    The double-symbol table of `D` bits for the weights of a complete code of height at most `D`: no cell is
    left out, and each is the one symbol, or the two symbols, that its index starts with.
   */
  method BuildX2(weightList: seq<nat>, rankStats: seq<nat>, tableLog: nat, D: nat, ghost lens: seq<nat>) returns (dt: array<DEltX2>)
    requires FullCode(lens, tableLog) && WeightsOf(weightList, lens, tableLog) && StatsFor(rankStats, lens, tableLog)
    requires 0 < tableLog <= D <= HUF_TABLELOG_MAX
    ensures fresh(dt) && FullCode(lens, D) && TableX2(dt[..], lens, D)
  {
    WiderCode(lens, tableLog, D);
    assert AtMost(lens, tableLog);
    hide *;
    var maxW := MaxWeight(rankStats, tableLog, lens);
    var rankStart0, sizeOfSort := WeightStarts(rankStats, maxW, tableLog, lens);
    var sortedSymbol := SortSymbols(weightList, rankStart0, sizeOfSort, lens, tableLog);
    var rankVal := BuildRankVal(rankStats, D, tableLog, maxW, lens);
    dt := new DEltX2[Pow2(D)](_ => DEltX2(0, 0, 0, 0));
    IsPrepared(sortedSymbol, rankStart0[..], rankVal, lens, D, tableLog, tableLog + 1 - maxW);
    FillDTableX2(dt, D, sortedSymbol, rankStart0[..], rankVal, maxW, tableLog + 1, lens, tableLog);
  }

  lemma {:induction false} IsPrepared(list: seq<SortedSymbol>, rankStart0: seq<nat>, rankVal: seq<seq<nat>>, lens: seq<nat>,
                                      D: nat, M: nat, minBits: nat)
    requires SortedList(list, lens, M) && AtMost(lens, M) && minBits == M + 1 - Top(lens, M) <= M <= D && |rankStart0| > M
    requires forall w: nat {:trigger rankStart0[w]} | 1 <= w <= Top(lens, M) :: rankStart0[w] == Longer(lens, M, M + 1 - w)
    requires |rankVal| == D + 1 && Ranks(rankVal[0], lens, D, M, D, 1, 0)
    requires forall c: nat {:trigger rankVal[c]} | minBits <= c <= D - minBits :: OriginRanks(rankVal[c], lens, D, M, c)
    ensures Prepared(list, rankStart0, rankVal, lens, D, M, minBits)
  {
    hide SortedList, AtMost, Top, Longer, Ranks, OriginRanks;
  }
}
