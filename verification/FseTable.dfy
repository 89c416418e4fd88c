/**
  The compression and decompression tables of FSE, built from the same normalized counters by two
  different constructions, and the proof that one decoding step undoes one encoding step.
 */
module FseTable {
  import opened Bits
  import opened Errors
  import opened FseSpread

  /** FSE_symbolCompressionTransform. */
  datatype Transform = Transform(deltaFindState: int, deltaNbBits: nat)

  /** FSE_CTable: `stateTable` is sorted by symbol and gives the next state. */
  datatype CTable = CTable(tableLog: nat, stateTable: seq<nat>, symbolTT: seq<Transform>)

  /** FSE_decode_t. */
  datatype Cell = Cell(newState: nat, symbol: nat, nbBits: nat)

  /** FSE_DTable. */
  datatype DTable = DTable(tableLog: nat, fastMode: bool, cells: seq<Cell>)

  // ---------- what the tables contain ----------

  /** Next-state value of cell `u` seen as the `k`-th cell of its symbol: in [Freq, 2*Freq). */
  ghost function NextState(t: seq<nat>, norm: seq<int>, u: nat): nat
    requires u < |t| && t[u] < |norm|
  {
    Freq(norm[t[u]]) + Occ(t, u, t[u])
  }

  /** Place of cell `u` in the state table sorted by symbol. */
  ghost function SortedIndex(t: seq<nat>, norm: seq<int>, u: nat): nat
    requires u < |t| && t[u] < |norm|
  {
    FreqSum(norm, t[u]) + Occ(t, u, t[u])
  }

  /** maxBitsOut and minStatePlus: from `threshold` up a state gives `nb` bits, below it one bit less. */
  ghost predicate TransformFor(tr: Transform, f: nat, total: nat, L: nat) {
    exists nb: nat, threshold: nat :: IsThreshold(f, L, nb, threshold)
      && tr.deltaFindState == total - f
      && tr.deltaNbBits == Shl(nb, 16) - threshold
  }

  ghost predicate IsThreshold(f: nat, L: nat, nb: nat, threshold: nat) {
    && threshold == Shl(f, nb)
    && 1 <= nb <= L
    && Pow2(L) <= threshold <= Pow2(L) + Pow2(L)
    && threshold <= Shl(nb, 16)
  }

  ghost predicate CTableFor(ct: CTable, t: seq<nat>, norm: seq<int>, L: nat) {
    && ct.tableLog == L
    && |t| == |ct.stateTable| == Pow2(L)
    && |ct.symbolTT| == |norm|
    && (forall u: nat | u < |t| :: Sorted(ct.stateTable, t, norm, u))
    && (forall s: nat {:trigger ct.symbolTT[s]} | s < |norm| && norm[s] != 0 ::
          TransformFor(ct.symbolTT[s], Freq(norm[s]), FreqSum(norm, s), L))
  }

  ghost predicate Sorted(stateTable: seq<nat>, t: seq<nat>, norm: seq<int>, u: nat) {
    && u < |t| && t[u] < |norm|
    && SortedIndex(t, norm, u) < |stateTable|
    && stateTable[SortedIndex(t, norm, u)] == |t| + u
  }

  ghost predicate CellFor(c: Cell, t: seq<nat>, norm: seq<int>, L: nat, u: nat) {
    && u < |t| && t[u] < |norm|
    && c.symbol == t[u]
    && c.nbBits <= L
    && (var x := NextState(t, norm, u);
        Pow2(L) <= Shl(x, c.nbBits) < Pow2(L) + Pow2(L) && c.newState == Shl(x, c.nbBits) - Pow2(L))
  }

  ghost predicate DTableFor(dt: DTable, t: seq<nat>, norm: seq<int>, L: nat) {
    && dt.tableLog == L
    && |dt.cells| == |t| == Pow2(L)
    && (forall u: nat | u < |t| :: CellFor(dt.cells[u], t, norm, L, u))
    && (dt.fastMode ==> forall u: nat | u < |t| :: dt.cells[u].nbBits >= 1)
  }

  // ---------- encoder table ----------

  lemma {:induction false} SortedDistinct(t: seq<nat>, norm: seq<int>, L: nat, u: nat, v: nat)
    requires NormOk(norm, L) && IsSpread(t, norm, L)
    requires v < u < |t| && t[u] < |norm| && t[v] < |norm|
    ensures SortedIndex(t, norm, v) != SortedIndex(t, norm, u)
  {
    CellRank(t, norm, L, u);
    CellRank(t, norm, L, v);
    if t[v] == t[u] { OccMono(t, v + 1, u, t[u]); }
    if t[v] < t[u] { SumMono(norm, t[v] + 1, t[u]); }
    if t[u] < t[v] { SumMono(norm, t[u] + 1, t[v]); }
  }

  lemma {:induction false} SortedBound(t: seq<nat>, norm: seq<int>, L: nat, u: nat)
    requires NormOk(norm, L) && IsSpread(t, norm, L)
    requires u < |t|
    ensures t[u] < |norm| && SortedIndex(t, norm, u) < Pow2(L)
  {
    CellRank(t, norm, L, u);
    SumMono(norm, t[u] + 1, |norm|);
  }

  /** The counting sort that fills tableU16: cell `u` goes to the next free place of its symbol. */
  method SortStates(tableSymbol: seq<nat>, norm: seq<int>, L: nat, cumul: array<nat>, tableU16: array<nat>)
    requires NormOk(norm, L) && IsSpread(tableSymbol, norm, L)
    requires tableU16.Length == |tableSymbol| == Pow2(L)
    requires cumul.Length == |norm| + 1 && cumul != tableU16
    requires Cumulated(cumul[..], norm, |norm|)
    modifies cumul, tableU16
    ensures forall u: nat | u < |tableSymbol| :: Sorted(tableU16[..], tableSymbol, norm, u)
  {
    hide Pow2, IsSpread, NormOk;
    for u := 0 to |tableSymbol|
      invariant forall s: nat {:trigger cumul[s]} | s < |norm| :: cumul[s] == FreqSum(norm, s) + Occ(tableSymbol, u, s)
      invariant forall v: nat | v < u :: Sorted(tableU16[..], tableSymbol, norm, v)
    {
      hide Sorted;
      var s := tableSymbol[u];
      SortedBound(tableSymbol, norm, L, u);
      ghost var before, next: nat := tableU16[..], |tableSymbol| + u;
      tableU16[cumul[s]] := |tableSymbol| + u;
      assert tableU16[..] == before[SortedIndex(tableSymbol, norm, u) := next];
      SortedNext(before, tableU16[..], tableSymbol, norm, L, u);
      cumul[s] := cumul[s] + 1;
    }
  }

  lemma {:induction false} SortedNext(st: seq<nat>, st': seq<nat>, t: seq<nat>, norm: seq<int>, L: nat, u: nat)
    requires NormOk(norm, L) && IsSpread(t, norm, L)
    requires u < |t| && |st| == |t|
    requires forall v: nat | v < u :: Sorted(st, t, norm, v)
    requires t[u] < |norm| && SortedIndex(t, norm, u) < |st|
    requires st' == st[SortedIndex(t, norm, u) := |t| + u]
    ensures forall v: nat | v <= u :: Sorted(st', t, norm, v)
  {
    forall v: nat | v <= u ensures Sorted(st', t, norm, v) {
      if v < u {
        assert Sorted(st, t, norm, v);
        SortedDistinct(t, norm, L, u, v);
      }
    }
  }

  /** The switch of the transformation table: the encoder's bit cost of one symbol. */
  function SymbolTransform(x: int, total: nat, L: nat): Transform
    requires -1 <= x <= Pow2(L) && L >= 1 && L <= TABLELOG_ABSOLUTE_MAX
  {
    SizesOk(x, L);
    if x == 0 then Transform(0, Shl(L + 1, 16) - Pow2(L))
    else if x == -1 || x == 1 then Transform(total - 1, Shl(L, 16) - Pow2(L))
    else
      var maxBitsOut := L - HighBit(x - 1);
      var minStatePlus := Shl(x, maxBitsOut);
      Transform(total - x, Shl(maxBitsOut, 16) - minStatePlus)
  }

  /** None of the unsigned subtractions wraps. */
  lemma {:induction false} SizesOk(x: int, L: nat)
    requires -1 <= x <= Pow2(L) && 1 <= L <= TABLELOG_ABSOLUTE_MAX
    ensures Pow2(L) <= Shl(L, 16) && Pow2(L) <= Shl(L + 1, 16)
    ensures x > 1 ==> HighBit(x - 1) < L && IsThreshold(x, L, L - HighBit(x - 1), Shl(x, L - HighBit(x - 1)))
  {
    hide Pow2, Shl;
    ThresholdFits(L, L);
    ThresholdFits(L + 1, L);
    if x > 1 { ThresholdOk(x, L, HighBit(x - 1)); }
  }

  lemma {:induction false} ThresholdFits(nb: nat, L: nat)
    requires nb >= 1 && L <= TABLELOG_ABSOLUTE_MAX
    ensures Pow2(L) + Pow2(L) <= Pow2(16) <= Shl(nb, 16)
  {
    Pow2Strict(L, 16);
    ShlOne(16);
    ShlMono(1, nb, 16);
  }

  lemma {:induction false} ThresholdOk(x: nat, L: nat, h: nat)
    requires L <= TABLELOG_ABSOLUTE_MAX
    requires Pow2(h) < x <= Pow2(h) + Pow2(h) && x <= Pow2(L)
    ensures h < L && IsThreshold(x, L, L - h, Shl(x, L - h))
  {
    hide Pow2, Shl;
    if L <= h { Pow2Mono(L, h); }
    ThresholdFits(L - h, L);
    ShlMono(Pow2(h), x, L - h);
    ShlMono(x, Pow2(h) + Pow2(h), L - h);
    ShlAdd(Pow2(h), Pow2(h), L - h);
    Pow2IsShl(h, L - h);
  }

  lemma {:induction false} TransformOk(x: int, total: nat, L: nat)
    requires -1 <= x <= Pow2(L) && 1 <= L <= TABLELOG_ABSOLUTE_MAX && x != 0
    ensures TransformFor(SymbolTransform(x, total, L), Freq(x), total, L)
  {
    SizesOk(x, L);
    if x == -1 || x == 1 {
      ShlOne(L);
      ThresholdFits(L, L);
      assert IsThreshold(1, L, L, Pow2(L));
    } else {
      assert IsThreshold(x, L, L - HighBit(x - 1), Shl(x, L - HighBit(x - 1)));
    }
  }

  /**
    FSE_buildCTable_wksp for a workspace of `wkspSize` cells. `t` is the spread the table is built on.
   */
  method BuildCTable(norm: seq<int>, L: nat, wkspSize: nat) returns (r: Result<CTable>, ghost t: seq<nat>)
    requires NormOk(norm, L) && L <= TABLELOG_ABSOLUTE_MAX
    ensures r.Err? <==> Pow2(L) > wkspSize
    ensures r.Ok? ==> IsSpread(t, norm, L) && CTableFor(r.value, t, norm, L)
  {
    var tableSize := Pow2(L);
    t := [];
    if tableSize > wkspSize { return Err(TableLogTooLarge), t; }
    var tableSymbol := new nat[tableSize];
    var cumul := new nat[|norm| + 1];
    var highThreshold := LayLowProb(norm, L, tableSymbol, cumul);
    var position := SpreadSymbols(tableSymbol, norm, L, highThreshold);
    assert position == 0;
    t := tableSymbol[..];
    var tableU16 := new nat[tableSize];
    SortStates(tableSymbol[..], norm, L, cumul, tableU16);
    var symbolTT := new Transform[|norm|];
    BuildTransforms(norm, L, symbolTT);
    r := Ok(CTable(L, tableU16[..], symbolTT[..]));
  }

  ghost predicate Cumulated(cumul: seq<nat>, norm: seq<int>, n: nat)
    requires n <= |norm|
  {
    |cumul| == |norm| + 1 && forall s: nat {:trigger cumul[s]} | s <= n :: cumul[s] == FreqSum(norm, s)
  }

  /** First loop of FSE_buildCTable_wksp: start positions, and low-probability symbols from the top. */
  method LayLowProb(norm: seq<int>, L: nat, tableSymbol: array<nat>, cumul: array<nat>) returns (highThreshold: int)
    requires NormOk(norm, L)
    requires tableSymbol.Length == Pow2(L) && cumul.Length == |norm| + 1 && cumul != tableSymbol
    modifies tableSymbol, cumul
    ensures highThreshold == High(norm, L)
    ensures LowLaid(tableSymbol[..], norm, |norm|)
    ensures Cumulated(cumul[..], norm, |norm|)
  {
    hide Pow2, LowLaid;
    highThreshold := tableSymbol.Length - 1;
    cumul[0] := 0;
    HighBounds(norm, L);
    LowLaidNone(tableSymbol[..], norm);
    for u := 1 to |norm| + 1
      invariant highThreshold == tableSymbol.Length - 1 - LowSum(norm, u - 1)
      invariant LowLaid(tableSymbol[..], norm, u - 1)
      invariant Cumulated(cumul[..], norm, u - 1)
    {
      SumMono(norm, u, |norm|);
      ghost var before := tableSymbol[..];
      if norm[u - 1] == -1 {
        cumul[u] := cumul[u - 1] + 1;
        tableSymbol[highThreshold] := u - 1;
        highThreshold := highThreshold - 1;
      } else {
        cumul[u] := cumul[u - 1] + norm[u - 1];
      }
      LowLaidNext(before, tableSymbol[..], norm, u - 1);
    }
  }

  lemma {:induction false} LowLaidNone(t: seq<nat>, norm: seq<int>)
    ensures LowLaid(t, norm, 0)
  {
  }

  lemma {:induction false} LowLaidNext(t: seq<nat>, t': seq<nat>, norm: seq<int>, n: nat)
    requires n < |norm|
    requires LowLaid(t, norm, n)
    requires LowSum(norm, n) < |t| || norm[n] != -1
    requires t' == if norm[n] == -1 then t[|t| - 1 - LowSum(norm, n) := n] else t
    ensures LowLaid(t', norm, n + 1)
  {
    forall s: nat | s < n && norm[s] == -1 ensures LowSum(norm, s) < LowSum(norm, n) {
      SumMono(norm, s + 1, n);
    }
  }

  /** Last loop of FSE_buildCTable_wksp. */
  method BuildTransforms(norm: seq<int>, L: nat, symbolTT: array<Transform>)
    requires NormOk(norm, L) && L <= TABLELOG_ABSOLUTE_MAX
    requires symbolTT.Length == |norm|
    modifies symbolTT
    ensures forall s: nat {:trigger symbolTT[s]} | s < |norm| && norm[s] != 0 ::
              TransformFor(symbolTT[s], Freq(norm[s]), FreqSum(norm, s), L)
  {
    hide Pow2, TransformFor;
    var total := 0;
    for s := 0 to |norm|
      invariant total == FreqSum(norm, s)
      invariant forall x: nat {:trigger symbolTT[x]} | x < s && norm[x] != 0 ::
                  TransformFor(symbolTT[x], Freq(norm[x]), FreqSum(norm, x), L)
    {
      hide SymbolTransform;
      SumMono(norm, s + 1, |norm|);
      symbolTT[s] := SymbolTransform(norm[s], total, L);
      if norm[s] != 0 { TransformOk(norm[s], total, L); }
      total := total + Freq(norm[s]);
    }
  }

  // ---------- decoder table ----------

  /** The bit count and base state of a cell whose next-state value is `x`. */
  function DecodeCell(x: nat, symbol: nat, L: nat): Cell
    requires 0 < x < Pow2(L) + Pow2(L)
  {
    CellBits(x, L);
    var nbBits := L - HighBit(x);
    Cell(Shl(x, nbBits) - Pow2(L), symbol, nbBits)
  }

  lemma {:induction false} CellBits(x: nat, L: nat)
    requires 0 < x < Pow2(L) + Pow2(L)
    ensures HighBit(x) <= L
    ensures Pow2(L) <= Shl(x, L - HighBit(x)) < Pow2(L) + Pow2(L)
  {
    var h := HighBit(x);
    HighBitBelow(x, L + 1);
    var n := L - h;
    ShlMono(Pow2(h), x, n);
    ShlMono(x + 1, Pow2(h) + Pow2(h), n);
    ShlAdd(x, 1, n);
    ShlOne(n);
    ShlAdd(Pow2(h), Pow2(h), n);
    Pow2IsShl(h, n);
  }

  lemma {:induction false} NextStateBounds(t: seq<nat>, norm: seq<int>, L: nat, u: nat)
    requires NormOk(norm, L) && IsSpread(t, norm, L) && u < |t|
    ensures t[u] < |norm|
    ensures Freq(norm[t[u]]) <= NextState(t, norm, u) < Freq(norm[t[u]]) + Freq(norm[t[u]])
    ensures Freq(norm[t[u]]) <= Pow2(L)
  {
    CellRank(t, norm, L, u);
    SumMono(norm, t[u] + 1, |norm|);
  }

  /** No symbol below `n` holds half of the table or more. */
  ghost predicate NoLargeBelow(norm: seq<int>, largeLimit: nat, n: nat) {
    forall s | 0 <= s < n && s < |norm| :: norm[s] < largeLimit
  }

  ghost predicate NoLarge(norm: seq<int>, L: nat)
    requires L > 0
  {
    NoLargeBelow(norm, Pow2(L - 1), |norm|)
  }

  lemma {:induction false} NoLargeNext(norm: seq<int>, largeLimit: nat, n: nat)
    requires n < |norm|
    ensures NoLargeBelow(norm, largeLimit, 0)
    ensures NoLargeBelow(norm, largeLimit, n + 1) <==> NoLargeBelow(norm, largeLimit, n) && norm[n] < largeLimit
  {
  }

  lemma {:induction false} FastCells(dt: DTable, t: seq<nat>, norm: seq<int>, L: nat)
    requires NormOk(norm, L) && IsSpread(t, norm, L) && NoLarge(norm, L)
    requires |dt.cells| == |t|
    requires forall u: nat | u < |t| :: CellFor(dt.cells[u], t, norm, L, u)
    ensures forall u: nat | u < |t| :: dt.cells[u].nbBits >= 1
  {
    forall u: nat | u < |t| ensures dt.cells[u].nbBits >= 1 {
      assert CellFor(dt.cells[u], t, norm, L, u);
      NextStateBounds(t, norm, L, u);
      assert Pow2(L) == Pow2(L - 1) + Pow2(L - 1);
      Pow2Mono(1, L - 1);
    }
  }

  /**
    FSE_buildDTable. The symbol column of the table is the array `tableSymbol`.
   */
  method BuildDTable(norm: seq<int>, L: nat, limits: Limits) returns (r: Result<DTable>, ghost t: seq<nat>)
    requires NormOk(norm, L)
    ensures r.Err? <==> |norm| - 1 > limits.maxSymbolValue || L > limits.maxTableLog
    ensures r.Ok? ==> IsSpread(t, norm, L) && DTableFor(r.value, t, norm, L)
    ensures r.Ok? ==> (r.value.fastMode <==> NoLarge(norm, L))
  {
    t := [];
    if |norm| - 1 > limits.maxSymbolValue { return Err(MaxSymbolValueTooLarge), t; }
    if L > limits.maxTableLog { return Err(TableLogTooLarge), t; }
    var tableSymbol := new nat[Pow2(L)];
    var symbolNext := new nat[|norm|];
    var highThreshold, fastMode := InitDecode(norm, L, tableSymbol, symbolNext);
    var position := SpreadSymbols(tableSymbol, norm, L, highThreshold);
    if position != 0 { return Err(Generic), t; }
    t := tableSymbol[..];
    var cells := new Cell[Pow2(L)];
    FillCells(tableSymbol[..], norm, L, symbolNext, cells);
    var dt := DTable(L, fastMode, cells[..]);
    if fastMode { FastCells(dt, t, norm, L); }
    r := Ok(dt);
  }

  /** First loop of FSE_buildDTable. */
  method InitDecode(norm: seq<int>, L: nat, tableSymbol: array<nat>, symbolNext: array<nat>)
    returns (highThreshold: int, fastMode: bool)
    requires NormOk(norm, L)
    requires tableSymbol.Length == Pow2(L) && symbolNext.Length == |norm| && symbolNext != tableSymbol
    modifies tableSymbol, symbolNext
    ensures highThreshold == High(norm, L)
    ensures LowLaid(tableSymbol[..], norm, |norm|)
    ensures forall s: nat {:trigger symbolNext[s]} | s < |norm| :: symbolNext[s] == Freq(norm[s])
    ensures fastMode <==> NoLarge(norm, L)
  {
    hide Pow2, LowLaid, NoLargeBelow;
    NoLargeNext(norm, Pow2(L - 1), 0);
    var largeLimit := Pow2(L - 1);
    highThreshold := tableSymbol.Length - 1;
    fastMode := true;
    HighBounds(norm, L);
    LowLaidNone(tableSymbol[..], norm);
    for s := 0 to |norm|
      invariant highThreshold == tableSymbol.Length - 1 - LowSum(norm, s)
      invariant LowLaid(tableSymbol[..], norm, s)
      invariant forall x: nat {:trigger symbolNext[x]} | x < s :: symbolNext[x] == Freq(norm[x])
      invariant fastMode <==> NoLargeBelow(norm, largeLimit, s)
    {
      SumMono(norm, s + 1, |norm|);
      NoLargeNext(norm, largeLimit, s);
      ghost var before := tableSymbol[..];
      if norm[s] == -1 {
        tableSymbol[highThreshold] := s;
        highThreshold := highThreshold - 1;
        symbolNext[s] := 1;
      } else {
        if norm[s] >= largeLimit { fastMode := false; }
        symbolNext[s] := norm[s];
      }
      LowLaidNext(before, tableSymbol[..], norm, s);
    }
  }

  /** Last loop of FSE_buildDTable. */
  method FillCells(tableSymbol: seq<nat>, norm: seq<int>, L: nat, symbolNext: array<nat>, cells: array<Cell>)
    requires NormOk(norm, L) && IsSpread(tableSymbol, norm, L)
    requires cells.Length == |tableSymbol| == Pow2(L) && symbolNext.Length == |norm|
    requires forall s: nat {:trigger symbolNext[s]} | s < |norm| :: symbolNext[s] == Freq(norm[s])
    modifies symbolNext, cells
    ensures forall u: nat | u < |tableSymbol| :: CellFor(cells[u], tableSymbol, norm, L, u)
  {
    hide Pow2, IsSpread, NormOk;
    for u := 0 to |tableSymbol|
      invariant forall s: nat {:trigger symbolNext[s]} | s < |norm| ::
                  symbolNext[s] == Freq(norm[s]) + Occ(tableSymbol, u, s)
      invariant forall v: nat | v < u :: CellFor(cells[v], tableSymbol, norm, L, v)
    {
      hide CellFor;
      var symbol := tableSymbol[u];
      NextStateBounds(tableSymbol, norm, L, u);
      CellForDecode(tableSymbol, norm, L, u);
      var nextState := symbolNext[symbol];
      symbolNext[symbol] := nextState + 1;
      cells[u] := DecodeCell(nextState, symbol, L);
    }
  }

  lemma {:induction false} CellForDecode(t: seq<nat>, norm: seq<int>, L: nat, u: nat)
    requires NormOk(norm, L) && IsSpread(t, norm, L) && u < |t| && t[u] < |norm|
    ensures 0 < NextState(t, norm, u) < Pow2(L) + Pow2(L)
    ensures CellFor(DecodeCell(NextState(t, norm, u), t[u], L), t, norm, L, u)
  {
    NextStateBounds(t, norm, L, u);
    CellBits(NextState(t, norm, u), L);
  }

  // ---------- one step ----------

  /** U32 arithmetic. */
  function Wrap32(x: int): nat {
    x % 0x1_0000_0000
  }

  /** Place in the state table that FSE_initCState2 reads: the smallest state of the first symbol. */
  function InitialIndex(ct: CTable, s: nat): int
    requires s < |ct.symbolTT|
  {
    var tr := ct.symbolTT[s];
    var nbBitsOut := Shr(tr.deltaNbBits + Pow2(15), 16);
    Shr(Wrap32(Shl(nbBitsOut, 16) - tr.deltaNbBits), nbBitsOut) + tr.deltaFindState
  }


  /** nbBitsOut of FSE_encodeSymbol for the state `x`. */
  function NbBitsOut(ct: CTable, x: nat, s: nat): nat
    requires s < |ct.symbolTT|
  {
    Shr(x + ct.symbolTT[s].deltaNbBits, 16)
  }

  /** Place in the state table that FSE_encodeSymbol reads. */
  function StateIndex(ct: CTable, x: nat, s: nat): int
    requires s < |ct.symbolTT|
  {
    Shr(x, NbBitsOut(ct, x, s)) + ct.symbolTT[s].deltaFindState
  }

  /** The encoder can code `s`: it is a symbol of the table with a non-zero counter. */
  predicate Coded(norm: seq<int>, s: nat) {
    s < |norm| && norm[s] != 0
  }

  lemma {:induction false} ShrRange(x: nat, n: nat, a: nat, b: nat)
    requires Shl(a, n) <= x < Shl(b, n)
    ensures a <= Shr(x, n) < b
  {
    var q := Shr(x, n);
    Split(x, n);
    ShlOne(n);
    if q < a {
      ShlMono(q + 1, a, n);
      ShlAdd(q, 1, n);
    }
    if b <= q { ShlMono(b, q, n); }
  }

  /** The number of bits the encoder emits leaves a value in [f, 2f). */
  lemma {:induction false} BitsOut(tr: Transform, f: nat, total: nat, L: nat, x: nat)
    requires TransformFor(tr, f, total, L) && L <= TABLELOG_ABSOLUTE_MAX
    requires Pow2(L) <= x < Pow2(L) + Pow2(L)
    ensures var nb := Shr(x + tr.deltaNbBits, 16);
            nb <= L && f <= Shr(x, nb) < f + f && tr.deltaFindState == total - f
  {
    hide Pow2, Shl, Shr;
    var m: nat, threshold: nat :| IsThreshold(f, L, m, threshold)
      && tr.deltaFindState == total - f && tr.deltaNbBits == Shl(m, 16) - threshold;
    ThresholdFits(m, L);
    ShiftedDifference(x, threshold, m, L, 16);
    var nb := if x >= threshold then m else m - 1;
    ShlAdd(f, f, nb);
    ShlStep(f, m);
    ShrRange(x, nb, f, f + f);
  }

  lemma {:induction false} ShlStep(x: nat, n: nat)
    ensures n > 0 ==> Shl(x, n) == Shl(x, n - 1) + Shl(x, n - 1)
  {
  }

  /** (x + (m << w) - threshold) >> w decides on which side of the threshold `x` is. */
  lemma {:induction false} ShiftedDifference(x: nat, threshold: nat, m: nat, L: nat, w: nat)
    requires Pow2(L) + Pow2(L) <= Pow2(w) && m >= 1 && threshold <= Shl(m, w)
    requires InRange(x, L) && Pow2(L) <= threshold <= Pow2(L) + Pow2(L)
    ensures Shr(x + (Shl(m, w) - threshold), w) == if x >= threshold then m else m - 1
  {
    ShlOne(w);
    ShlAdd(m - 1, 1, w);
    if x >= threshold {
      Join(x - threshold, m, w);
    } else {
      Join(Pow2(w) - (threshold - x), m - 1, w);
    }
  }

  /** Two shifts of the same value into [2^L, 2^(L+1)) are by the same amount. */
  lemma {:induction false} SameBits(q: nat, n: nat, m: nat, L: nat)
    requires Pow2(L) <= Shl(q, n) < Pow2(L) + Pow2(L)
    requires Pow2(L) <= Shl(q, m) < Pow2(L) + Pow2(L)
    ensures n == m
  {
    if n < m { ShlDoubles(q, n, m); }
    if m < n { ShlDoubles(q, m, n); }
  }

  lemma {:induction false} ShlDoubles(q: nat, n: nat, m: nat)
    requires n < m
    ensures Shl(q, n) + Shl(q, n) <= Shl(q, m)
    decreases m
  {
    if n + 1 < m { ShlDoubles(q, n, m - 1); }
  }

  /** The decoding cell of the `k`-th slot of `s` is where the encoder's sorted table points. */
  lemma {:induction false} SlotCell(ct: CTable, t: seq<nat>, norm: seq<int>, L: nat, s: nat, k: nat) returns (u: nat)
    requires NormOk(norm, L) && IsSpread(t, norm, L) && CTableFor(ct, t, norm, L)
    requires s < |norm| && k < Freq(norm[s])
    ensures u < |t| && t[u] == s && Occ(t, u, s) == k
    ensures FreqSum(norm, s) + k < |ct.stateTable| && ct.stateTable[FreqSum(norm, s) + k] == Pow2(L) + u
  {
    SpreadCount(t, norm, L, s);
    u := CellAt(t, |t|, s, k);
    assert Sorted(ct.stateTable, t, norm, u);
  }

  ghost predicate InRange(x: nat, L: nat) {
    Pow2(L) <= x < Pow2(L) + Pow2(L)
  }

  /** The decoding cell of an encoder state; encoder states carry the offset 2^L. */
  ghost function CellOf(dt: DTable, x: int): Cell {
    if 0 <= x - Pow2(dt.tableLog) < |dt.cells| then dt.cells[x - Pow2(dt.tableLog)] else Cell(0, 0, 0)
  }

  /** The decoder undoes the coding of `s` in state `x`. */
  ghost predicate Undone(ct: CTable, dt: DTable, x: nat, s: nat) {
    && s < |ct.symbolTT| && NbBitsOut(ct, x, s) <= ct.tableLog
    && 0 <= StateIndex(ct, x, s) < |ct.stateTable|
    && (var x' := ct.stateTable[StateIndex(ct, x, s)];
        var c := CellOf(dt, x');
        InRange(x', ct.tableLog)
        && c.symbol == s && c.nbBits == NbBitsOut(ct, x, s)
        && c.newState + Low(x, c.nbBits) == x - Pow2(ct.tableLog))
  }

  ghost predicate EncoderFor(ct: CTable, t: seq<nat>, norm: seq<int>, L: nat) {
    NormOk(norm, L) && L <= MAX_TABLELOG && IsSpread(t, norm, L) && CTableFor(ct, t, norm, L)
  }

  ghost predicate DecoderFor(dt: DTable, t: seq<nat>, norm: seq<int>, L: nat) {
    NormOk(norm, L) && L <= MAX_TABLELOG && IsSpread(t, norm, L) && DTableFor(dt, t, norm, L)
  }

  /** The transform of a coded symbol. */
  lemma {:induction false} SymbolAt(ct: CTable, t: seq<nat>, norm: seq<int>, L: nat, s: nat)
    requires EncoderFor(ct, t, norm, L) && Coded(norm, s)
    ensures s < |norm| == |ct.symbolTT| && Freq(norm[s]) > 0 && TransformFor(ct.symbolTT[s], Freq(norm[s]), FreqSum(norm, s), L)
    ensures ct.tableLog == L <= MAX_TABLELOG && |t| == |ct.stateTable| == Pow2(L)
    ensures NormOk(norm, L) && IsSpread(t, norm, L) && CTableFor(ct, t, norm, L)
  {
    hide IsSpread, NormOk, TransformFor, FreqSum, Pow2;
  }

  /** Coding `s` in state `x` moves to cell `u`, one of the cells of `s`. */
  ghost predicate MovesTo(ct: CTable, t: seq<nat>, norm: seq<int>, x: nat, s: nat, u: nat) {
    && s < |ct.symbolTT| && NbBitsOut(ct, x, s) <= ct.tableLog
    && 0 <= StateIndex(ct, x, s) < |ct.stateTable|
    && ct.stateTable[StateIndex(ct, x, s)] == Pow2(ct.tableLog) + u
    && u < |t| == Pow2(ct.tableLog) && t[u] == s && s < |norm|
    && NextState(t, norm, u) == Shr(x, NbBitsOut(ct, x, s))
  }

  lemma {:induction false} StepTarget(ct: CTable, t: seq<nat>, norm: seq<int>, L: nat, x: nat, s: nat) returns (u: nat)
    requires EncoderFor(ct, t, norm, L) && Coded(norm, s) && InRange(x, L)
    ensures MovesTo(ct, t, norm, x, s, u)
  {
    hide IsSpread, NormOk, EncoderFor, CTableFor, TransformFor, Shl, Shr, Pow2, FreqSum;
    SymbolAt(ct, t, norm, L, s);
    var f, total := Freq(norm[s]), FreqSum(norm, s);
    BitsOut(ct.symbolTT[s], f, total, L, x);
    u := SlotCell(ct, t, norm, L, s, Shr(x, NbBitsOut(ct, x, s)) - f);
  }

  /**
    tANS step inverse: encoding `s` in state `x` emits the low bits of `x` and moves to a state whose
    decoding cell holds `s`, asks for exactly those bits, and with them gives back `x`.
   */
  lemma {:induction false} StepInverse(ct: CTable, dt: DTable, t: seq<nat>, norm: seq<int>, L: nat, x: nat, s: nat)
    requires EncoderFor(ct, t, norm, L) && DecoderFor(dt, t, norm, L)
    requires Coded(norm, s)
    requires InRange(x, L)
    ensures Undone(ct, dt, x, s)
  {
    hide EncoderFor, DecoderFor, NbBitsOut, StateIndex, NextState, Shl, Shr, Low, Pow2;
    var u := StepTarget(ct, t, norm, L, x, s);
    TablesAt(ct, dt, t, norm, L, u);
    var nb := NbBitsOut(ct, x, s);
    StepArith(x, nb, L);
    SameBits(Shr(x, nb), nb, dt.cells[u].nbBits, L);
  }

  lemma {:induction false} StepArith(x: nat, nb: nat, L: nat)
    requires Pow2(L) <= x < Pow2(L) + Pow2(L) && nb <= L
    ensures Pow2(L) <= Shl(Shr(x, nb), nb) < Pow2(L) + Pow2(L)
    ensures Shl(Shr(x, nb), nb) + Low(x, nb) == x
  {
    Split(x, nb);
    Pow2IsShl(L - nb, nb);
    ShlOne(nb);
    var p := Pow2(L - nb);
    ShlAdd(p, p, nb);
    ShrRange(x, nb, p, p + p);
    ShlMono(p, Shr(x, nb), nb);
  }

  /** Any state update of the decoder, with any bits read, is again a state of the table. */
  lemma {:induction false} DecodeStaysInTable(dt: DTable, t: seq<nat>, norm: seq<int>, L: nat, state: nat, lowBits: nat)
    requires DTableFor(dt, t, norm, L) && state < Pow2(L)
    requires lowBits < Pow2(dt.cells[state].nbBits)
    ensures dt.cells[state].newState + lowBits < Pow2(L)
  {
    var nb := dt.cells[state].nbBits;
    assert CellFor(dt.cells[state], t, norm, L, state);
    var x := NextState(t, norm, state);
    var k := L + 1 - nb;
    Pow2IsShl(k, nb);
    if x >= Pow2(k) { ShlMono(Pow2(k), x, nb); }
    ShlBound(x, k, nb);
  }

  // ---------- initial states ----------

  ghost predicate StartsIn(ct: CTable, dt: DTable, s: nat, whole: bool) {
    && s < |ct.symbolTT| && 0 <= InitialIndex(ct, s) < |ct.stateTable|
    && (var x := ct.stateTable[InitialIndex(ct, s)];
        var c := CellOf(dt, x);
        InRange(x, ct.tableLog) && c.symbol == s && (c.nbBits == 0 <==> whole))
  }

  lemma {:induction false} StartTarget(ct: CTable, t: seq<nat>, norm: seq<int>, L: nat, s: nat) returns (u: nat)
    requires EncoderFor(ct, t, norm, L) && Coded(norm, s)
    ensures s < |ct.symbolTT| && 0 <= InitialIndex(ct, s) < |ct.stateTable|
    ensures ct.stateTable[InitialIndex(ct, s)] == Pow2(L) + u
    ensures u < |t| == Pow2(L) && t[u] == s && s < |norm| && NextState(t, norm, u) == Freq(norm[s])
  {
    hide IsSpread, NormOk, EncoderFor, CTableFor, TransformFor, Shl, Shr, Pow2, FreqSum;
    SymbolAt(ct, t, norm, L, s);
    var f, total := Freq(norm[s]), FreqSum(norm, s);
    InitialIndexIs(ct.symbolTT[s], f, total, L);
    u := SlotCell(ct, t, norm, L, s, 0);
  }

  /**
    A chain starts in the first cell of its first symbol. That cell asks for at least one bit, unless the
    symbol owns the whole table.
   */
  lemma {:induction false} InitialCell(ct: CTable, dt: DTable, t: seq<nat>, norm: seq<int>, L: nat, s: nat)
    requires EncoderFor(ct, t, norm, L) && DecoderFor(dt, t, norm, L)
    requires Coded(norm, s)
    ensures StartsIn(ct, dt, s, norm[s] == Pow2(L))
  {
    hide EncoderFor, DecoderFor, NextState, InitialIndex, Shl, Pow2;
    var u := StartTarget(ct, t, norm, L, s);
    TablesAt(ct, dt, t, norm, L, u);
    WholeFreq(ct, t, norm, L, s);
    FirstCellBits(Freq(norm[s]), dt.cells[u].nbBits, L);
  }

  lemma {:induction false} InitialIndexIs(tr: Transform, f: nat, total: nat, L: nat)
    requires TransformFor(tr, f, total, L) && L <= MAX_TABLELOG
    ensures var nb := Shr(tr.deltaNbBits + Pow2(15), 16);
            Shr(Wrap32(Shl(nb, 16) - tr.deltaNbBits), nb) + tr.deltaFindState == total
  {
    var m: nat, threshold: nat :| IsThreshold(f, L, m, threshold)
      && tr.deltaFindState == total - f && tr.deltaNbBits == Shl(m, 16) - threshold;
    assert Pow2(L) + Pow2(L) <= Pow2(15) < Pow2(16) by { Pow2Strict(L, 15); Pow2Strict(15, 16); }
    assert Shr(f, 0) == f;
    hide Shl, Pow2, Shr, Wrap32;
    Join(Pow2(15) - threshold, m, 16);
    WrapSmall(threshold);
    ShrShl(f, m, m);
  }

  lemma {:induction false} WrapSmall(x: nat)
    requires x <= Pow2(15)
    ensures Wrap32(x) == x
  {
    BytesBound(15, 2);
  }

  lemma {:induction false} TablesAt(ct: CTable, dt: DTable, t: seq<nat>, norm: seq<int>, L: nat, u: nat)
    requires EncoderFor(ct, t, norm, L) && DecoderFor(dt, t, norm, L) && u < |t|
    ensures ct.tableLog == dt.tableLog == L <= MAX_TABLELOG && |dt.cells| == |t| && CellFor(dt.cells[u], t, norm, L, u)
  {
    hide IsSpread, NormOk, CellFor, Pow2;
  }

  lemma {:induction false} WholeFreq(ct: CTable, t: seq<nat>, norm: seq<int>, L: nat, s: nat)
    requires EncoderFor(ct, t, norm, L) && Coded(norm, s)
    ensures s < |norm| && 0 < Freq(norm[s]) <= Pow2(L) && (Freq(norm[s]) == Pow2(L) <==> norm[s] == Pow2(L))
  {
    hide IsSpread, CTableFor;
    SumMono(norm, s + 1, |norm|);
    Pow2Strict(0, L);
  }

  lemma {:induction false} FirstCellBits(f: nat, nb: nat, L: nat)
    requires 0 < f <= Pow2(L) && Pow2(L) <= Shl(f, nb) < Pow2(L) + Pow2(L)
    ensures nb == 0 <==> f == Pow2(L)
  {
    if f == Pow2(L) { SameBits(f, nb, 0, L); }
  }

  /** Cell 0 is the first cell of its symbol. */
  lemma {:induction false} CellZeroBits(dt: DTable, t: seq<nat>, norm: seq<int>, L: nat)
    requires NormOk(norm, L) && IsSpread(t, norm, L) && DTableFor(dt, t, norm, L)
    ensures dt.cells[0].nbBits == 0 <==> exists s :: 0 <= s < |norm| && norm[s] == Pow2(L)
  {
    assert CellFor(dt.cells[0], t, norm, L, 0);
    CellRank(t, norm, L, 0);
    var s := t[0];
    SumMono(norm, s + 1, |norm|);
    FirstCellBits(Freq(norm[s]), dt.cells[0].nbBits, L);
    forall r | 0 <= r < |norm| && norm[r] == Pow2(L) ensures r == s {
      SumMono(norm, r + 1, |norm|);
      if r < s { SumMono(norm, r + 1, s); }
      if s < r { SumMono(norm, s + 1, r); }
    }
  }
}
