/**
  The header of a Huff0 block: HUF_writeCTable and HUF_readStats, with the weights compressed by FSE or
  stored raw, and the two tables that are built from it.
 */
module HufHeader {
  import opened Bits
  import BitStream
  import FseWalk
  import FseBlock
  import FseNCountRef
  import FseTable
  import opened Errors
  import opened FseCounters
  import opened FseSpread
  import opened FseNCount
  import opened FseNCountBound
  import opened FseStream
  import opened FseWhole
  import opened FseWksp
  import opened HufHeight
  import opened HufCode
  import opened HufX1
  import opened HufX2
  import opened HufX2Build
  import opened HufStats

  const MAX_FSE_TABLELOG_FOR_HUFF_HEADER := 6

  // ---------- compressed weights ----------

  lemma {:induction false} SmallAlphabet(srcSize: nat, maxSymbolValue: nat)
    requires srcSize > 1 && 0 < maxSymbolValue <= HUF_TABLELOG_MAX
    ensures OptimalTableLog(MAX_FSE_TABLELOG_FOR_HUFF_HEADER, srcSize, maxSymbolValue, 2) <= MAX_FSE_TABLELOG_FOR_HUFF_HEADER
  {
    PowFour();
    if HighBit(maxSymbolValue) >= 4 { Pow2Mono(4, HighBit(maxSymbolValue)); }
  }

  lemma {:induction false} PowFour()
    ensures Pow2(4) == 16 && Pow2(3) == 8
  {
    SmallPowers();
    assert Pow2(4) == 2 * Pow2(3);
  }

  /** The table for the weights, then the cells: two variables of their own, for the largest table log and weight. */
  const HEADER_CELLS := 236

  lemma {:induction false} WeightsRoom(tableLog: nat, n: nat)
    requires tableLog <= MAX_FSE_TABLELOG_FOR_HUFF_HEADER && n <= HUF_TABLELOG_MAX + 1
    ensures WkspHolds(tableLog, n, HEADER_CELLS, HEADER_CELLS + 64)
    ensures HEADER_CELLS == CellsAt(MAX_FSE_TABLELOG_FOR_HUFF_HEADER, HUF_TABLELOG_MAX)
  {
    SmallPowers();
    assert Pow2(6) == 4 * Pow2(4);
    Pow2Mono(tableLog, MAX_FSE_TABLELOG_FOR_HUFF_HEADER);
    hide Pow2;
  }

  lemma {:induction false} NoneAbove(weights: seq<byte>)
    requires AllAtMost(weights, HUF_TABLELOG_MAX)
    ensures !exists i :: 0 <= i < |weights| && weights[i] > HUF_TABLELOG_MAX
  {
  }

  /** Bytes that are enough for every description of the counts of weights. */
  const WEIGHTS_NCOUNT := 13

  /** The description may store one byte after a destination that is smaller than that; nothing else is stored there. */
  lemma {:induction false} WeightsTouch(r: Result<nat>, p: Plan, weights: seq<byte>, dstSize: nat)
    requires p.L <= MAX_FSE_TABLELOG_FOR_HUFF_HEADER && 0 < |p.norm| <= HUF_TABLELOG_MAX + 1
    requires r == Ok(0) ==> p.size <= dstSize && PlanFor(p, weights)
    ensures Touched(r, p, weights, dstSize) <= dstSize + 1
    ensures dstSize >= WEIGHTS_NCOUNT ==> Touched(r, p, weights, dstSize) == dstSize
  {
    hide NormOk, Extent, PlanFor, Block, EnoughFor, BitStream.RoomFor, Shr;
    if r == Ok(0) {
      PlanParts(p, weights);
      DescriptionInside(p.norm, p.L, dstSize, |weights|);
      BlockInside(p, weights, dstSize);
      EnoughWeights(|p.norm|, p.L);
      ExtentOf(p, weights, dstSize);
    }
  }

  lemma {:induction false} ExtentOf(p: Plan, src: seq<byte>, capacity: nat)
    requires NormOk(p.norm, p.L) && p.size <= capacity
    ensures Extent(p, src, capacity) <= if WriteReach(p.norm, p.L, capacity) > p.size + BlockReach(p.ct, src, capacity - p.size)
                                        then WriteReach(p.norm, p.L, capacity) else p.size + BlockReach(p.ct, src, capacity - p.size)
  {
    hide NormOk, WriteReach, BlockReach;
  }

  lemma {:induction false} EnoughWeights(n: nat, L: nat)
    requires n <= HUF_TABLELOG_MAX + 1 && L <= MAX_FSE_TABLELOG_FOR_HUFF_HEADER
    ensures EnoughFor(n, L) <= WEIGHTS_NCOUNT
  {
    hide Shr;
    SixTimes(L, n);
    BytesAndBits(FseWalk.Times(L, n) + L + 11 + 15);
  }

  lemma {:induction false} SixTimes(L: nat, n: nat)
    requires L <= 6
    ensures FseWalk.Times(L, n) <= 6 * n
  {
    if n > 0 { SixTimes(L, n - 1); }
  }

  /** HUF_compressWeights from the counts on. With so small a table log the description always fits. */
  method CompressCountedWeights(dst: array<byte>, start: nat, dstSize: nat, weights: seq<byte>,
                                count: seq<nat>) returns (r: Result<nat>, ghost p: Plan)
    requires start + dstSize < dst.Length && 2 < |weights| <= 255 && |count| <= HUF_TABLELOG_MAX + 1
    requires Histogram(count, weights) && forall s | 0 <= s < |count| :: count[s] != |weights|
    modifies dst
    ensures r.Ok? ==> r.value <= dstSize
    ensures Outcome(r, true, p, weights, dstSize, WeightsLog(weights))
    ensures r.Ok? && r.value > 0 ==> PlanFor(p, weights) && p.L <= MAX_FSE_TABLELOG_FOR_HUFF_HEADER
                                     && Compressed(dst[start..start + r.value], p, weights)
    ensures r == Err(DstSizeTooSmall) ==> dstSize < WEIGHTS_NCOUNT
    ensures forall k | 0 <= k < dst.Length && !(start <= k < start + dstSize + (if dstSize < WEIGHTS_NCOUNT then 1 else 0)) ::
              dst[k] == old(dst[k])
  {
    hide Histogram, Pow2, PlanFor, Compressed, HighBit, OptimalTableLog, SumCount, WkspHolds, Touched, MinTableLog, Outcome, TooShort;
    TwoValues(count, weights);
    CountedLargest(count, weights);
    var tableLog := OptimalTableLog(MAX_FSE_TABLELOG_FOR_HUFF_HEADER, |weights|, |count| - 1, 2);
    RoomForAlphabet(MAX_FSE_TABLELOG_FOR_HUFF_HEADER, |weights|, |count| - 1, 2);
    SmallAlphabet(|weights|, |count| - 1);
    WeightsRoom(tableLog, |count|);
    var fits;
    r, fits, p := CompressCounted(dst, start, dstSize, weights, count, tableLog, HEADER_CELLS, HEADER_CELLS + 64);
    WeightsFit(r, fits, p, weights, dstSize, tableLog);
    WeightsTouch(r, p, weights, dstSize);
    if r == Err(DstSizeTooSmall) { WeightsShort(p, dstSize); }
  }

  /** The table log for the weights. */
  ghost function WeightsLog(w: seq<byte>): nat {
    if |w| > 1 && LargestByte(w) > 0 then OptimalTableLog(6, |w|, LargestByte(w), 2) else 0
  }

  lemma {:induction false} WeightsFit(r: Result<nat>, fits: bool, p: Plan, w: seq<byte>, dstSize: nat, L: nat)
    requires Outcome(r, fits, p, w, dstSize, L) && p.L == L <= MAX_FSE_TABLELOG_FOR_HUFF_HEADER
    ensures fits && (r == Ok(0) ==> p.size <= dstSize && PlanFor(p, w)) && (r == Err(DstSizeTooSmall) ==> TooShort(p, dstSize))
  {
    hide CountsRefused, Drafted, TooShort, TooLong, PlanFor, BlockSize;
  }

  lemma {:induction false} WeightsShort(p: Plan, dstSize: nat)
    requires TooShort(p, dstSize) && p.L <= MAX_FSE_TABLELOG_FOR_HUFF_HEADER && |p.norm| <= HUF_TABLELOG_MAX + 1
    ensures dstSize < WEIGHTS_NCOUNT
  {
    hide NormOk, NCountReach, NCountWriteBound, EnoughFor;
    EnoughWeights(|p.norm|, p.L);
    if dstSize >= WEIGHTS_NCOUNT { Enough(p.norm, p.L, dstSize); }
  }

  lemma {:induction false} SomeCount(count: seq<nat>, w: seq<byte>, max: nat)
    requires Histogram(count, w) && max in count
    ensures exists s: nat :: Occ(w, |w|, s) == max
  {
    hide SumCount, Occ;
    var s: nat :| s < |count| && count[s] == max;
    assert Occ(w, |w|, s) == max;
  }

  /**
    The size of the compressed weights: 0 for at most one weight or if no weight occurs twice, 1 for one weight
    repeated, and otherwise that of an FSE block with a table log of at most 6, or the reason why there is none.
   */
  ghost predicate WeightsVerdict(h: Result<nat>, p: Plan, w: seq<byte>, dstSize: nat) {
    if |w| <= 1 then h == Ok(0)
    else if OneValue(w) then h == Ok(1)
    else if forall s: nat :: Occ(w, |w|, s) <= 1 then h == Ok(0)
    else Outcome(h, true, p, w, dstSize, WeightsLog(w))
  }

  /** The weights and the room for them leave one result only. */
  lemma {:induction false} WeightsDecide(h: Result<nat>, p: Plan, h': Result<nat>, p': Plan, w: seq<byte>, dstSize: nat)
    requires WeightsVerdict(h, p, w, dstSize) && WeightsVerdict(h', p', w, dstSize)
    ensures h == h'
  {
    hide Outcome, WeightsLog, Occ, OneValue;
    if |w| > 1 && !OneValue(w) && !(forall s: nat :: Occ(w, |w|, s) <= 1) {
      OutcomeDecides(h, p, h', p', w, dstSize, WeightsLog(w));
    }
  }

  /** HUF_compressWeights: 0 and 1 stand for weights that are not worth compressing. */
  method CompressWeights(dst: array<byte>, start: nat, dstSize: nat, weights: seq<byte>) returns (r: Result<nat>, ghost p: Plan)
    requires start + dstSize < dst.Length && |weights| <= 255 && AllAtMost(weights, HUF_TABLELOG_MAX)
    modifies dst
    ensures r.Ok? && r.value > 1 ==> r.value <= dstSize && PlanFor(p, weights) && p.L <= MAX_FSE_TABLELOG_FOR_HUFF_HEADER
                                     && Compressed(dst[start..start + r.value], p, weights)
    ensures WeightsVerdict(r, p, weights, dstSize)
    ensures r == Err(DstSizeTooSmall) ==> dstSize < WEIGHTS_NCOUNT
    ensures forall k | 0 <= k < dst.Length && !(start <= k < start + dstSize + (if dstSize < WEIGHTS_NCOUNT then 1 else 0)) ::
              dst[k] == old(dst[k])
  {
    hide Histogram, AllAtMost, PlanFor, Compressed, Outcome, WeightsLog, Occ;
    p := Plan([], 0, FseTable.CTable(0, [], []), [], 0);
    if |weights| <= 1 { return Ok(0), p; }
    NoneAbove(weights);
    var maxCount, count := FseWhole.Count(weights, HUF_TABLELOG_MAX);
    OneSymbol(count, weights, maxCount.value);
    MostFrequent(count, weights, maxCount.value);
    SomeCount(count, weights, maxCount.value);
    if maxCount.value == |weights| { return Ok(1), p; }
    if maxCount.value == 1 { return Ok(0), p; }
    r, p := CompressCountedWeights(dst, start, dstSize, weights, count);
  }

  // ---------- HUF_writeCTable ----------

  /** `c` starts with a header for the weights `w`, of size `size`; `p` says how they are compressed, if they are. */
  ghost predicate HeaderForm(c: seq<byte>, size: nat, w: seq<byte>, p: Plan) {
    && 0 < size <= |c| && 0 < |w| <= 255
    && (if c[0] >= 128 then RawForm(c, w) && size == Half(|w| + 1) + 1
        else size == c[0] + 1 && PlanFor(p, w) && p.L <= MAX_FSE_TABLELOG_FOR_HUFF_HEADER && Compressed(c[1..size], p, w))
  }

  /** The weights of all symbols but the last, from their lengths. */
  method WeightsFor(table: seq<CElt>, maxSymbolValue: nat, huffLog: nat, ghost lens: seq<nat>) returns (huffWeight: seq<byte>)
    requires |table| == |lens| == maxSymbolValue + 1 && CodeTable(table, lens, huffLog)
    requires AtMost(lens, huffLog) && huffLog <= HUF_TABLELOG_MAX
    ensures huffWeight == StoredWeights(lens, huffLog) && AllAtMost(huffWeight, HUF_TABLELOG_MAX)
  {
    var bitsToWeight := new byte[HUF_TABLELOG_MAX + 1](_ => 0);
    for n := 1 to huffLog + 1
      invariant bitsToWeight[0] == 0
      invariant forall b: nat {:trigger bitsToWeight[b]} | 1 <= b < n :: bitsToWeight[b] == huffLog + 1 - b
    {
      bitsToWeight[n] := huffLog + 1 - n;
    }
    var weights := new byte[maxSymbolValue](_ => 0);
    for n := 0 to maxSymbolValue
      invariant forall s: nat {:trigger weights[s]} | s < n :: weights[s] == StoredWeights(lens, huffLog)[s]
      invariant forall b: nat {:trigger bitsToWeight[b]} | b <= huffLog :: bitsToWeight[b] == if b == 0 then 0 else huffLog + 1 - b
    {
      assert lens[n] <= huffLog && table[n].nbBits == lens[n];
      weights[n] := bitsToWeight[table[n].nbBits];
    }
    huffWeight := weights[..];
  }

  lemma {:induction false} HalfSmall(n: nat)
    requires n <= 255
    ensures Half(n) <= 127
  {
  }

  lemma {:induction false} MoreAtMost(w: seq<nat>, a: nat, b: nat)
    requires AllAtMost(w, a) && a <= b
    ensures AllAtMost(w, b)
  {
  }

  lemma {:induction false} RawHeader(c: seq<byte>, w: seq<byte>, p: Plan)
    requires RawForm(c, w) && |c| == Half(|w| + 1) + 1
    ensures HeaderForm(c, |c|, w, p)
  {
    hide Half, AllAtMost;
  }

  lemma {:induction false} FseHeader(c: seq<byte>, w: seq<byte>, p: Plan)
    requires 0 < |c| <= 128 && c[0] == |c| - 1 && 0 < |w| <= 255
    requires PlanFor(p, w) && p.L <= MAX_FSE_TABLELOG_FOR_HUFF_HEADER && Compressed(c[1..|c|], p, w)
    ensures HeaderForm(c, |c|, w, p)
  {
    hide PlanFor, Compressed;
  }

  /**
    The result of writing `n` weights that compress to `h`: the compressed form if it has more than one byte and less
    than half a byte for each weight, and otherwise half a byte for each, for which there may be too many or no room.
   */
  ghost function HeaderResult(h: Result<nat>, n: nat, maxDstSize: nat): Result<nat> {
    if h.Err? then Err(h.error)
    else if 1 < h.value < Half(n) then Ok(h.value + 1)
    else if n > 128 then Err(Generic)
    else if Half(n + 1) + 1 > maxDstSize then Err(DstSizeTooSmall)
    else Ok(Half(n + 1) + 1)
  }

  /** The header is in the compressed form. */
  ghost predicate Short(h: Result<nat>, n: nat) {
    h.Ok? && 1 < h.value < Half(n)
  }

  /** The weights in the smaller of the two forms; `h` is the size of the compressed form, or why there is none. */
  method WriteWeights(dst: array<byte>, maxDstSize: nat, huffWeight: seq<byte>) returns (r: Result<nat>, ghost h: Result<nat>, ghost p: Plan)
    requires 0 < maxDstSize < dst.Length && 0 < |huffWeight| <= 255 && AllAtMost(huffWeight, HUF_TABLELOG_MAX)
    modifies dst
    ensures WeightsVerdict(h, p, huffWeight, maxDstSize - 1) && r == HeaderResult(h, |huffWeight|, maxDstSize)
    ensures r.Ok? ==> r.value <= maxDstSize && HeaderForm(dst[..r.value], r.value, huffWeight, p)
                      && (dst[0] < 128 <==> Short(h, |huffWeight|))
    ensures h == Err(DstSizeTooSmall) ==> maxDstSize <= WEIGHTS_NCOUNT
    ensures forall k | maxDstSize + (if maxDstSize <= WEIGHTS_NCOUNT then 1 else 0) <= k < dst.Length :: dst[k] == old(dst[k])
  {
    hide PlanFor, Compressed, RawForm, AllAtMost, Half, HeaderForm, WeightsVerdict;
    MoreAtMost(huffWeight, HUF_TABLELOG_MAX, 15);
    HalfSmall(|huffWeight|);
    var hSize;
    hSize, p := CompressWeights(dst, 1, maxDstSize - 1, huffWeight);
    h := hSize;
    if hSize.Err? { return Err(hSize.error), h, p; }
    if hSize.value > 1 && hSize.value < Half(|huffWeight|) {
      r := Ok(hSize.value + 1);
      StoreFirst(dst, hSize.value, r.value);
      FseHeader(dst[..r.value], huffWeight, p);
    } else {
      r := WriteRaw(dst, 0, maxDstSize, huffWeight);
      if r.Ok? {
        assert dst[..r.value] == dst[0..0 + r.value];
        RawHeader(dst[..r.value], huffWeight, p);
        RawFirst(dst[..r.value], huffWeight);
      }
    }
  }

  lemma {:induction false} RawFirst(c: seq<byte>, w: seq<nat>)
    requires RawForm(c, w)
    ensures |c| > 0 && c[0] >= 128
  {
  }

  method StoreFirst(dst: array<byte>, x: byte, size: nat)
    requires 0 < size <= dst.Length
    modifies dst
    ensures dst[0] == x && dst[..size][1..size] == old(dst[1..size])
    ensures forall k | 1 <= k < dst.Length :: dst[k] == old(dst[k])
  {
    dst[0] := x;
  }

  /**
    HUF_writeCTable, for the table of a complete code with at least two symbols in its alphabet. On success
    the destination holds a header for the weights of all symbols but the last. If the destination has at most
    13 bytes, the byte after it may be stored into.
   */
  method WriteCTable(dst: array<byte>, maxDstSize: nat, table: seq<CElt>, maxSymbolValue: nat, huffLog: nat, ghost lens: seq<nat>)
    returns (r: Result<nat>, ghost h: Result<nat>, ghost p: Plan)
    requires 0 < maxDstSize < dst.Length && 1 <= maxSymbolValue
    requires |table| == |lens| == maxSymbolValue + 1 && CodeTable(table, lens, huffLog)
    requires AtMost(lens, huffLog) && huffLog <= HUF_TABLELOG_MAX
    modifies dst
    ensures if maxSymbolValue > HUF_SYMBOLVALUE_MAX then
              r == Err(MaxSymbolValueTooLarge)
            else
              && AllAtMost(StoredWeights(lens, huffLog), HUF_TABLELOG_MAX) && WeightsVerdict(h, p, StoredWeights(lens, huffLog), maxDstSize - 1)
              && r == HeaderResult(h, maxSymbolValue, maxDstSize)
    ensures r.Ok? ==> r.value <= maxDstSize && HeaderForm(dst[..r.value], r.value, StoredWeights(lens, huffLog), p)
                      && (dst[0] < 128 <==> Short(h, maxSymbolValue))
    ensures h == Err(DstSizeTooSmall) ==> maxDstSize <= WEIGHTS_NCOUNT
    ensures forall k | maxDstSize + (if maxDstSize <= WEIGHTS_NCOUNT then 1 else 0) <= k < dst.Length :: dst[k] == old(dst[k])
  {
    h, p := Ok(0), Plan([], 0, FseTable.CTable(0, [], []), [], 0);
    if maxSymbolValue > HUF_SYMBOLVALUE_MAX { return Err(MaxSymbolValueTooLarge), h, p; }
    var huffWeight := WeightsFor(table, maxSymbolValue, huffLog, lens);
    hide *;
    r, h, p := WriteWeights(dst, maxDstSize, huffWeight);
  }

  // ---------- HUF_readStats ----------

  /** What is known of the header being read, if anything. */
  datatype Expected = Expected(known: bool, w: seq<byte>, size: nat, p: Plan)

  ghost predicate ExpectedAt(e: Expected, src: seq<byte>) {
    e.known ==> HeaderForm(src, e.size, e.w, e.p)
  }

  /** The weights `w`, or the error in their place, as an FSE block of at most `n` symbols reads. */
  ghost predicate FseRead(c: seq<byte>, n: nat, dt: FseTable.DTable, t: seq<nat>, w: Result<seq<nat>>) {
    var found: seq<nat> := if w.Ok? then w.value else [];
    && |found| <= n
    && ReadBlock(c, dt, t, 6, if w.Ok? then Ok(|found|) else Err(w.error), found + seq(n - |found|, _ => 0))
  }

  /** What HUF_readStats finds of stored weights, and how many bytes they take. */
  ghost predicate WeightsFound(src: seq<byte>, hwSize: nat, dt: FseTable.DTable, t: seq<nat>, w: Result<seq<nat>>, size: nat) {
    if |src| == 0 then w == Err(SrcSizeWrong)
    else if src[0] >= 128 then RawRead(src, hwSize, w) && (w.Ok? ==> size == Half(|w.value| + 1) + 1)
    else if src[0] + 1 > |src| then w == Err(SrcSizeWrong)
    else hwSize > 0 && FseRead(src[1..1 + src[0]], hwSize - 1, dt, t, w) && (w.Ok? ==> size == src[0] + 1)
  }

  lemma {:induction false} IsFseRead(c: seq<byte>, dt: FseTable.DTable, t: seq<nat>, r: Result<nat>, out: seq<nat>, w: Result<seq<nat>>)
    requires ReadBlock(c, dt, t, 6, r, out) && (r.Ok? ==> r.value <= |out|)
    requires w == if r.Ok? then Ok(out[..r.value]) else Err(r.error)
    ensures FseRead(c, |out|, dt, t, w)
  {
    hide FseNCountRef.NCountRead, FseTable.DecoderFor, BitStream.InitError, FseBlock.StreamRun;
  }

  /** First half of HUF_readStats: the stored weights. */
  method ReadWeights(src: seq<byte>, hwSize: nat, ghost e: Expected)
    returns (r: Result<seq<nat>>, readSize: nat, ghost dt: FseTable.DTable, ghost t: seq<nat>)
    requires hwSize > 0 && ExpectedAt(e, src)
    ensures WeightsFound(src, hwSize, dt, t, r, readSize)
    ensures r.Ok? ==> |r.value| < hwSize && 0 < readSize <= |src|
    ensures e.known && |e.w| < hwSize ==> r == Ok(e.w) && readSize == e.size
  {
    hide PlanFor, Compressed, RawForm, Half, ReadBlock, RawRead, FseRead;
    readSize, dt, t := 0, FseTable.DTable(0, false, []), [];
    if |src| == 0 { return Err(SrcSizeWrong), 0, dt, t; }
    if src[0] >= 128 {
      r := ReadRaw(src, hwSize);
      if r.Ok? { readSize := Half(|r.value| + 1) + 1; }
      return;
    }
    var iSize := src[0];
    if iSize + 1 > |src| { return Err(SrcSizeWrong), 0, dt, t; }
    var huffWeight := new nat[hwSize - 1];
    var oSize;
    oSize, dt, t := DecompressWksp(huffWeight, src[1..1 + iSize], MAX_FSE_TABLELOG_FOR_HUFF_HEADER, e.known, e.p, e.w);
    r := if oSize.Err? then Err(oSize.error) else Ok(huffWeight[..oSize.value]);
    IsFseRead(src[1..1 + iSize], dt, t, oSize, huffWeight[..], r);
    if oSize.Ok? { readSize := iSize + 1; }
  }

  /** What a reader has found: the table for the weights, the weights, their size in bytes, and their code. */
  datatype Seen = Seen(dt: FseTable.DTable, t: seq<nat>, w: Result<seq<nat>>, size: nat, code: Result<(seq<nat>, nat)>)

  /** The code is the only one that has these weights in its header; if there is none, the header is corrupted. */
  ghost predicate CodeFound(src: seq<byte>, hwSize: nat, g: Seen) {
    && WeightsFound(src, hwSize, g.dt, g.t, g.w, g.size)
    && match g.w
       case Err(e) => g.code == Err(e)
       case Ok(w) =>
         if exists lens, M :: HeaderOf(w, lens, M) then g.code.Ok? && HeaderOf(w, g.code.value.0, g.code.value.1)
         else g.code == Err(CorruptionDetected)
  }

  /** What the result of HUF_readStats says about the code. */
  ghost function CodeOf(r: Result<Stats>): Result<(seq<nat>, nat)> {
    match r
    case Err(e) => Err(e)
    case Ok(st) => Ok((Lengths(st.weights, st.tableLog), st.tableLog))
  }

  lemma {:induction false} IsCodeFound(src: seq<byte>, hwSize: nat, g: Seen, r: Result<Stats>)
    requires WeightsFound(src, hwSize, g.dt, g.t, g.w, g.size) && g.w.Ok? && g.code == CodeOf(r)
    requires r.Ok? ==> HeaderOf(g.w.value, Lengths(r.value.weights, r.value.tableLog), r.value.tableLog)
    requires forall lens, M | HeaderOf(g.w.value, lens, M) :: r.Ok?
    requires r.Err? ==> r.error == CorruptionDetected
    ensures CodeFound(src, hwSize, g)
  {
    hide WeightsFound, HeaderOf, Lengths;
  }

  /**
    HUF_readStats. Whatever the bytes, what it accepts is a complete code, the only one with the weights that are
    found in them; from a header that was written, it finds the code of which that is the header, if there is one.
   */
  method ReadStats(src: seq<byte>, hwSize: nat, ghost e: Expected) returns (r: Result<Stats>, readSize: nat, ghost g: Seen)
    requires hwSize > 0 && ExpectedAt(e, src) && (e.known ==> |e.w| < hwSize)
    ensures CodeFound(src, hwSize, g) && g.code == CodeOf(r) && (r.Ok? ==> readSize == g.size)
    ensures r.Ok? ==> 0 < readSize <= |src| && |r.value.weights| <= hwSize
                      && StatsOf(r.value, Lengths(r.value.weights, r.value.tableLog))
    ensures e.known ==> forall lens, M | HeaderOf(e.w, lens, M) ::
              r.Ok? && r.value.tableLog == M && Lengths(r.value.weights, M) == lens && readSize == e.size
    ensures e.known && r.Ok? ==> HeaderOf(e.w, Lengths(r.value.weights, r.value.tableLog), r.value.tableLog)
    ensures e.known && r.Err? ==> r.error == CorruptionDetected
  {
    hide *;
    var huffWeight;
    ghost var dt, t;
    huffWeight, readSize, dt, t := ReadWeights(src, hwSize, e);
    if huffWeight.Err? {
      g := Seen(dt, t, huffWeight, readSize, Err(huffWeight.error));
      NoCodeFound(src, hwSize, g, huffWeight.error);
      return Err(huffWeight.error), 0, g;
    }
    r := CompleteStats(huffWeight.value);
    g := Seen(dt, t, huffWeight, readSize, CodeOf(r));
    IsCodeFound(src, hwSize, g, r);
    if r.Ok? { StatsSize(huffWeight.value, r.value); }
  }

  lemma {:induction false} NoCodeFound(src: seq<byte>, hwSize: nat, g: Seen, e: Error)
    requires WeightsFound(src, hwSize, g.dt, g.t, g.w, g.size) && g.w == Err(e) && g.code == Err(e)
    ensures CodeFound(src, hwSize, g) && forall r: Result<Stats> | r == Err(e) :: CodeOf(r) == Err(e)
  {
    hide WeightsFound;
  }

  lemma {:induction false} StatsSize(w: seq<nat>, st: Stats)
    requires HeaderOf(w, Lengths(st.weights, st.tableLog), st.tableLog)
    ensures |st.weights| == |w| + 1
  {
  }

  /** A code whose header has been written: it has a last symbol, and codes of full length. */
  ghost predicate Written(lens: seq<nat>, M: nat) {
    && 2 <= |lens| <= 256 && FullCode(lens, M) && 1 <= M <= HUF_TABLELOG_MAX
    && lens[|lens| - 1] > 0 && (exists s :: 0 <= s < |lens| && lens[s] == M)
  }

  /** The code can be read back: it has not both codes of 12 bits and a code of 1 bit before the last symbol. */
  ghost predicate Readable(lens: seq<nat>, M: nat) {
    !(M == HUF_TABLELOG_MAX && exists s :: 0 <= s < |lens| - 1 && lens[s] == 1)
  }

  /** Only the code itself has the header written for it. */
  lemma {:induction false} HeaderIsOwn(lens: seq<nat>, M: nat, lens': seq<nat>, M': nat)
    requires Written(lens, M) && HeaderOf(StoredWeights(lens, M), lens', M')
    ensures HeaderOf(StoredWeights(lens, M), lens, M) && Readable(lens, M)
  {
    HeaderExactly(lens, M);
    var w := StoredWeights(lens, M);
    assert AtMost(lens, M);
    hide FullCode;
    assert Storable(w);
  }

  /** HUF_readStats on a header that was written finds the code itself, exactly when that can be read back. */
  method ReadWritten(src: seq<byte>, ghost size: nat, ghost p: Plan, ghost known: bool, ghost lens: seq<nat>, ghost M: nat)
    returns (r: Result<Stats>, readSize: nat, ghost g: Seen)
    requires known ==> Written(lens, M) && HeaderForm(src, size, StoredWeights(lens, M), p)
    ensures CodeFound(src, 256, g) && g.code == CodeOf(r) && (r.Ok? ==> readSize == g.size)
    ensures r.Ok? ==> 0 < readSize <= |src| && |r.value.weights| <= 256
                      && StatsOf(r.value, Lengths(r.value.weights, r.value.tableLog))
    ensures known ==> (r.Ok? <==> Readable(lens, M)) && (r.Err? ==> r.error == CorruptionDetected)
    ensures known && r.Ok? ==> r.value.tableLog == M && Lengths(r.value.weights, M) == lens && readSize == size
  {
    ghost var e := Expected(known, if known then StoredWeights(lens, M) else [], size, p);
    if known { HeaderExactly(lens, M); }
    hide HeaderForm, HeaderOf, StatsOf, Written, Readable, Lengths, StoredWeights, CodeFound, CodeOf;
    r, readSize, g := ReadStats(src, HUF_SYMBOLVALUE_MAX + 1, e);
    if known && r.Ok? { HeaderIsOwn(lens, M, Lengths(r.value.weights, r.value.tableLog), r.value.tableLog); }
  }

  // ---------- the tables that are built from a header ----------

  /** The result of reading a table of at most `maxTableLog` bits for the code that has been found. */
  ghost predicate TableFor(g: Seen, maxTableLog: nat, r: Result<nat>, code: seq<nat>) {
    match g.code
    case Err(e) => r == Err(e)
    case Ok((lens, M)) => code == lens && r == if M > maxTableLog then Err(TableLogTooLarge) else Ok(g.size)
  }

  lemma {:induction false} IsTableFor(g: Seen, stats: Result<Stats>, maxTableLog: nat)
    requires g.code == CodeOf(stats)
    ensures match stats
            case Err(e) => forall code: seq<nat> :: TableFor(g, maxTableLog, Err(e), code)
            case Ok(st) =>
              && g.code == Ok((Lengths(st.weights, st.tableLog), st.tableLog))
              && TableFor(g, maxTableLog, if st.tableLog > maxTableLog then Err(TableLogTooLarge) else Ok(g.size), Lengths(st.weights, st.tableLog))
  {
    hide Lengths;
  }

  /** HUF_readDTableX1_wksp: the table of the code in the header. */
  method ReadDTableX1(src: seq<byte>, maxTableLog: nat, ghost size: nat, ghost p: Plan, ghost known: bool, ghost lens: seq<nat>, ghost M: nat)
    returns (r: Result<nat>, dt: seq<DEltX1>, tableLog: nat, ghost code: seq<nat>, ghost g: Seen)
    requires known ==> Written(lens, M) && HeaderForm(src, size, StoredWeights(lens, M), p) && M <= maxTableLog
    ensures CodeFound(src, 256, g) && TableFor(g, maxTableLog, r, code) && (r.Ok? ==> g.code == Ok((code, tableLog)))
    ensures r.Ok? ==> 0 < r.value <= |src| && 1 <= tableLog <= HUF_TABLELOG_MAX && tableLog <= maxTableLog
                      && FullCode(code, tableLog) && TableX1(dt, code, tableLog)
    ensures known ==> (r.Ok? <==> Readable(lens, M)) && (r.Err? ==> r.error == CorruptionDetected)
    ensures known && r.Ok? ==> r.value == size && tableLog == M && code == lens
  {
    hide *;
    var stats, iSize;
    stats, iSize, g := ReadWritten(src, size, p, known, lens, M);
    IsTableFor(g, stats, maxTableLog);
    if stats.Err? { return Err(stats.error), [], 0, [], g; }
    tableLog := stats.value.tableLog;
    code := Lengths(stats.value.weights, tableLog);
    if tableLog > maxTableLog { return Err(TableLogTooLarge), [], 0, code, g; }
    StatsParts(stats.value, code);
    var rankVal := new nat[|stats.value.rankStats|](i requires 0 <= i < |stats.value.rankStats| => stats.value.rankStats[i]);
    var cells := FillDTableX1(stats.value.weights, rankVal, tableLog, code);
    r, dt := Ok(iSize), cells[..];
  }

  lemma {:induction false} StatsParts(st: Stats, lens: seq<nat>)
    requires StatsOf(st, lens)
    ensures FullCode(lens, st.tableLog) && WeightsOf(st.weights, lens, st.tableLog) && |lens| == |st.weights|
    ensures 1 <= st.tableLog <= HUF_TABLELOG_MAX && st.tableLog < |st.rankStats| && AtMost(lens, st.tableLog)
    ensures forall w: nat {:trigger st.rankStats[w]} | 1 <= w <= st.tableLog :: st.rankStats[w] == NbOf(lens, st.tableLog + 1 - w, |lens|)
  {
    hide CodeKraft, NbOf;
  }

  /** HUF_readDTableX2_wksp: the double-symbol table of the code in the header, with cells for `maxTableLog` bits. */
  method ReadDTableX2(src: seq<byte>, maxTableLog: nat, ghost size: nat, ghost p: Plan, ghost known: bool, ghost lens: seq<nat>, ghost M: nat)
    returns (r: Result<nat>, dt: seq<DEltX2>, ghost code: seq<nat>, ghost g: Seen)
    requires known ==> Written(lens, M) && HeaderForm(src, size, StoredWeights(lens, M), p) && M <= maxTableLog
    requires 1 <= maxTableLog <= HUF_TABLELOG_MAX
    ensures CodeFound(src, 256, g) && TableFor(g, maxTableLog, r, code)
    ensures r.Ok? ==> 0 < r.value <= |src| && FullCode(code, maxTableLog) && TableX2(dt, code, maxTableLog)
    ensures known ==> (r.Ok? <==> Readable(lens, M)) && (r.Err? ==> r.error == CorruptionDetected)
    ensures known && r.Ok? ==> r.value == size && code == lens
  {
    hide *;
    var stats, iSize;
    stats, iSize, g := ReadWritten(src, size, p, known, lens, M);
    IsTableFor(g, stats, maxTableLog);
    if stats.Err? { return Err(stats.error), [], [], g; }
    var tableLog := stats.value.tableLog;
    code := Lengths(stats.value.weights, tableLog);
    if tableLog > maxTableLog { return Err(TableLogTooLarge), [], code, g; }
    StatsParts(stats.value, code);
    StatsAreFor(stats.value.rankStats, code, tableLog);
    var cells := BuildX2(stats.value.weights, stats.value.rankStats, tableLog, maxTableLog, code);
    r, dt := Ok(iSize), cells[..];
  }

  lemma {:induction false} StatsAreFor(rankStats: seq<nat>, lens: seq<nat>, M: nat)
    requires M < |rankStats| && forall w: nat {:trigger rankStats[w]} | 1 <= w <= M :: rankStats[w] == NbOf(lens, M + 1 - w, |lens|)
    ensures StatsFor(rankStats, lens, M)
  {
  }

  /** The bits of every symbol, and how many symbols have that many. */
  method CodeLengths(weights: seq<nat>, tableLog: nat, ghost lens: seq<nat>) returns (table: array<CElt>,
                     nbPerRank: array<nat>, hasZeroWeights: bool)
    requires WeightsOf(weights, lens, tableLog)
    ensures fresh(table) && fresh(nbPerRank) && table.Length == |lens| && nbPerRank.Length == tableLog + 2
    ensures forall s: nat {:trigger table[s]} | s < |lens| :: table[s].nbBits == lens[s]
    ensures forall n: nat {:trigger nbPerRank[n]} | n < nbPerRank.Length :: nbPerRank[n] == NbOf(lens, n, |lens|)
    ensures hasZeroWeights <==> exists s :: 0 <= s < |lens| && lens[s] == 0
  {
    table := new CElt[|weights|](_ => CElt(0, 0));
    nbPerRank := new nat[tableLog + 2](_ => 0);
    hasZeroWeights := false;
    for n := 0 to |weights|
      invariant hasZeroWeights <==> exists s :: 0 <= s < n && lens[s] == 0
      invariant forall s: nat {:trigger table[s]} | s < n :: table[s].nbBits == lens[s]
      invariant forall b: nat {:trigger nbPerRank[b]} | b < nbPerRank.Length :: nbPerRank[b] == 0
    {
      var w := weights[n];
      assert lens[n] <= tableLog;
      hasZeroWeights := hasZeroWeights || w == 0;
      table[n] := CElt(0, if w == 0 then 0 else tableLog + 1 - w);
    }
    for n := 0 to |weights|
      invariant forall b: nat {:trigger nbPerRank[b]} | b < nbPerRank.Length :: nbPerRank[b] == NbOf(lens, b, n)
      invariant forall s: nat {:trigger table[s]} | s < |lens| :: table[s].nbBits == lens[s]
    {
      assert lens[n] <= tableLog;
      nbPerRank[table[n].nbBits] := nbPerRank[table[n].nbBits] + 1;
    }
  }

  /** HUF_readCTable: the header gives back the coding table that was written. */
  method ReadCTable(src: seq<byte>, maxSymbolValue0: nat, ghost size: nat, ghost p: Plan, ghost known: bool, ghost lens: seq<nat>, ghost M: nat)
    returns (r: Result<nat>, table: seq<CElt>, maxSymbolValue: nat, hasZeroWeights: bool, ghost code: seq<nat>, ghost tableLog: nat,
             ghost g: Seen)
    requires known ==> Written(lens, M) && HeaderForm(src, size, StoredWeights(lens, M), p)
    ensures CodeFound(src, 256, g)
    ensures match g.code
            case Err(e) => r == Err(e)
            case Ok((lens, M)) =>
              if |lens| > maxSymbolValue0 + 1 then r == Err(MaxSymbolValueTooSmall) else r == Ok(g.size) && code == lens && tableLog == M
    ensures r.Ok? ==> 0 < r.value <= |src| && FullCode(code, tableLog) && CodeTable(table, code, tableLog)
                      && |code| == maxSymbolValue + 1 <= maxSymbolValue0 + 1
                      && (hasZeroWeights <==> exists s :: 0 <= s < |code| && code[s] == 0)
    ensures known ==> (r.Ok? <==> Readable(lens, M) && |lens| <= maxSymbolValue0 + 1)
    ensures known && r.Ok? ==> r.value == size && code == lens && tableLog == M
  {
    hide *;
    table, maxSymbolValue, hasZeroWeights, code, tableLog := [], maxSymbolValue0, false, [], 0;
    var stats, readSize;
    stats, readSize, g := ReadWritten(src, size, p, known, lens, M);
    IsTableFor(g, stats, 12);
    CodeError(g, stats);
    if stats.Err? { r := Err(stats.error); return; }
    tableLog := stats.value.tableLog;
    code := Lengths(stats.value.weights, tableLog);
    StatsParts(stats.value, code);
    var nbSymbols := |stats.value.weights|;
    if nbSymbols > maxSymbolValue0 + 1 { r := Err(MaxSymbolValueTooSmall); return; }
    var cells, nbPerRank, zero := CodeLengths(stats.value.weights, stats.value.tableLog, code);
    var valPerRank := RankValues(nbPerRank[..], stats.value.tableLog, code);
    AssignValues(code, tableLog, valPerRank, cells);
    FullNotEmpty(code, tableLog);
    r, table, maxSymbolValue, hasZeroWeights := Ok(readSize), cells[..], nbSymbols - 1, zero;
  }

  lemma {:induction false} CodeError(g: Seen, stats: Result<Stats>)
    requires g.code == CodeOf(stats)
    ensures stats.Err? ==> g.code == Err(stats.error)
  {
  }

  lemma {:induction false} FullNotEmpty(lens: seq<nat>, M: nat)
    requires FullCode(lens, M)
    ensures |lens| > 0
  {
  }
}
