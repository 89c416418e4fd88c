/**
  FSE_compress2 and FSE_decompress_wksp: counting, normalization, table description, tables and stream
  together, on arbitrary bytes.
 */
module FseWhole {
  import opened Bits
  import opened BitStream
  import opened Errors
  import opened FseWalk
  import opened FseSpread
  import opened FseTable
  import opened FseWksp
  import opened FseStream
  import opened FseBlock
  import opened FseCounters
  import opened FseShares
  import opened FseNormalize
  import opened FseNCount
  import opened FseNCountBound
  import opened FseNCountRef
  import opened FseReadNCount

  // ---------- HIST_count ----------

  /** `count` has the occurrences of each byte value in the first `n` bytes of `src`. */
  ghost predicate Tallied(count: seq<nat>, src: seq<byte>, n: nat)
    requires n <= |src|
  {
    forall s: nat {:trigger count[s]} | s < |count| :: count[s] == Occ(src, n, s)
  }

  lemma {:induction false} TalliedNext(count: seq<nat>, src: seq<byte>, n: nat)
    requires n < |src| && |count| == 256 && Tallied(count, src, n)
    ensures Tallied(count[src[n] := count[src[n]] + 1], src, n + 1)
  {
  }

  lemma {:induction false} SumNext(count: seq<nat>, s: nat, n: nat)
    requires s < |count| && n <= |count|
    ensures SumCount(count[s := count[s] + 1], n) == SumCount(count, n) + (if s < n then 1 else 0)
  {
    if n > 0 { SumNext(count, s, n - 1); }
  }

  lemma {:induction false} SumZeros(count: seq<nat>, n: nat)
    requires n <= |count| && forall s | 0 <= s < n :: count[s] == 0
    ensures SumCount(count, n) == 0
  {
    if n > 0 { SumZeros(count, n - 1); }
  }

  lemma {:induction false} SumTrimmed(count: seq<nat>, m: nat, n: nat)
    requires m <= n <= |count| && forall s | m <= s < n :: count[s] == 0
    ensures SumCount(count[..m], m) == SumCount(count, n)
    decreases n
  {
    if m < n { SumTrimmed(count, m, n - 1); } else { SumSame(count[..m], count, m); }
  }

  lemma {:induction false} SumSame(a: seq<nat>, b: seq<nat>, n: nat)
    requires n <= |a| && n <= |b| && a[..n] == b[..n]
    ensures SumCount(a, n) == SumCount(b, n)
  {
    if n > 0 {
      assert a[n - 1] == a[..n][n - 1] == b[n - 1];
      assert a[..n - 1] == a[..n][..n - 1] == b[..n - 1];
      SumSame(a, b, n - 1);
    }
  }

  function LargestByte(src: seq<byte>): (m: nat)
    ensures m <= 255
  {
    if |src| == 0 then 0
    else
      var m := LargestByte(src[..|src| - 1]);
      if src[|src| - 1] > m then src[|src| - 1] else m
  }

  lemma {:induction false} LargestIs(src: seq<byte>, m: nat)
    requires forall i | 0 <= i < |src| :: src[i] <= m
    requires exists i :: 0 <= i < |src| && src[i] == m
    ensures LargestByte(src) == m
  {
    var i :| 0 <= i < |src| && src[i] == m;
    LargestBound(src, i);
    LargestAtMost(src, m);
  }

  lemma {:induction false} LargestBound(src: seq<byte>, i: nat)
    requires i < |src|
    ensures src[i] <= LargestByte(src)
  {
    if i < |src| - 1 { LargestBound(src[..|src| - 1], i); }
  }

  lemma {:induction false} LargestAtMost(src: seq<byte>, m: nat)
    requires forall i | 0 <= i < |src| :: src[i] <= m
    ensures LargestByte(src) <= m
  {
    if |src| > 0 { LargestAtMost(src[..|src| - 1], m); }
  }

  /** What HIST_count finds: a count for each value up to the largest one in `src`. */
  ghost predicate Histogram(count: seq<nat>, src: seq<byte>) {
    && 0 < |count| <= 256 && Tallied(count, src, |src|)
    && count[|count| - 1] > 0 && SumCount(count, |count|) == |src|
    && forall i | 0 <= i < |src| :: src[i] < |count| && count[src[i]] > 0
  }

  /** The number of occurrences of each value up to the largest one. */
  ghost function CountsOf(src: seq<byte>): (count: seq<nat>)
    ensures |count| == LargestByte(src) + 1
  {
    seq(LargestByte(src) + 1, s requires s >= 0 => Occ(src, |src|, s))
  }

  method CountBytes(src: seq<byte>) returns (count: array<nat>)
    ensures fresh(count) && count.Length == 256 && Tallied(count[..], src, |src|) && SumCount(count[..], 256) == |src|
  {
    count := new nat[256](_ => 0);
    SumZeros(count[..], 256);
    for ip := 0 to |src|
      invariant Tallied(count[..], src, ip) && SumCount(count[..], 256) == ip
    {
      ghost var before := count[..];
      TalliedNext(before, src, ip);
      SumNext(before, src[ip], 256);
      count[src[ip]] := count[src[ip]] + 1;
      assert count[..] == before[src[ip] := before[src[ip]] + 1];
    }
  }

  /** HIST_count: the number of occurrences of each value, the largest of them, and the alphabet trimmed. */
  method Count(src: seq<byte>, maxSymbolValue: nat) returns (r: Result<nat>, count: seq<nat>)
    requires |src| > 0
    ensures r.Err? <==> exists i :: 0 <= i < |src| && src[i] > maxSymbolValue
    ensures r.Err? ==> r.error == MaxSymbolValueTooSmall
    ensures r.Ok? ==> Histogram(count, src) && |count| <= maxSymbolValue + 1
    ensures r.Ok? ==> r.value in count && forall s | 0 <= s < |count| :: count[s] <= r.value
  {
    var counting := CountBytes(src);
    forall i | 0 <= i < |src| ensures counting[src[i]] > 0 { OccPositive(src, |src|, i); }
    var max, s: nat := 0, 0;
    max := counting[0];
    for s := 1 to 256
      invariant max in counting[..] && forall k | 0 <= k < s :: counting[k] <= max
    {
      if counting[s] > max { max := counting[s]; }
    }
    var last := 255;
    assert counting[src[0]] > 0;
    while counting[last] == 0
      invariant src[0] <= last <= 255 && forall k | last < k < 256 :: counting[k] == 0
      decreases last
    {
      last := last - 1;
    }
    if last > maxSymbolValue {
      SomeByte(src, counting[..], last);
      return Err(MaxSymbolValueTooSmall), [];
    }
    SumTrimmed(counting[..], last + 1, 256);
    count := counting[..last + 1];
    assert count == counting[..][..last + 1];
    MaxBelow(counting[..], last + 1, max);
    r := Ok(max);
  }

  lemma {:induction false} MaxBelow(count: seq<nat>, n: nat, max: nat)
    requires 0 < n <= |count| && max in count && count[n - 1] > 0
    requires forall k | 0 <= k < |count| :: count[k] <= max && (k >= n ==> count[k] == 0)
    ensures max in count[..n]
  {
    var k :| 0 <= k < |count| && count[k] == max;
    assert count[..n][k] == max;
  }

  lemma {:induction false} SomeByte(src: seq<byte>, count: seq<nat>, s: nat)
    requires s < |count| && Tallied(count, src, |src|) && count[s] > 0
    ensures exists i :: 0 <= i < |src| && src[i] == s
  {
    var i := FirstOf(src, |src|, s);
  }

  lemma {:induction false} FirstOf(src: seq<byte>, n: nat, s: nat) returns (i: nat)
    requires n <= |src| && Occ(src, n, s) > 0
    ensures i < n && src[i] == s
  {
    if src[n - 1] == s { i := n - 1; } else { i := FirstOf(src, n - 1, s); }
  }

  // ---------- FSE_optimalTableLog ----------

  /** FSE_optimalTableLog_internal. The unsigned subtraction wraps for tiny sources, and then does not bind. */
  function OptimalTableLog(maxTableLog: nat, srcSize: nat, maxSymbolValue: nat, minus: nat): (tableLog: nat)
    requires srcSize > 1 && maxSymbolValue > 0
    ensures MIN_TABLELOG <= tableLog <= BYTE_LIMITS.maxTableLog
    ensures tableLog >= MinTableLog(srcSize, maxSymbolValue) || tableLog == BYTE_LIMITS.maxTableLog
  {
    var asked := if maxTableLog == 0 then FSE_DEFAULT_TABLELOG else maxTableLog;
    var bitsSrc := HighBit(srcSize - 1);
    var accurate := if minus <= bitsSrc && bitsSrc - minus < asked then bitsSrc - minus else asked;
    var minBits := MinTableLog(srcSize, maxSymbolValue);
    var safe := if minBits > accurate then minBits else accurate;
    if safe < MIN_TABLELOG then MIN_TABLELOG
    else if safe > BYTE_LIMITS.maxTableLog then BYTE_LIMITS.maxTableLog
    else safe
  }

  /**
    A table log that suits: not below the smallest one, large enough for the source or its alphabet, and as large as
    asked for (11 by default) or with at least one cell for every 2^(minus + 1) bytes, a rule that is out of force for
    sources of at most 2^minus bytes.
   */
  ghost predicate Suits(L: nat, asked: nat, srcSize: nat, maxSymbolValue: nat, minus: nat) {
    && L >= 5
    && (srcSize < Pow2(L) || maxSymbolValue + maxSymbolValue < Pow2(L))
    && (L >= (if asked == 0 then 11 else asked) || Pow2(minus) < srcSize <= Pow2(L + minus + 1))
  }

  /** FSE_optimalTableLog takes the smallest table log that suits, or 12 if that is larger. */
  lemma {:induction false} LeastTableLog(asked: nat, srcSize: nat, maxSymbolValue: nat, minus: nat)
    requires srcSize > 1 && maxSymbolValue > 0
    ensures var L := OptimalTableLog(asked, srcSize, maxSymbolValue, minus);
            && (L == 12 || Suits(L, asked, srcSize, maxSymbolValue, minus))
            && forall l: nat | l < L :: !Suits(l, asked, srcSize, maxSymbolValue, minus)
  {
    hide Pow2, HighBit, MinTableLog;
    var L := OptimalTableLog(asked, srcSize, maxSymbolValue, minus);
    SizeRule(srcSize, L, minus);
    LargeEnough(srcSize, maxSymbolValue, L);
    forall l: nat | l < L ensures !Suits(l, asked, srcSize, maxSymbolValue, minus) {
      SizeRule(srcSize, l, minus);
      LargeEnough(srcSize, maxSymbolValue, l);
    }
  }

  lemma {:induction false} SizeRule(srcSize: nat, L: nat, minus: nat)
    requires srcSize > 1
    ensures minus <= HighBit(srcSize - 1) <==> Pow2(minus) < srcSize
    ensures HighBit(srcSize - 1) <= L + minus <==> srcSize <= Pow2(L + minus + 1)
  {
    hide Pow2, HighBit;
    var h := HighBit(srcSize - 1);
    PowNext(h);
    if minus <= h { Pow2Mono(minus, h); } else { Pow2Mono(h + 1, minus); }
    if h <= L + minus { Pow2Mono(h + 1, L + minus + 1); } else { Pow2Mono(L + minus + 1, h); }
  }

  // ---------- FSE_compress2 ----------

  /** How a source was compressed: counters, table log, encoding table and its spread, size of the description. */
  datatype Plan = Plan(norm: seq<int>, L: nat, ct: CTable, t: seq<nat>, size: nat)

  /** Counters that describe the alphabet of `src`, for a table that no symbol owns. */
  ghost predicate PlanFor(p: Plan, src: seq<byte>) {
    && NormOk(p.norm, p.L) && MIN_TABLELOG <= p.L <= BYTE_LIMITS.maxTableLog && |p.norm| <= 256
    && p.norm[|p.norm| - 1] != 0 && NoWholeTable(p.norm, p.L)
    && AllCoded(p.norm, src) && |src| > 2 && EncoderFor(p.ct, p.t, p.norm, p.L)
  }

  /** `c` is the description of the counters, followed by the stream of the block. */
  ghost predicate Compressed(c: seq<byte>, p: Plan, src: seq<byte>)
    requires PlanFor(p, src)
  {
    && p.size < |c| && Counters(p.norm) && NCountForm(c[..p.size], p.norm, p.L)
    && Represents(c[p.size..], Block(p.ct, src).0, Block(p.ct, src).1)
  }

  /** What normalization makes of the counts of the source at this table log, and the size of its description. */
  ghost predicate Drafted(p: Plan, src: seq<byte>, L: nat) {
    && p.L == L && Normalizable(CountsOf(src), L) && Normalization(CountsOf(src), L) == Some(p.norm)
    && L >= MIN_TABLELOG && Counters(p.norm) && p.size == BytesFor(NCountBits(p.norm, L).len)
  }

  /** Normalization refuses the counts of the source. */
  ghost predicate CountsRefused(src: seq<byte>, L: nat) {
    Normalizable(CountsOf(src), L) && Normalization(CountsOf(src), L).None?
  }

  /** Every symbol occurs at most once, or all of them are rare. */
  ghost predicate Flat(src: seq<byte>) {
    (forall s: nat :: Occ(src, |src|, s) <= 1) || (forall s: nat :: Occ(src, |src|, s) < Shr(|src|, 7))
  }

  ghost predicate OneValue(src: seq<byte>) {
    forall i | 0 <= i < |src| :: src[i] == src[0]
  }

  /** The description was refused: it is checked, and does not fit. */
  ghost predicate TooShort(p: Plan, capacity: nat) {
    NormOk(p.norm, p.L) && capacity < NCountWriteBound(|p.norm| - 1, p.L) && capacity < NCountReach(p.norm, p.L)
  }

  /** The description was stored without a check, and is longer than the destination. */
  ghost predicate TooLong(p: Plan, capacity: nat) {
    NormOk(p.norm, p.L) && NCountWriteBound(|p.norm| - 1, p.L) <= capacity < p.size == BytesFor(NCountBits(p.norm, p.L).len)
  }

  /** How far the description and the block are stored, from the start of the destination. */
  ghost function Extent(p: Plan, src: seq<byte>, capacity: nat): (n: nat)
    requires NormOk(p.norm, p.L) && p.size <= capacity
    ensures n >= capacity
  {
    var block := p.size + BlockReach(p.ct, src, capacity - p.size);
    if WriteReach(p.norm, p.L, capacity) > block then WriteReach(p.norm, p.L, capacity) else block
  }

  /** Memory after the destination that is enough for every store. */
  function Spare(tableLog: nat, srcSize: nat): nat {
    if tableLog <= 6 then 1 else Times(tableLog, srcSize) + 8
  }

  lemma {:induction false} SpareAll(tableLog: nat, srcSize: nat)
    requires tableLog <= BYTE_LIMITS.maxTableLog
    ensures Spare(tableLog, srcSize) <= Spare(BYTE_LIMITS.maxTableLog, srcSize)
  {
    if srcSize > 0 { SpareAll(tableLog, srcSize - 1); }
  }

  lemma {:induction false} DescriptionInside(norm: seq<int>, L: nat, capacity: nat, srcSize: nat)
    requires NormOk(norm, L) && L <= BYTE_LIMITS.maxTableLog
    ensures WriteReach(norm, L, capacity) <= capacity + Spare(L, srcSize)
    ensures Counters(norm) && (L <= 6 && NCountWriteBound(|norm| - 1, L) <= capacity ==> BytesFor(NCountBits(norm, L).len) <= capacity)
    ensures capacity >= EnoughFor(|norm|, L) ==> WriteReach(norm, L, capacity) <= capacity && NCountReach(norm, L) <= capacity
    ensures NCountReach(norm, L) == Reach(NCountBits(norm, L).len)
  {
    hide FreqSum, Pow2, NCountBits, Times, NCountWriteBound, Reach, BytesFor, EnoughFor;
    FieldsClean(norm, L, 0, false);
    PastTheBound(norm, L);
    if capacity >= EnoughFor(|norm|, L) { Enough(norm, L, capacity); }
  }

  lemma {:induction false} BlockInside(p: Plan, src: seq<byte>, capacity: nat)
    requires PlanFor(p, src) && p.size <= capacity
    ensures p.size + BlockReach(p.ct, src, capacity - p.size) <= capacity + Spare(p.L, |src|)
    ensures p.L <= 8 ==> p.size + BlockReach(p.ct, src, capacity - p.size) == capacity
  {
    hide PlanFor, EncoderFor, AllCoded, Times, BlockReach, NormOk, Counters;
    PlanParts(p, src);
    ReachBound(p.ct, p.t, p.norm, src, capacity - p.size);
    if p.L <= 8 { SmallLogInside(p.ct, p.t, p.norm, src, capacity - p.size); }
  }

  /** A block that is returned has been stored without touching anything else. */
  lemma {:induction false} StoredInside(c: seq<byte>, p: Plan, src: seq<byte>, capacity: nat)
    requires PlanFor(p, src) && Compressed(c, p, src) && |c| <= capacity && RoomFor(Block(p.ct, src).1, capacity - p.size)
    ensures Extent(p, src, capacity) == capacity
  {
    hide PlanFor, EncoderFor, AllCoded, NormOk, Counters, Block, NCountBits;
    PlanParts(p, src);
    RoomIsInside(p.ct, src, capacity - p.size);
    DescriptionBytes(p.norm, p.L);
  }

  lemma {:induction false} DescriptionBytes(norm: seq<int>, L: nat)
    requires NormOk(norm, L) && Counters(norm)
    ensures NCountReach(norm, L) <= BytesFor(NCountBits(norm, L).len) + 1
  {
    hide NCountBits, Shr, Times;
    DescriptionLength(norm, L);
    var n := NCountBits(norm, L).len;
    BytesForBounds(n);
    BytePairs(n - 1);
  }

  lemma {:induction false} PlanIs(p: Plan, src: seq<byte>, count: seq<nat>)
    requires Normalized(p.norm, count, src, p.L) && IsSpread(p.t, p.norm, p.L) && CTableFor(p.ct, p.t, p.norm, p.L)
    ensures PlanFor(p, src)
  {
    hide NormOk, IsSpread, CTableFor, Tallied, SumCount, Pow2, FirstWay, SecondWay, Normalization, Normalizable, FreqSum;
    NormalParts(p.norm, count, src, p.L);
  }

  lemma {:induction false} OccAll(src: seq<byte>, n: nat, s: nat)
    requires n <= |src|
    ensures Occ(src, n, s) <= n
    ensures Occ(src, n, s) == n <==> forall i | 0 <= i < n :: src[i] == s
  {
    if n > 0 { OccAll(src, n - 1, s); }
  }

  /** The largest count is that of the whole source exactly when the source is one symbol repeated. */
  lemma {:induction false} OneSymbol(count: seq<nat>, src: seq<byte>, max: nat)
    requires |src| > 0 && Histogram(count, src) && max in count && forall s | 0 <= s < |count| :: count[s] <= max
    ensures 1 <= max <= |src|
    ensures max == |src| <==> forall i | 0 <= i < |src| :: src[i] == src[0]
    ensures max == |src| <==> exists s :: 0 <= s < |count| && count[s] == |src|
  {
    var s :| 0 <= s < |count| && count[s] == max;
    OccAll(src, |src|, s);
    OccAll(src, |src|, src[0]);
  }

  lemma {:induction false} CompressedSize(c: seq<byte>, p: Plan, src: seq<byte>)
    requires PlanFor(p, src) && Compressed(c, p, src)
    ensures |c| > 1
  {
    BytesForBounds(NCountBits(p.norm, p.L).len);
    hide Represents, PlanFor;
  }

  /**
    From the counters on: the description, the table, and the stream of the block. 0: no room for the stream.
    `fits` is false when the description is longer than the destination; the size of what is left, computed as
    a difference, then is meaningless. `dst` is the memory.
   */
  method StoreBlock(dst: array<byte>, start: nat, capacity: nat, src: seq<byte>, norm: seq<int>, tableLog: nat, cells: nat, wkspBytes: nat,
                    ghost count: seq<nat>) returns (r: Result<nat>, fits: bool, ghost p: Plan)
    requires start + capacity + Spare(tableLog, |src|) <= dst.Length && WkspHolds(tableLog, |count|, cells, wkspBytes)
    requires Normalized(norm, count, src, tableLog)
    modifies dst
    ensures fits && r.Ok? ==> r.value <= capacity
    ensures |p.norm| == |count| && Drafted(p, src, tableLog) && Encoded(r, fits, p, src, capacity)
    ensures fits && r.Ok? && r.value > 0 ==> PlanFor(p, src) && Compressed(dst[start..start + r.value], p, src)
    ensures fits ==> forall k | 0 <= k < dst.Length && !(start <= k < start + Touched(r, p, src, capacity)) :: dst[k] == old(dst[k])
  {
    hide Normalized, NormOk, Counters, NCountForm, NCountBits, CTableFor, IsSpread, Represents, Block,
      EncoderFor, PlanFor, Pow2, RoomFor, Compressed, Shr, Spare, BlockReach, WriteReach, NCountReach, NCountWriteBound, TooShort,
      Extent, Stored, BytesFor, Drafted, BlockSize;
    fits := true;
    NormalParts(norm, count, src, tableLog);
    DescriptionInside(norm, tableLog, capacity, |src|);
    p := Plan(norm, tableLog, CTable(0, [], []), [], BytesFor(NCountBits(norm, tableLog).len));
    DraftIs(p, count, src);
    var header := WriteNCount(dst, start, capacity, norm, tableLog);
    if header.Err? {
      Refused(p, capacity);
      return Err(header.error), true, p;
    }
    StoredSize(dst[..], start, header.value, p, capacity);
    assert dst[start..start + header.value] == dst[..][start..start + header.value];
    if header.value > capacity { return Err(Generic), false, p; }
    r, p := StoreStream(dst, start, header.value, capacity, src, norm, tableLog, cells, wkspBytes, count, p);
  }

  /** The table and the stream, behind the description, which takes `size` bytes. */
  method StoreStream(dst: array<byte>, start: nat, size: nat, capacity: nat, src: seq<byte>, norm: seq<int>, tableLog: nat, cells: nat,
                     wkspBytes: nat, ghost count: seq<nat>, ghost draft: Plan) returns (r: Result<nat>, ghost p: Plan)
    requires start + capacity + Spare(tableLog, |src|) <= dst.Length && WkspHolds(tableLog, |count|, cells, wkspBytes)
    requires Normalized(norm, count, src, tableLog) && Drafted(draft, src, tableLog)
    requires draft.norm == norm && draft.size == size <= capacity && !TooShort(draft, capacity)
    requires NCountForm(dst[start..start + size], norm, tableLog)
    modifies dst
    ensures r.Ok? && r.value <= capacity
    ensures |p.norm| == |count| && Drafted(p, src, tableLog) && Encoded(r, true, p, src, capacity)
    ensures r.value > 0 ==> PlanFor(p, src) && Compressed(dst[start..start + r.value], p, src)
    ensures Touched(r, p, src, capacity) >= WriteReach(norm, tableLog, capacity)
    ensures forall k | 0 <= k < dst.Length && !(start <= k < start + Touched(r, p, src, capacity)) :: dst[k] == old(dst[k])
  {
    hide Normalized, NormOk, Counters, NCountForm, NCountBits, CTableFor, IsSpread, Represents, Block, EncoderFor, PlanFor, Pow2, RoomFor,
      Compressed, Shr, Spare, BlockReach, WriteReach, TooShort, Extent, BytesFor, Drafted, BlockSize;
    NormalParts(norm, count, src, tableLog);
    var op := start + size;
    ghost var description := dst[start..op];
    var table, t := BuildCTableWksp(norm, tableLog, cells, wkspBytes);
    p := Plan(norm, tableLog, table.value, t, size);
    DraftAgain(draft, p, src);
    PlanIs(p, src, count);
    PlanParts(p, src);
    BlockInside(p, src, capacity);
    var cSize := CompressUsingCTable(dst, op, start + capacity - op, src, table.value, t, norm);
    ExtentIs(p, src, capacity);
    EncodedIs(draft, p, src, capacity);
    BlockRoom(p, src, capacity);
    if cSize == 0 { return Ok(0), p; }
    assert dst[start..op] == description;
    ghost var c := dst[start..op + cSize];
    assert c[..size] == description;
    assert c[size..] == dst[op..op + cSize];
    StoredIs(c, p, src);
    StoredInside(c, p, src, capacity);
    r := Ok(size + cSize);
  }

  lemma {:induction false} DraftAgain(draft: Plan, p: Plan, src: seq<byte>)
    requires Drafted(draft, src, p.L) && draft.norm == p.norm && draft.size == p.size
    ensures draft.L == p.L && Drafted(p, src, p.L) && Counters(p.norm)
  {
    hide Normalization, Normalizable, Counters, BytesFor, NCountBits;
  }

  /**
    The result for the counters and the table of `p`: an error if the description does not fit, 0 if its stream does
    not fit behind it, the size of both otherwise. The only undefined case is a description that is not checked and
    turns out longer than the destination.
   */
  ghost predicate Encoded(r: Result<nat>, fits: bool, p: Plan, src: seq<byte>, capacity: nat) {
    if TooShort(p, capacity) then
      fits && r == Err(DstSizeTooSmall)
    else if p.size > capacity then
      !fits && r == Err(Generic) && TooLong(p, capacity) && p.L > 6
    else
      fits && PlanFor(p, src) && r == Ok(BlockSize(p, src, capacity))
  }

  /** Size of the description and the stream, or 0 if there is no room for the stream. */
  ghost function BlockSize(p: Plan, src: seq<byte>, capacity: nat): nat
    requires PlanFor(p, src) && p.size <= capacity
  {
    var bits := Block(p.ct, src).1;
    if RoomFor(bits, capacity - p.size) then p.size + Shr(bits, 3) + 1 else 0
  }

  /** Normalization of the counts of the source, and the result for its counters. */
  ghost predicate Outcome(r: Result<nat>, fits: bool, p: Plan, src: seq<byte>, capacity: nat, L: nat) {
    if CountsRefused(src, L) then fits && r == Err(Generic)
    else Drafted(p, src, L) && Encoded(r, fits, p, src, capacity)
  }

  /** The bytes that may have changed: only those of the destination, unless the block did not fit. */
  ghost function Touched(r: Result<nat>, p: Plan, src: seq<byte>, capacity: nat): (n: nat)
    ensures n >= capacity
  {
    if r == Ok(0) && NormOk(p.norm, p.L) && p.size <= capacity then Extent(p, src, capacity) else capacity
  }

  lemma {:induction false} Refused(p: Plan, capacity: nat)
    requires NormOk(p.norm, p.L) && capacity < NCountWriteBound(|p.norm| - 1, p.L) && capacity < NCountReach(p.norm, p.L)
    ensures TooShort(p, capacity) && WriteReach(p.norm, p.L, capacity) == capacity
  {
    hide NormOk, NCountReach, NCountWriteBound;
  }

  lemma {:induction false} StoredSize(a: seq<byte>, start: nat, size: nat, p: Plan, capacity: nat)
    requires NormOk(p.norm, p.L) && Counters(p.norm) && Stored(a, start, size, p.norm, p.L)
    requires p.size == BytesFor(NCountBits(p.norm, p.L).len)
    requires !(capacity < NCountWriteBound(|p.norm| - 1, p.L) && capacity < NCountReach(p.norm, p.L))
    requires p.L <= 6 && NCountWriteBound(|p.norm| - 1, p.L) <= capacity ==> BytesFor(NCountBits(p.norm, p.L).len) <= capacity
    ensures size == p.size && !TooShort(p, capacity)
    ensures p.size > capacity ==> TooLong(p, capacity) && p.L > 6
    ensures start + p.size <= |a| && NCountForm(a[start..start + p.size], p.norm, p.L)
  {
    hide NormOk, Counters, NCountBits, LE, Reach, BytesFor, NCountWriteBound;
  }

  lemma {:induction false} ExtentIs(p: Plan, src: seq<byte>, capacity: nat)
    requires NormOk(p.norm, p.L) && p.size <= capacity
    ensures WriteReach(p.norm, p.L, capacity) <= Extent(p, src, capacity)
    ensures p.size + BlockReach(p.ct, src, capacity - p.size) <= Extent(p, src, capacity)
  {
    hide NormOk, WriteReach, BlockReach;
  }

  /** Every description fits into FSE_NCOUNTBOUND bytes. */
  lemma {:induction false} DescriptionMax(p: Plan, capacity: nat)
    requires capacity >= FSE_NCOUNTBOUND && |p.norm| <= 256 && p.L <= BYTE_LIMITS.maxTableLog
    ensures !TooLong(p, capacity) && !TooShort(p, capacity)
  {
    hide NormOk, NCountBits, Shr, Times, NCountWriteBound, BytesFor;
    if NormOk(p.norm, p.L) {
      NormCounters(p.norm, p.L);
      DescriptionLength(p.norm, p.L);
      TimesBound(p.L, |p.norm|);
      BytesForBounds(NCountBits(p.norm, p.L).len);
      DescriptionBytes(p.norm, p.L);
    }
  }

  lemma {:induction false} NormCounters(norm: seq<int>, L: nat)
    requires NormOk(norm, L)
    ensures Counters(norm) && L >= MIN_TABLELOG
  {
  }

  lemma {:induction false} TimesBound(L: nat, n: nat)
    requires L <= BYTE_LIMITS.maxTableLog
    ensures Times(L, n) <= 12 * n
  {
    if n > 0 { TimesBound(L, n - 1); }
  }

  /** Counters that normalization has found for the source. */
  ghost predicate Normalized(norm: seq<int>, count: seq<nat>, src: seq<byte>, L: nat) {
    && Histogram(count, src) && |src| > 2 && MIN_TABLELOG <= L <= BYTE_LIMITS.maxTableLog
    && Normalizable(count, L) && Normalization(count, L) == Some(norm) && NormalFor(norm, count, L)
  }

  lemma {:induction false} NormalParts(norm: seq<int>, count: seq<nat>, src: seq<byte>, L: nat)
    requires Normalized(norm, count, src, L)
    ensures |norm| == |count| <= 256 && NormOk(norm, L) && Fits(norm, count, |count|) && Counters(norm)
    ensures |src| > 2 && MIN_TABLELOG <= L <= BYTE_LIMITS.maxTableLog && forall s | 0 <= s < |count| :: norm[s] < Pow2(L)
  {
    hide Tallied, SumCount, Normalizable, Normalization, FirstWay, SecondWay, Shr, Pow2, FreqSum;
    NormCounters(norm, L);
  }

  lemma {:induction false} DraftIs(p: Plan, count: seq<nat>, src: seq<byte>)
    requires Normalized(p.norm, count, src, p.L) && Counters(p.norm) && p.size == BytesFor(NCountBits(p.norm, p.L).len)
    ensures Drafted(p, src, p.L)
  {
    hide Histogram, Normalizable, Normalization, NormalFor, Counters, BytesFor, NCountBits;
    CountedAre(count, src);
  }

  lemma {:induction false} CountedLargest(count: seq<nat>, src: seq<byte>)
    requires Histogram(count, src) && |src| > 0
    ensures LargestByte(src) == |count| - 1
  {
    SomeByte(src, count, |count| - 1);
    LargestIs(src, |count| - 1);
  }

  lemma {:induction false} CountedAre(count: seq<nat>, src: seq<byte>)
    requires Histogram(count, src) && |src| > 0
    ensures count == CountsOf(src)
  {
    hide SumCount, LargestByte, Occ;
    CountedLargest(count, src);
    assert forall s: nat | s < |count| :: count[s] == CountsOf(src)[s];
  }

  /** The size of a stream is that of its bits. */
  lemma {:induction false} BlockRoom(p: Plan, src: seq<byte>, capacity: nat)
    requires PlanFor(p, src) && p.size <= capacity
    ensures BlockSize(p, src, capacity) <= capacity
    ensures RoomFor(Block(p.ct, src).1, capacity - p.size) <==> BlockSize(p, src, capacity) > 0
    ensures forall c: seq<byte> | Represents(c, Block(p.ct, src).0, Block(p.ct, src).1) && RoomFor(Block(p.ct, src).1, capacity - p.size) ::
              p.size + |c| == BlockSize(p, src, capacity)
  {
    hide Block, NCountForm, Counters, LE, Pow2, Shr, NormOk, EncoderFor, AllCoded;
    BytesAndBits(Block(p.ct, src).1);
  }

  lemma {:induction false} EncodedIs(draft: Plan, p: Plan, src: seq<byte>, capacity: nat)
    requires !TooShort(draft, capacity) && draft.norm == p.norm && draft.L == p.L && p.size <= capacity && PlanFor(p, src)
    ensures Encoded(Ok(BlockSize(p, src, capacity)), true, p, src, capacity)
  {
    hide NormOk, NCountReach, NCountWriteBound, PlanFor, BlockSize;
  }

  lemma {:induction false} PlanParts(p: Plan, src: seq<byte>)
    requires PlanFor(p, src)
    ensures EncoderFor(p.ct, p.t, p.norm, p.ct.tableLog) && AllCoded(p.norm, src) && Counters(p.norm) && |src| > 2
    ensures MIN_TABLELOG <= p.L <= BYTE_LIMITS.maxTableLog && p.ct.tableLog == p.L && NormOk(p.norm, p.L)
  {
  }

  lemma {:induction false} StoredIs(c: seq<byte>, p: Plan, src: seq<byte>)
    requires PlanFor(p, src) && Counters(p.norm) && p.size <= |c| && NCountForm(c[..p.size], p.norm, p.L)
    requires Represents(c[p.size..], Block(p.ct, src).0, Block(p.ct, src).1)
    ensures Compressed(c, p, src)
  {
    hide PlanFor, NCountForm, Block;
    PlanParts(p, src);
    RepresentsUnique(c[p.size..], Block(p.ct, src).0, Block(p.ct, src).1);
  }

  /** Normalization, then the block. */
  method CompressCounted(dst: array<byte>, start: nat, capacity: nat, src: seq<byte>, count: seq<nat>, tableLog: nat,
                         cells: nat, wkspBytes: nat)
    returns (r: Result<nat>, fits: bool, ghost p: Plan)
    requires start + capacity + Spare(tableLog, |src|) <= dst.Length && WkspHolds(tableLog, |count|, cells, wkspBytes)
    requires MIN_TABLELOG <= tableLog <= BYTE_LIMITS.maxTableLog
    requires Histogram(count, src) && 2 < |src| < 0x1_0000_0000 && forall s | 0 <= s < |count| :: count[s] != |src|
    requires |count| > 1 ==> tableLog >= MinTableLog(|src|, |count| - 1)
    modifies dst
    ensures fits && r.Ok? ==> r.value <= capacity
    ensures p.L == tableLog && |p.norm| == |count| && Outcome(r, fits, p, src, capacity, tableLog)
    ensures fits && r.Ok? && r.value > 0 ==> PlanFor(p, src) && Compressed(dst[start..start + r.value], p, src)
    ensures fits ==> forall k | 0 <= k < dst.Length && !(start <= k < start + Touched(r, p, src, capacity)) :: dst[k] == old(dst[k])
  {
    hide Histogram, Normalization, NormalFor, MinTableLog, SumCount, Compressed, PlanFor, Encoded, Drafted, Spare, Touched, CountsOf;
    TwoValues(count, src);
    CountedAre(count, src);
    fits, p := true, Plan(seq(|count|, _ => 0), tableLog, CTable(0, [], []), [], 0);
    var norm := new int[|count|];
    var normalized := NormalizeCount(norm, tableLog, count, |src|);
    if normalized.Err? { return Err(normalized.error), true, p; }
    r, fits, p := StoreBlock(dst, start, capacity, src, norm[..], tableLog, cells, wkspBytes, count);
    NotRefused(p, src, tableLog);
  }

  lemma {:induction false} NotRefused(p: Plan, src: seq<byte>, L: nat)
    requires Drafted(p, src, L)
    ensures p.L == L && !CountsRefused(src, L)
  {
    hide Normalization, Normalizable, Counters, BytesFor, NCountBits;
  }

  lemma {:induction false} TwoValues(count: seq<nat>, src: seq<byte>)
    requires Histogram(count, src) && forall s | 0 <= s < |count| :: count[s] != |src|
    ensures |count| > 1 && SumCount(count, |count|) == |src|
  {
    hide Tallied;
    assert SumCount(count, 1) == SumCount(count, 0) + count[0];
  }

  // ---------- the layout of the workspace ----------

  /**
    The arguments leave room for the table that the source leads to: the cells of the spread, which are laid
    out for the table log and the largest symbol asked for, are then behind the states of the table.
   */
  predicate TablesApart(src: seq<byte>, maxSymbolValue: nat, tableLog: nat) {
    var n := maxSymbolValue + 1;
    tableLog > 0
    && (|src| > 1 && LargestByte(src) > 0 ==>
          Pow2(OptimalTableLog(tableLog, |src|, LargestByte(src), 2)) <= Pow2(tableLog) + n + n + n + n)
  }

  /** Asking for a proper table log and for the largest symbol is enough; so is asking for a table log of 9. */
  lemma {:induction false} ApartWhenAskedFor(src: seq<byte>, maxSymbolValue: nat, tableLog: nat)
    requires (MIN_TABLELOG <= tableLog && LargestByte(src) <= maxSymbolValue) || 9 <= tableLog
    ensures TablesApart(src, maxSymbolValue, tableLog)
  {
    hide Pow2, HighBit, LargestByte;
    if |src| > 1 && LargestByte(src) > 0 {
      var m := LargestByte(src);
      PowNext(HighBit(m));
      PowNext(HighBit(m) + 1);
      AskedLog(tableLog, |src|, m);
      var L := OptimalTableLog(tableLog, |src|, m, 2);
      if L <= tableLog { Pow2Mono(L, tableLog); } else { Pow2Mono(L, HighBit(m) + 2); }
    }
  }

  /** The table log is raised for the sake of the alphabet only. */
  lemma {:induction false} AskedLog(tableLog: nat, srcSize: nat, m: nat)
    requires MIN_TABLELOG <= tableLog && srcSize > 1 && 0 < m <= 255
    ensures var L := OptimalTableLog(tableLog, srcSize, m, 2); L <= tableLog || L <= HighBit(m) + 2 <= 9
  {
    hide HighBit, Pow2;
    SmallPowers();
    if HighBit(m) > 7 { Pow2Mono(8, HighBit(m)); }
  }

  /** The arguments of `CellsOverwritten`: any 64 bytes of 0 and 1 lead to its table log of 5. */
  lemma {:induction false} NotApart(src: seq<byte>)
    requires |src| == 64 && LargestByte(src) == 1
    ensures OptimalTableLog(1, |src|, 1, 2) == 5 && CellsAt(1, 1) == 24 && !TablesApart(src, 1, 1)
  {
    SmallPowers();
    EvenSizes();
    assert Pow2(5) == 2 * Pow2(4) && Pow2(0) == 1;
    HighBitUnique(1, 0);
    hide LargestByte, Pow2, HighBit;
  }

  /** The table log FSE_compress2 works with. */
  ghost function LogFor(src: seq<byte>, asked: nat): nat {
    if |src| > 1 && LargestByte(src) > 0 then OptimalTableLog(asked, |src|, LargestByte(src), 2) else 0
  }

  /** The result of FSE_compress2 after its heuristics: a block is dropped if it does not save at least 2 bytes. */
  ghost predicate Kept(r: Result<nat>, p: Plan, src: seq<byte>, L: nat, capacity: nat) {
    if CountsRefused(src, L) then
      r == Err(Generic)
    else
      Drafted(p, src, L)
      && if TooShort(p, capacity) then
           r == Err(DstSizeTooSmall)
         else
           && p.size <= capacity && PlanFor(p, src)
           && r == Ok(if BlockSize(p, src, capacity) + 2 <= |src| then BlockSize(p, src, capacity) else 0)
  }

  /** The result of FSE_compress2 for a table log and an alphabet that it accepts. */
  ghost predicate Verdict(r: Result<nat>, p: Plan, src: seq<byte>, asked: nat, capacity: nat) {
    if |src| <= 1 then r == Ok(0)
    else if OneValue(src) then r == Ok(1)
    else if Flat(src) then r == Ok(0)
    else Kept(r, p, src, LogFor(src, asked), capacity)
  }

  /** The source and the arguments leave one result only: tables for the same counters code it alike. */
  lemma {:induction false} VerdictDecides(r: Result<nat>, p: Plan, r': Result<nat>, p': Plan, src: seq<byte>, asked: nat, capacity: nat)
    requires Verdict(r, p, src, asked, capacity) && Verdict(r', p', src, asked, capacity)
    ensures r == r'
  {
    hide CountsRefused, Drafted, TooShort, PlanFor, BlockSize, Flat, OneValue, LogFor;
    var L := LogFor(src, asked);
    if |src| > 1 && !OneValue(src) && !Flat(src) && !CountsRefused(src, L) {
      SameDraft(p, p', src, L, capacity);
      if !TooShort(p, capacity) { SameSize(p, p', src, capacity); }
    }
  }

  lemma {:induction false} OutcomeDecides(r: Result<nat>, p: Plan, r': Result<nat>, p': Plan, src: seq<byte>, capacity: nat, L: nat)
    requires Outcome(r, true, p, src, capacity, L) && Outcome(r', true, p', src, capacity, L)
    ensures r == r'
  {
    hide CountsRefused, Drafted, TooShort, TooLong, PlanFor, BlockSize;
    if !CountsRefused(src, L) {
      SameDraft(p, p', src, L, capacity);
      if !TooShort(p, capacity) { SameSize(p, p', src, capacity); }
    }
  }

  lemma {:induction false} SameDraft(p: Plan, q: Plan, src: seq<byte>, L: nat, capacity: nat)
    requires Drafted(p, src, L) && Drafted(q, src, L)
    ensures p.norm == q.norm && p.L == q.L && p.size == q.size && (TooShort(p, capacity) <==> TooShort(q, capacity))
  {
    hide Normalization, Normalizable, Counters, BytesFor, NCountBits, NormOk, NCountReach, NCountWriteBound;
  }

  lemma {:induction false} SameSize(p: Plan, q: Plan, src: seq<byte>, capacity: nat)
    requires PlanFor(p, src) && PlanFor(q, src) && p.norm == q.norm && p.L == q.L && p.size == q.size <= capacity
    ensures BlockSize(p, src, capacity) == BlockSize(q, src, capacity)
  {
    hide PlanFor, EncoderFor, AllCoded, Block, Shr, RoomFor, NormOk, Counters;
    PlanParts(p, src);
    PlanParts(q, src);
    SpreadParts(p.ct, p.t, p.norm, p.L);
    SpreadParts(q.ct, q.t, q.norm, q.L);
    SpreadUnique(p.t, q.t, p.norm, p.L);
    SameBlock(p.ct, q.ct, p.t, p.norm, p.L, src);
  }

  lemma {:induction false} SpreadParts(ct: CTable, t: seq<nat>, norm: seq<int>, L: nat)
    requires EncoderFor(ct, t, norm, L)
    ensures IsSpread(t, norm, L) && NormOk(norm, L) && L <= MAX_TABLELOG
  {
    hide IsSpread, NormOk, CTableFor;
  }

  /**
    FSE_compress2: 0 when the source is not worth compressing, 1 when it is one symbol repeated, and otherwise
    the size of a compressed block that is smaller than the source by at least 2 bytes; `Verdict` says which, for
    the counters, the description and the table that the source leads to. `defined` is false when the table is to
    be built over the cells it is built from, or its size has been computed with a shift by -1, or the description
    is longer than the destination; nothing is known then. `dst` is the memory, of which the first `dstCapacity`
    bytes are the destination.
   */
  method Compress2(dst: array<byte>, dstCapacity: nat, src: seq<byte>, maxSymbolValue0: nat, tableLog0: nat)
    returns (r: Result<nat>, defined: bool, ghost p: Plan)
    requires |src| < 0x1_0000_0000 && maxSymbolValue0 <= 255
    requires dstCapacity + Spare(BYTE_LIMITS.maxTableLog, |src|) <= dst.Length
    modifies dst
    ensures tableLog0 > BYTE_LIMITS.maxTableLog ==> defined && r == Err(TableLogTooLarge)
    ensures AskedApart(src, maxSymbolValue0, tableLog0) ==> defined || TooLong(p, dstCapacity)
    ensures AskedApart(src, maxSymbolValue0, tableLog0) && dstCapacity >= FSE_NCOUNTBOUND ==> defined
    ensures r == Err(MaxSymbolValueTooSmall) <==>
            0 < tableLog0 <= BYTE_LIMITS.maxTableLog && |src| > 1
            && maxSymbolValue0 > 0 && exists i :: 0 <= i < |src| && src[i] > maxSymbolValue0
    ensures defined && tableLog0 <= BYTE_LIMITS.maxTableLog && r != Err(MaxSymbolValueTooSmall) ==>
              Verdict(r, p, src, tableLog0, dstCapacity)
    ensures defined && r.Ok? && r.value > 1 ==> r.value <= dstCapacity && r.value + 2 <= |src|
                                                && PlanFor(p, src) && Compressed(dst[..r.value], p, src)
    ensures defined && r == Err(DstSizeTooSmall) ==> dstCapacity < FSE_NCOUNTBOUND
    ensures defined ==> forall k | Touched(r, p, src, dstCapacity) <= k < dst.Length :: dst[k] == old(dst[k])
  {
    hide Kept, Drafted;
    r, defined, p := Ok(0), true, Plan([], 0, CTable(0, [], []), [], 0);
    if tableLog0 > BYTE_LIMITS.maxTableLog { r := Err(TableLogTooLarge); return; }
    if tableLog0 == 0 { defined := false; return; }
    if |src| <= 1 { return; }
    var maxSymbolValue := if maxSymbolValue0 == 0 then 255 else maxSymbolValue0;
    var maxCount, count := Count(src, maxSymbolValue);
    if maxCount.Err? { r := Err(maxCount.error); return; }
    OneSymbol(count, src, maxCount.value);
    MostFrequent(count, src, maxCount.value);
    if maxCount.value == |src| { r := Ok(1); return; }
    if maxCount.value == 1 { return; }
    if maxCount.value < Shr(|src|, 7) { return; }
    r, defined, p := CompressApart(dst, dstCapacity, src, count, maxSymbolValue0, tableLog0);
  }

  /** The tables of the workspace are apart for this source, or for every source with such arguments. */
  predicate AskedApart(src: seq<byte>, maxSymbolValue: nat, tableLog: nat) {
    TablesApart(src, maxSymbolValue, tableLog) || tableLog >= 9 || (tableLog >= MIN_TABLELOG && maxSymbolValue > 0)
  }

  /** FSE_compress_wksp after its heuristics, if the arguments leave room for the table. */
  method CompressApart(dst: array<byte>, dstCapacity: nat, src: seq<byte>, count: seq<nat>, maxSymbolValue0: nat, tableLog0: nat)
    returns (r: Result<nat>, defined: bool, ghost p: Plan)
    requires 2 < |src| < 0x1_0000_0000 && maxSymbolValue0 <= 255 && 0 < tableLog0 <= BYTE_LIMITS.maxTableLog
    requires Histogram(count, src) && (forall s | 0 <= s < |count| :: count[s] != |src|)
    requires |count| <= (if maxSymbolValue0 == 0 then 255 else maxSymbolValue0) + 1
    requires dstCapacity + Spare(BYTE_LIMITS.maxTableLog, |src|) <= dst.Length
    modifies dst
    ensures AskedApart(src, maxSymbolValue0, tableLog0) ==> defined || TooLong(p, dstCapacity)
    ensures AskedApart(src, maxSymbolValue0, tableLog0) && dstCapacity >= FSE_NCOUNTBOUND ==> defined
    ensures defined ==> Kept(r, p, src, LogFor(src, tableLog0), dstCapacity)
    ensures defined && r.Ok? && r.value > 0 ==> 1 < r.value <= dstCapacity && r.value + 2 <= |src|
                                                && PlanFor(p, src) && Compressed(dst[..r.value], p, src)
    ensures defined && r == Err(DstSizeTooSmall) ==> dstCapacity < FSE_NCOUNTBOUND
    ensures defined && r.Err? ==> r.error == DstSizeTooSmall || r.error == Generic
    ensures !defined ==> r == Ok(0) || r == Err(Generic)
    ensures defined ==> forall k | Touched(r, p, src, dstCapacity) <= k < dst.Length :: dst[k] == old(dst[k])
  {
    hide Histogram, SumCount, Pow2, PlanFor, Compressed, HighBit, TooLong, TooShort, Spare, Touched, Outcome, Kept, MinTableLog;
    TwoValues(count, src);
    CountedLargest(count, src);
    HistogramSize(count, src);
    var tableLog := OptimalTableLog(tableLog0, |src|, |count| - 1, 2);
    RoomForAlphabet(tableLog0, |src|, |count| - 1, 2);
    var cells := CellsAt(tableLog0, maxSymbolValue0);
    LargeWorkspace(tableLog0, maxSymbolValue0, tableLog, |count|);
    if tableLog0 >= 9 || (tableLog0 >= MIN_TABLELOG && maxSymbolValue0 > 0) { ApartWhenAskedFor(src, maxSymbolValue0, tableLog0); }
    if StatesEnd(tableLog) > cells { return Ok(0), false, Plan([], 0, CTable(0, [], []), [], 0); }
    SpareAll(tableLog, |src|);
    r, defined, p := CompressCounted(dst, 0, dstCapacity, src, count, tableLog, cells, WKSP_BYTES);
    if dstCapacity >= FSE_NCOUNTBOUND { DescriptionMax(p, dstCapacity); }
    OutcomeParts(r, defined, p, src, dstCapacity, tableLog);
    if !defined { return; }
    if r.Ok? {
      assert dst[0..0 + r.value] == dst[..r.value];
      if r.value > 0 { CompressedSize(dst[..r.value], p, src); }
    }
    ghost var before := r;
    if r.Ok? && r.value + 1 >= |src| {
      TouchedMore(r, Ok(0), p, src, dstCapacity);
      r := Ok(0);
    }
    KeptIs(before, r, p, src, dstCapacity, tableLog);
  }

  /** The table log is large enough for every alphabet of bytes. */
  lemma {:induction false} RoomForAlphabet(asked: nat, srcSize: nat, maxSymbolValue: nat, minus: nat)
    requires srcSize > 1 && 0 < maxSymbolValue <= 255
    ensures OptimalTableLog(asked, srcSize, maxSymbolValue, minus) >= MinTableLog(srcSize, maxSymbolValue)
  {
    hide HighBit, Pow2;
    SmallPowers();
    if HighBit(maxSymbolValue) > 7 { Pow2Mono(8, HighBit(maxSymbolValue)); }
  }

  lemma {:induction false} OutcomeParts(r: Result<nat>, fits: bool, p: Plan, src: seq<byte>, capacity: nat, L: nat)
    requires Outcome(r, fits, p, src, capacity, L)
    ensures !fits ==> TooLong(p, capacity) && r == Err(Generic)
    ensures fits && r.Err? ==> r.error == Generic || (r.error == DstSizeTooSmall && TooShort(p, capacity))
    ensures fits && r.Ok? ==> r.value <= capacity
  {
    hide CountsRefused, Drafted, TooShort, TooLong, PlanFor, BlockSize;
    if fits && r.Ok? { BlockRoom(p, src, capacity); }
  }

  lemma {:induction false} KeptIs(before: Result<nat>, r: Result<nat>, p: Plan, src: seq<byte>, capacity: nat, L: nat)
    requires Outcome(before, true, p, src, capacity, L) && |src| > 0
    requires r == if before.Ok? && before.value + 1 >= |src| then Ok(0) else before
    ensures Kept(r, p, src, L, capacity)
  {
    hide CountsRefused, Drafted, TooShort, TooLong, PlanFor, BlockSize;
  }

  lemma {:induction false} TouchedMore(r: Result<nat>, r': Result<nat>, p: Plan, src: seq<byte>, capacity: nat)
    requires r == r' || r != Ok(0)
    ensures Touched(r, p, src, capacity) <= Touched(r', p, src, capacity)
  {
    hide NormOk, Extent;
  }

  lemma {:induction false} HistogramSize(count: seq<nat>, src: seq<byte>)
    requires Histogram(count, src)
    ensures 0 < |count| <= 256
  {
    hide Tallied, SumCount;
  }

  /** No symbol occurs more often than the one with the largest count. */
  lemma {:induction false} MostFrequent(count: seq<nat>, src: seq<byte>, max: nat)
    requires |src| > 0 && Histogram(count, src) && max in count && forall s | 0 <= s < |count| :: count[s] <= max
    ensures forall s: nat :: Occ(src, |src|, s) <= max
  {
    hide Occ, SumCount;
    forall s: nat ensures Occ(src, |src|, s) <= max {
      SymbolCounted(count, src, s);
      assert s < |count| ==> count[s] <= max;
    }
  }

  lemma {:induction false} SymbolCounted(count: seq<nat>, src: seq<byte>, s: nat)
    requires Histogram(count, src)
    ensures Occ(src, |src|, s) > 0 ==> s < |count|
  {
    if Occ(src, |src|, s) > 0 {
      var i := OccHas(src, |src|, s);
    }
  }

  // ---------- FSE_decompress_wksp ----------

  /** What is made of the bytes after the description, with the table for its counters; or why there is none. */
  ghost predicate ReadBlock(cSrc: seq<byte>, dt: DTable, t: seq<nat>, maxLog: nat, r: Result<nat>, out: seq<nat>) {
    match NCountRead(cSrc, 255)
    case Err(e) => r == Err(e)
    case Ok((norm, tableLog, size)) =>
      if tableLog > maxLog then r == Err(TableLogTooLarge)
      else
        && size <= |cSrc| && dt.tableLog == tableLog && DecoderFor(dt, t, norm, tableLog)
        && match InitError(cSrc[size..])
           case Some(e) => r == Err(e)
           case None => Decoded(StreamRun(dt, cSrc[size..], |out|), r, out)
  }

  /** The counters determine the cells of the table, and so what the reference decoder makes of a stream. */
  lemma {:induction false} SameCells(dt: DTable, t: seq<nat>, dt': DTable, t': seq<nat>, norm: seq<int>, L: nat)
    requires DecoderFor(dt, t, norm, L) && DecoderFor(dt', t', norm, L)
    ensures dt.tableLog == dt'.tableLog == L && dt.cells == dt'.cells
  {
    hide NormOk, IsSpread, Pow2, Shl;
    DecoderParts(dt, t, norm, L);
    DecoderParts(dt', t', norm, L);
    SpreadUnique(t, t', norm, L);
    forall u: nat | u < |dt.cells| ensures dt.cells[u] == dt'.cells[u] {
      assert CellFor(dt.cells[u], t, norm, L, u) && CellFor(dt'.cells[u], t, norm, L, u);
      SameBits(NextState(t, norm, u), dt.cells[u].nbBits, dt'.cells[u].nbBits, L);
    }
  }

  lemma {:induction false} DecoderParts(dt: DTable, t: seq<nat>, norm: seq<int>, L: nat)
    requires DecoderFor(dt, t, norm, L)
    ensures IsSpread(t, norm, L) && NormOk(norm, L) && L <= MAX_TABLELOG
  {
    hide NormOk, IsSpread, DTableFor;
  }

  /** Tables with the same cells decode alike. */
  lemma {:induction false} SameRun(dt: DTable, dt': DTable, stream: nat, left: int, mine: nat, other: nat, n: nat)
    requires dt.cells == dt'.cells
    ensures Run(dt, stream, left, mine, other, n) == Run(dt', stream, left, mine, other, n)
    decreases n
  {
    hide Slice;
    if n >= 2 && mine < |dt.cells| && other < |dt.cells| {
      var c := dt.cells[mine];
      if left >= c.nbBits {
        SameRun(dt, dt', stream, left - c.nbBits, other, c.newState + Slice(stream, left - c.nbBits, c.nbBits), n - 1);
      }
    }
  }

  /** The bytes and the room for the output leave one result only. */
  lemma {:induction false} ReadBlockDecides(cSrc: seq<byte>, dt: DTable, t: seq<nat>, dt': DTable, t': seq<nat>, maxLog: nat,
                                            r: Result<nat>, out: seq<nat>, r': Result<nat>, out': seq<nat>)
    requires ReadBlock(cSrc, dt, t, maxLog, r, out) && ReadBlock(cSrc, dt', t', maxLog, r', out') && |out| == |out'|
    ensures r == r' && (r.Ok? ==> r.value <= |out| && out[..r.value] == out'[..r.value])
  {
    hide NCountRead, DecoderFor, BitLength, LE, StateBelow, Run;
    if NCountRead(cSrc, 255).Ok? {
      var (norm, L, size) := NCountRead(cSrc, 255).value;
      if L <= maxLog {
        SameCells(dt, t, dt', t', norm, L);
        var c := cSrc[size..];
        if InitError(c).None? {
          var k := BitLength(c);
          SameRun(dt, dt', LE(c), k - L - L, StateBelow(LE(c), k - L, L), StateBelow(LE(c), k - L - L, L), |out|);
        }
      }
    }
  }

  /**
    FSE_decompress_wksp: safe for arbitrary bytes, since a description that is accepted can always be turned
    into a decoding table, and then exactly what the reference decoder makes of the rest; a block of FSE_compress2
    gives back its source.
   */
  method DecompressWksp(dst: array<nat>, cSrc: seq<byte>, maxLog: nat, ghost known: bool, ghost p: Plan, ghost src: seq<byte>)
    returns (r: Result<nat>, ghost dt: DTable, ghost t: seq<nat>)
    requires maxLog <= BYTE_LIMITS.maxTableLog
    requires known ==> PlanFor(p, src) && Compressed(cSrc, p, src) && p.L <= maxLog
    modifies dst
    ensures r.Ok? ==> r.value <= dst.Length
    ensures ReadBlock(cSrc, dt, t, maxLog, r, dst[..])
    ensures known ==> r == if |src| <= dst.Length then Ok(|src|) else Err(DstSizeTooSmall)
    ensures known && r.Ok? ==> dst[..r.value] == src
  {
    hide PlanFor, Compressed, HeaderOk, Usable, NormOk, DecoderFor, EncoderFor, HoldsBlock, NoWholeTable, IsSpread, DTableFor, StreamRun, InitError,
      BitLength, Run, NCountRead;
    dt, t := DTable(0, false, []), [];
    ghost var h := Header(known, p.norm, p.L, p.size);
    if known { HeaderIs(cSrc, p, src); } else { NoHeader(h, cSrc); }
    var counting := new int[256];
    LegibleWithMore(h, cSrc);
    var header := ReadNCount(counting, cSrc, h);
    if header.Err? { return Err(header.error), dt, t; }
    var d := header.value;
    if d.tableLog > maxLog { return Err(TableLogTooLarge), dt, t; }
    UsableNorm(counting[..], d);
    var norm := counting[..d.maxSymbolValue + 1];
    assert norm == counting[..][..d.maxSymbolValue + 1];
    var table;
    table, t := BuildDTable(norm, d.tableLog, BYTE_LIMITS);
    dt := table.value;
    DecoderIs(table.value, t, norm, d.tableLog);
    if known {
      BlockIs(cSrc, p, src, table.value, t);
      BlockRuns(History(true, p.ct, src, t, norm), cSrc[d.size..], table.value, dst.Length);
    }
    r := DecompressUsingDTable(dst, cSrc[d.size..], table.value, t, norm);
  }

  lemma {:induction false} HeaderIs(c: seq<byte>, p: Plan, src: seq<byte>)
    requires PlanFor(p, src) && Compressed(c, p, src)
    ensures HeaderOk(Header(true, p.norm, p.L, p.size), c) && p.size < |c| && 0 < |p.norm| <= 256
  {
    assert |p.norm| > 0;
    hide NormOk, NCountForm, Represents, Block, AllCoded, EncoderFor;
  }

  lemma {:induction false} UsableNorm(norm: seq<int>, d: Described)
    requires Usable(norm, d) && d.tableLog <= BYTE_LIMITS.maxTableLog
    ensures d.maxSymbolValue < |norm| && NormOk(norm[..d.maxSymbolValue + 1], d.tableLog)
  {
    hide NormOk;
  }

  lemma {:induction false} DecoderIs(dt: DTable, t: seq<nat>, norm: seq<int>, L: nat)
    requires NormOk(norm, L) && L <= BYTE_LIMITS.maxTableLog && IsSpread(t, norm, L) && DTableFor(dt, t, norm, L)
    ensures dt.tableLog == L && DecoderFor(dt, t, norm, L)
  {
    hide NormOk, IsSpread;
  }

  lemma {:induction false} BlockIs(c: seq<byte>, p: Plan, src: seq<byte>, dt: DTable, t: seq<nat>)
    requires PlanFor(p, src) && Compressed(c, p, src)
    requires dt.tableLog == p.L && DecoderFor(dt, t, p.norm, p.L)
    ensures t == p.t && NoWholeTable(p.norm, p.L)
    ensures HoldsBlock(History(true, p.ct, src, t, p.norm), c[p.size..], dt)
  {
    hide NormOk, IsSpread, NCountForm, Represents, Block, AllCoded, CTableFor, DTableFor;
    SpreadUnique(t, p.t, p.norm, p.L);
  }

  /**
    Every source that FSE_compress2 compresses comes back unchanged from FSE_decompress, provided that the
    arguments leave room for the table and that the description is not longer than the destination: a table log
    of 5 and up and a largest symbol other than 0 always do the former, and so does a table log of 9 and up;
    FSE_NCOUNTBOUND bytes are always enough for the latter.
   */
  method CompressRoundTrip(src: seq<byte>, dstCapacity: nat, maxSymbolValue: nat, tableLog: nat, capacity: nat)
    returns (c: Result<nat>, defined: bool, r: Result<nat>, out: seq<nat>, ghost p: Plan)
    requires |src| < 0x1_0000_0000 && maxSymbolValue <= 255
    ensures AskedApart(src, maxSymbolValue, tableLog) ==> defined || TooLong(p, dstCapacity)
    ensures AskedApart(src, maxSymbolValue, tableLog) && dstCapacity >= FSE_NCOUNTBOUND ==> defined
    ensures defined && c.Ok? && c.value > 1 ==> c.value <= dstCapacity && c.value + 2 <= |src|
    ensures defined && c.Ok? && c.value > 1 && |src| <= capacity ==> r == Ok(|src|) && out == src
    ensures defined && c.Ok? && c.value > 1 && |src| > capacity ==> r == Err(DstSizeTooSmall)
  {
    hide *;
    r, out := Err(Generic), [];
    var dst := new byte[dstCapacity + Spare(BYTE_LIMITS.maxTableLog, |src|)];
    c, defined, p := Compress2(dst, dstCapacity, src, maxSymbolValue, tableLog);
    if !defined || c.Err? || c.value <= 1 { return; }
    var regenerated := new nat[capacity];
    AnyPlan(p, src);
    ghost var dt, t;
    r, dt, t := DecompressWksp(regenerated, dst[..c.value], BYTE_LIMITS.maxTableLog, true, p, src);
    if r.Ok? { out := regenerated[..r.value]; }
  }

  lemma {:induction false} AnyPlan(p: Plan, src: seq<byte>)
    requires PlanFor(p, src)
    ensures p.L <= BYTE_LIMITS.maxTableLog
  {
  }
}
