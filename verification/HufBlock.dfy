/**
  A whole Huff0 block: HUF_compress_internal without a table to repeat, and the decoders that start from the
  header.
 */
module HufBlock {
  import opened Bits
  import opened BitStream
  import opened Errors
  import opened FseSpread
  import opened FseWhole
  import opened HufHeight
  import opened HufCode
  import opened HufX1
  import opened HufX2
  import opened HufWalk
  import opened HufStream
  import opened HufStreamX2
  import opened Huf4X
  import opened Huf4X2
  import opened HufStats
  import opened HufHeader
  import FseCounters
  import HufTree
  import HufCTable

  // ---------- counts ----------

  /** The two ways to add up counts agree. */
  lemma {:induction false} TotalIsSum(count: seq<nat>, n: nat)
    requires n <= |count|
    ensures HufTree.Total(count[..n]) == FseCounters.SumCount(count, n)
  {
    if n > 0 {
      assert count[..n][..n - 1] == count[..n - 1];
      TotalIsSum(count, n - 1);
    }
  }

  lemma {:induction false} MarksBelow(count: seq<nat>, m: seq<nat>)
    requires |m| == |count| && forall k | 0 <= k < |count| :: m[k] <= 1 && (count[k] == 0 ==> m[k] == 0)
    ensures HufTree.Total(m) <= |count| && HufTree.Total(m) <= HufTree.Total(count)
  {
    if |m| > 0 { MarksBelow(count[..|m| - 1], m[..|m| - 1]); }
  }

  /** Number of symbols in use, against the number of symbols and the size of the source. */
  lemma {:induction false} UsedFew(count: seq<nat>, src: seq<byte>)
    requires Histogram(count, src)
    ensures HufTree.Total(count) == |src| && HufCTable.Used(count) <= |count| && HufCTable.Used(count) <= |src|
  {
    TotalIsSum(count, |count|);
    assert count[..|count|] == count;
    MarksBelow(count, HufCTable.Marks(count));
  }

  /** A table log of FSE_minTableLog and up has room for the symbols in use. */
  lemma {:induction false} RoomForUsed(used: nat, srcSize: nat, n: nat, L: nat)
    requires used <= n && used <= srcSize && srcSize > 1 && n > 1 && L >= FseCounters.MinTableLog(srcSize, n - 1)
    ensures used <= Pow2(L)
  {
    hide Pow2, HighBit;
    var a, b := HighBit(srcSize) + 1, HighBit(n - 1) + 2;
    Pow2Mono(if a < b then a else b, L);
    PowNext(a - 1);
    PowNext(b - 2);
    PowNext(b - 1);
  }

  /** The log that HUF_optimalTableLog picks. */
  lemma {:induction false} HuffLogOk(huffLog: nat, count: seq<nat>, src: seq<byte>)
    requires Histogram(count, src) && |src| > 1 && |count| > 1 && huffLog <= HUF_TABLELOG_MAX
    ensures var L := OptimalTableLog(huffLog, |src|, |count| - 1, 1);
            L <= HUF_TABLELOG_MAX && HufCTable.Used(count) <= Pow2(HufCTable.Limit(L)) && HufCTable.Limit(L) == L
            && (huffLog < HUF_TABLELOG_MAX ==> L < HUF_TABLELOG_MAX)
  {
    UsedFew(count, src);
    NineBits(|count| - 1);
    var L := OptimalOrMax(huffLog, |src|, |count| - 1);
    RoomForUsed(HufCTable.Used(count), |src|, |count|, L);
    hide Histogram, HufCTable.Used, Pow2, HighBit;
  }

  /** At most 256 symbols never ask for the largest table log. */
  lemma {:induction false} NineBits(maxSymbolValue: nat)
    requires 0 < maxSymbolValue <= 255
    ensures HighBit(maxSymbolValue) + 2 <= 9
  {
    hide Pow2;
    SmallPowers();
    if HighBit(maxSymbolValue) > 7 { Pow2Mono(8, HighBit(maxSymbolValue)); }
  }

  lemma {:induction false} OptimalOrMax(huffLog: nat, srcSize: nat, maxSymbolValue: nat) returns (L: nat)
    requires srcSize > 1 && 0 < maxSymbolValue <= 255
    ensures L == OptimalTableLog(huffLog, srcSize, maxSymbolValue, 1) >= FseCounters.MinTableLog(srcSize, maxSymbolValue)
  {
    hide HighBit;
    NineBits(maxSymbolValue);
    L := OptimalTableLog(huffLog, srcSize, maxSymbolValue, 1);
  }

  /** A source of two different symbols. */
  lemma {:induction false} TwoSymbols(count: seq<nat>, src: seq<byte>)
    requires Histogram(count, src) && |src| > 0 && !(forall i | 0 <= i < |src| :: src[i] == src[0])
    ensures HufCTable.TwoUsed(count) && |count| > 1 && |src| > 1
  {
    var i :| 0 <= i < |src| && src[i] != src[0];
    var s, t := if src[i] < src[0] then src[i] else src[0], if src[i] < src[0] then src[0] else src[i];
    assert s < t && count[s] > 0 && count[t] > 0;
  }

  // ---------- a compressed block ----------

  /** The code of a block, and its header; `h` is the size of its weights when compressed, and `p` says how they are. */
  datatype Coded = Coded(lens: seq<nat>, M: nat, size: nat, h: Result<nat>, p: Plan)

  /** `c` is a header for a code that covers `src`, then the stream, or the four streams, of `src`. */
  ghost predicate BlockOf(c: seq<byte>, src: seq<byte>, b: Coded, four: bool) {
    && Written(b.lens, b.M) && b.size < |c| && HeaderForm(c, b.size, StoredWeights(b.lens, b.M), b.p)
    && SourceCoded(b.lens, src)
    && (if four then FourStreams(c[b.size..], b.lens, b.M, src) else StreamOf(c[b.size..], b.lens, b.M, src))
  }

  /** A code with no symbol that the source lacks, and of which every symbol of the source is part. */
  lemma {:induction false} CodeIsWritten(count: seq<nat>, src: seq<byte>, lens: seq<nat>, M: nat)
    requires Histogram(count, src) && HufCTable.CodeFor(count, lens, M) && |count| > 1 && M <= HUF_TABLELOG_MAX
    ensures Written(lens, M) && SourceCoded(lens, src)
  {
    hide FullCode, Tallied, FseCounters.SumCount;
    assert lens[|count| - 1] > 0;
    assert AtMost(lens, M) by { FullIsAtMost(lens, M); }
  }

  lemma {:induction false} FullIsAtMost(lens: seq<nat>, M: nat)
    requires FullCode(lens, M)
    ensures AtMost(lens, M)
  {
  }

  lemma {:induction false} HeaderExtended(h: seq<byte>, c: seq<byte>, w: seq<byte>, p: Plan)
    requires HeaderForm(h, |h|, w, p) && h <= c
    ensures HeaderForm(c, |h|, w, p)
  {
    hide PlanFor, Compressed, AllAtMost, Half, PairByte;
    assert c[1..|h|] == h[1..|h|];
    if h[0] >= 128 { RawExtended(h, c, w); }
  }

  lemma {:induction false} RawExtended(h: seq<byte>, c: seq<byte>, w: seq<byte>)
    requires RawForm(h, w) && h <= c
    ensures RawForm(c, w)
  {
    hide AllAtMost, Half, PairByte;
    forall b: nat | 1 <= b <= Half(|w| + 1) ensures c[b] == PairByte(w, b - 1) { assert c[b] == h[b]; }
  }

  lemma {:induction false} BlockIs(h: seq<byte>, c: seq<byte>, src: seq<byte>, b: Coded, four: bool)
    requires Written(b.lens, b.M) && SourceCoded(b.lens, src) && b.size == |h| <= |c| && c[..b.size] == h
    requires HeaderForm(h, |h|, StoredWeights(b.lens, b.M), b.p)
    requires if four then FourStreams(c[b.size..], b.lens, b.M, src) else StreamOf(c[b.size..], b.lens, b.M, src)
    ensures BlockOf(c, src, b, four)
  {
    HeaderExtended(h, c, StoredWeights(b.lens, b.M), b.p);
    NotEmpty(c[b.size..], src, b.lens, b.M, four);
    hide Written, HeaderForm, StoredWeights, SourceCoded, FourStreams, StreamOf;
  }

  lemma {:induction false} NotEmpty(c: seq<byte>, src: seq<byte>, lens: seq<nat>, M: nat, four: bool)
    requires if four then FourStreams(c, lens, M, src) else StreamOf(c, lens, M, src)
    ensures |c| > 0
  {
    hide SegmentBits, Represents;
    if !four { RepresentsUnique(c, SegmentBits(lens, M, src).val, SegmentBits(lens, M, src).len); }
  }

  /** The stream, or the four streams, of `src` at `op`. */
  ghost predicate StreamsAt(a: seq<byte>, op: nat, cSize: nat, src: seq<byte>, four: bool, lens: seq<nat>, M: nat) {
    op + cSize <= |a|
    && if four then FourStreams(a[op..op + cSize], lens, M, src) else StreamOf(a[op..op + cSize], lens, M, src)
  }

  /** The destination has room for the stream, or the four streams. */
  ghost predicate StreamsFit(lens: seq<nat>, M: nat, src: seq<byte>, dstSize: nat, four: bool) {
    if four then FourFit(lens, M, src, dstSize) else RoomFor(CodeBits(lens, M, src, 0).len, dstSize)
  }

  /** Size of the stream, or of the jump table and the four streams. */
  ghost function StreamsSize(lens: seq<nat>, M: nat, src: seq<byte>, four: bool): nat {
    if four then
      if Tail(|src|) <= |src| then FirstThree(lens, M, src) + SegmentBytes(lens, M, src[Tail(|src|)..|src|]) else 0
    else
      SegmentBytes(lens, M, src)
  }

  lemma {:induction false} StreamsSizeIs(c: seq<byte>, lens: seq<nat>, M: nat, src: seq<byte>, four: bool)
    requires if four then FourStreams(c, lens, M, src) else StreamOf(c, lens, M, src)
    ensures |c| == StreamsSize(lens, M, src, four)
  {
    hide StreamOf, SegmentBytes, LE;
    if four {
      var g := Quarter(|src|);
      var l1, l2, l3 := LE(c[0..2]), LE(c[2..4]), LE(c[4..6]);
      assert src[..g] == src[0..g] && src[g + g + g..] == src[Tail(|src|)..|src|];
      StreamSize(c[6..6 + l1], lens, M, src[..g]);
      StreamSize(c[6 + l1..6 + l1 + l2], lens, M, src[g..g + g]);
      StreamSize(c[6 + l1 + l2..6 + l1 + l2 + l3], lens, M, src[g + g..g + g + g]);
      StreamSize(c[6 + l1 + l2 + l3..], lens, M, src[g + g + g..]);
    } else {
      StreamSize(c, lens, M, src);
    }
  }

  /**
    The result for the code of `b`: an error if the header cannot be written; 0 if it leaves less than 12 bytes of the
    source, if the streams have no room behind it, or if both do not save at least 2 bytes; otherwise the size of both.
   */
  ghost function BlockResult(b: Coded, src: seq<byte>, dstSize: nat, four: bool): Result<nat>
    requires |b.lens| > 0
  {
    match HeaderResult(b.h, |b.lens| - 1, dstSize)
    case Err(e) => Err(e)
    case Ok(size) =>
      if size + 12 >= |src| || size > dstSize || !StreamsFit(b.lens, b.M, src, dstSize - size, four) then Ok(0)
      else if size + StreamsSize(b.lens, b.M, src, four) + 1 >= |src| then Ok(0)
      else Ok(size + StreamsSize(b.lens, b.M, src, four))
  }

  /** The code and its weights, as written with `dstSize` bytes. */
  ghost predicate Weighed(b: Coded, src: seq<byte>, dstSize: nat) {
    && Written(b.lens, b.M) && SourceCoded(b.lens, src) && dstSize > 0
    && AllAtMost(StoredWeights(b.lens, b.M), HUF_TABLELOG_MAX)
    && WeightsVerdict(b.h, b.p, StoredWeights(b.lens, b.M), dstSize - 1)
  }

  /** No symbol is frequent enough. */
  ghost predicate Even(src: seq<byte>) {
    forall s: nat :: Occ(src, |src|, s) <= Shr(|src|, 7) + 4
  }

  /** HUF_compressCTable_internal, before its check of the size: the stream or the four streams after the header. */
  method StoreStreams(dst: array<byte>, dstSize: nat, op: nat, src: seq<byte>, four: bool, table: seq<CElt>, ghost lens: seq<nat>, ghost M: nat)
    returns (cSize: nat)
    requires op <= dstSize <= dst.Length && |src| <= HUF_BLOCKSIZE_MAX
    requires FullCode(lens, M) && M <= HUF_TABLELOG_MAX && CodeTable(table, lens, M) && SourceCoded(lens, src)
    modifies dst
    ensures op + cSize <= dstSize && Framed(old(dst[..]), dst[..], op, dstSize)
    ensures cSize != 0 ==> StreamsAt(dst[..], op, cSize, src, four, lens, M)
    ensures cSize == if StreamsFit(lens, M, src, dstSize - op, four) then StreamsSize(lens, M, src, four) else 0
  {
    hide FullCode, CodeTable, SourceCoded, FourStreams, Represents, SegmentBits, CodeBits, FourFit, RoomFor;
    if four {
      cSize := Compress4X(dst, op, dstSize - op, src, table, lens, M);
    } else {
      cSize := Compress1X(dst, op, dstSize - op, src, table, lens, M);
      if cSize != 0 { SingleStream(dst[op..op + cSize], lens, M, src); }
    }
    assert dst[op..op + cSize] == dst[..][op..op + cSize];
    if cSize != 0 { StreamsSizeIs(dst[op..op + cSize], lens, M, src, four); }
    StreamsPositive(lens, M, src, four);
  }

  lemma {:induction false} StreamsPositive(lens: seq<nat>, M: nat, src: seq<byte>, four: bool)
    ensures (four && Tail(|src|) > |src|) || StreamsSize(lens, M, src, four) > 0
  {
    hide SegmentBits, Shr;
  }

  lemma {:induction false} SingleStream(c: seq<byte>, lens: seq<nat>, M: nat, src: seq<nat>)
    requires Represents(c, CodeBits(lens, M, src, 0).val, CodeBits(lens, M, src, 0).len)
    ensures StreamOf(c, lens, M, src)
  {
    hide CodeBits, Represents;
  }

  /** HUF_compress_internal from the table on: the header, then the streams. */
  method CompressWithTable(dst: array<byte>, dstSize: nat, src: seq<byte>, table: seq<CElt>, huffLog: nat, four: bool, ghost lens: seq<nat>)
    returns (r: Result<nat>, ghost b: Coded)
    requires 0 < dstSize < dst.Length && 1 < |src| <= HUF_BLOCKSIZE_MAX
    requires Written(lens, huffLog) && SourceCoded(lens, src) && CodeTable(table, lens, huffLog) && |table| == |lens|
    modifies dst
    ensures r.Ok? ==> r.value != 1
    ensures b.lens == lens && b.M == huffLog && Weighed(b, src, dstSize) && r == BlockResult(b, src, dstSize, four)
    ensures r.Ok? && r.value > 1 ==> r.value <= dstSize && r.value + 2 <= |src| && BlockOf(dst[..r.value], src, b, four)
    ensures forall k | dstSize + (if dstSize <= WEIGHTS_NCOUNT then 1 else 0) <= k < dst.Length :: dst[k] == old(dst[k])
  {
    hide *;
    WrittenParts(lens, huffLog);
    var hSize, h, p := WriteCTable(dst, dstSize, table, |table| - 1, huffLog, lens);
    b := Coded(lens, huffLog, if hSize.Ok? then hSize.value else 0, h, p);
    IsWeighed(b, src, dstSize);
    if hSize.Err? {
      NoBlock(b, src, dstSize, four);
      return Err(hSize.error), b;
    }
    ResultIs(b, src, dstSize, four);
    if hSize.value + 12 >= |src| { return Ok(0), b; }
    var size := AppendStreams(dst, dstSize, hSize.value, src, four, table, b);
    if size + 1 >= |src| { return Ok(0), b; }
    r := Ok(size);
  }

  lemma {:induction false} IsWeighed(b: Coded, src: seq<byte>, dstSize: nat)
    requires Written(b.lens, b.M) && SourceCoded(b.lens, src) && dstSize > 0 && AllAtMost(StoredWeights(b.lens, b.M), HUF_TABLELOG_MAX)
    requires WeightsVerdict(b.h, b.p, StoredWeights(b.lens, b.M), dstSize - 1)
    ensures Weighed(b, src, dstSize)
  {
    hide Written, SourceCoded, WeightsVerdict, AllAtMost;
  }

  lemma {:induction false} NoBlock(b: Coded, src: seq<byte>, dstSize: nat, four: bool)
    requires |b.lens| > 0 && HeaderResult(b.h, |b.lens| - 1, dstSize).Err?
    ensures BlockResult(b, src, dstSize, four) == HeaderResult(b.h, |b.lens| - 1, dstSize)
  {
    hide HeaderResult;
  }

  lemma {:induction false} ResultIs(b: Coded, src: seq<byte>, dstSize: nat, four: bool)
    requires |b.lens| > 0 && HeaderResult(b.h, |b.lens| - 1, dstSize) == Ok(b.size) && b.size <= dstSize
    ensures var n := StreamsSize(b.lens, b.M, src, four);
            BlockResult(b, src, dstSize, four) == Ok(if b.size + 12 >= |src| || !StreamsFit(b.lens, b.M, src, dstSize - b.size, four)
                                                        || b.size + n + 1 >= |src| then 0 else b.size + n)
  {
    hide HeaderResult, StreamsFit, StreamsSize;
  }

  /** The streams after a header. 0: no room for them. */
  method AppendStreams(dst: array<byte>, dstSize: nat, hSize: nat, src: seq<byte>, four: bool, table: seq<CElt>, ghost b: Coded)
    returns (size: nat)
    requires hSize <= dstSize <= dst.Length && b.size == hSize && |src| <= HUF_BLOCKSIZE_MAX
    requires Written(b.lens, b.M) && SourceCoded(b.lens, src) && CodeTable(table, b.lens, b.M)
    requires HeaderForm(dst[..hSize], hSize, StoredWeights(b.lens, b.M), b.p)
    modifies dst
    ensures size <= dstSize && size != 1
    ensures size == if StreamsFit(b.lens, b.M, src, dstSize - hSize, four) then hSize + StreamsSize(b.lens, b.M, src, four) else 0
    ensures size > 0 ==> BlockOf(dst[..size], src, b, four)
    ensures forall k | dstSize <= k < dst.Length :: dst[k] == old(dst[k])
  {
    hide *;
    WrittenParts(b.lens, b.M);
    ghost var before := dst[..];
    assert before[..hSize] == dst[..hSize];
    var cSize := StoreStreams(dst, dstSize, hSize, src, four, table, b.lens, b.M);
    if StreamsFit(b.lens, b.M, src, dstSize - hSize, four) { FitPositive(b.lens, b.M, src, dstSize - hSize, four); }
    RestSame(before, dst[..], hSize, dstSize);
    if cSize == 0 { return 0; }
    size := hSize + cSize;
    BlockStored(before, dst[..], dstSize, cSize, src, b, four);
    assert dst[..][..size] == dst[..size];
  }

  lemma {:induction false} FitPositive(lens: seq<nat>, M: nat, src: seq<byte>, dstSize: nat, four: bool)
    requires StreamsFit(lens, M, src, dstSize, four)
    ensures StreamsSize(lens, M, src, four) > 0
  {
    hide CodeBits, RoomFor;
    StreamsPositive(lens, M, src, four);
  }

  lemma {:induction false} RestSame(a: seq<byte>, a': seq<byte>, start: nat, oend: nat)
    requires Framed(a, a', start, oend)
    ensures |a| == |a'| && forall k | oend <= k < |a| :: a'[k] == a[k]
  {
  }

  lemma {:induction false} BlockStored(before: seq<byte>, a: seq<byte>, dstSize: nat, cSize: nat, src: seq<byte>, b: Coded, four: bool)
    requires Written(b.lens, b.M) && SourceCoded(b.lens, src) && b.size <= |before|
    requires HeaderForm(before[..b.size], b.size, StoredWeights(b.lens, b.M), b.p)
    requires b.size <= dstSize <= |before| && Framed(before, a, b.size, dstSize) && StreamsAt(a, b.size, cSize, src, four, b.lens, b.M)
    ensures BlockOf(a[..b.size + cSize], src, b, four) && b.size + cSize > 1
  {
    hide Written, HeaderForm, StoredWeights, SourceCoded, FourStreams, StreamOf;
    var h, c := before[..b.size], a[..b.size + cSize];
    assert c[..b.size] == h && c[b.size..] == a[b.size..b.size + cSize];
    BlockIs(h, c, src, b, four);
    BlockSize(c, src, b, four);
  }

  /** The result of compressing the source by the code that HUF_buildCTable makes of its counts. */
  ghost predicate CodeResult(r: Result<nat>, b: Coded, src: seq<byte>, huffLog: nat, dstSize: nat, four: bool) {
    && HufCTable.LimitedCode(CountsOf(src), huffLog, b.lens, b.M)
    && Weighed(b, src, dstSize) && |b.lens| > 0 && r == BlockResult(b, src, dstSize, four)
  }

  /** HUF_compress_internal from the counts on; the table can always be built. */
  method CompressCounts(dst: array<byte>, dstSize: nat, src: seq<byte>, count: seq<nat>, huffLog0: nat, four: bool)
    returns (r: Result<nat>, ghost b: Coded)
    requires 0 < dstSize < dst.Length && 1 < |src| <= HUF_BLOCKSIZE_MAX && huffLog0 <= HUF_TABLELOG_MAX
    requires Histogram(count, src) && HufCTable.TwoUsed(count) && |count| > 1
    modifies dst
    ensures r.Ok? ==> r.value != 1
    ensures CodeResult(r, b, src, OptimalTableLog(huffLog0, |src|, |count| - 1, 1), dstSize, four)
    ensures r.Ok? && r.value > 1 ==> r.value <= dstSize && r.value + 2 <= |src| && BlockOf(dst[..r.value], src, b, four)
                                     && (huffLog0 < HUF_TABLELOG_MAX ==> b.M < HUF_TABLELOG_MAX)
    ensures forall k | dstSize + (if dstSize <= WEIGHTS_NCOUNT then 1 else 0) <= k < dst.Length :: dst[k] == old(dst[k])
  {
    HuffLogOk(huffLog0, count, src);
    UsedFew(count, src);
    assert |count| - 1 <= HUF_SYMBOLVALUE_MAX;
    hide *;
    var huffLog := OptimalTableLog(huffLog0, |src|, |count| - 1, 1);
    SmallTotal(count, src);
    var maxBits, inRange, table, lens, tree := HufCTable.BuildCTable(count, huffLog);
    CodeIsWritten(count, src, lens, maxBits.value);
    TableSize(table[..], lens, maxBits.value);
    r, b := CompressWithTable(dst, dstSize, src, table[..], maxBits.value, four, lens);
    IsCodeResult(r, b, count, src, huffLog, dstSize, four);
  }

  lemma {:induction false} IsCodeResult(r: Result<nat>, b: Coded, count: seq<nat>, src: seq<byte>, huffLog: nat, dstSize: nat, four: bool)
    requires Histogram(count, src) && |src| > 0 && HufCTable.LimitedCode(count, HufCTable.Limit(huffLog), b.lens, b.M) && huffLog > 0
    requires Weighed(b, src, dstSize) && |b.lens| > 0 && r == BlockResult(b, src, dstSize, four)
    ensures CodeResult(r, b, src, huffLog, dstSize, four)
  {
    hide Histogram, HufCTable.LimitedCode, Weighed, BlockResult;
    CountedAre(count, src);
  }

  lemma {:induction false} TableSize(table: seq<CElt>, lens: seq<nat>, M: nat)
    requires CodeTable(table, lens, M)
    ensures |table| == |lens|
  {
    hide ValueOf;
  }

  lemma {:induction false} SmallTotal(count: seq<nat>, src: seq<byte>)
    requires HufTree.Total(count) == |src| <= HUF_BLOCKSIZE_MAX
    ensures HufTree.Total(count) < HufTree.DEEP_TOTAL
  {
  }

  lemma {:induction false} WrittenParts(lens: seq<nat>, M: nat)
    requires Written(lens, M)
    ensures FullCode(lens, M) && AtMost(lens, M) && M <= HUF_TABLELOG_MAX && 2 <= |lens| <= HUF_SYMBOLVALUE_MAX + 1
  {
    hide CodeKraft;
  }

  lemma {:induction false} BlockSize(c: seq<byte>, src: seq<byte>, b: Coded, four: bool)
    requires BlockOf(c, src, b, four)
    ensures |c| > 1
  {
    hide FullCode, HeaderForm, FourStreams, StreamOf, SourceCoded;
    HeaderPositive(c, b.size, StoredWeights(b.lens, b.M), b.p);
  }

  lemma {:induction false} HeaderPositive(c: seq<byte>, size: nat, w: seq<byte>, p: Plan)
    requires HeaderForm(c, size, w, p)
    ensures size > 0
  {
  }

  /** The table log HUF_compress works with. */
  ghost function HufLog(src: seq<byte>, asked: nat): nat {
    if |src| > 1 && LargestByte(src) > 0 then OptimalTableLog(asked, |src|, LargestByte(src), 1) else 0
  }

  /** Which result HUF_compress_internal returns: the checks, the heuristics, and then the code of the source. */
  ghost predicate BlockVerdict(r: Result<nat>, b: Coded, src: seq<byte>, maxSymbolValue: nat, asked: nat, dstSize: nat, four: bool) {
    if |src| == 0 || dstSize == 0 then r == Ok(0)
    else if |src| > HUF_BLOCKSIZE_MAX then r == Err(SrcSizeWrong)
    else if asked > HUF_TABLELOG_MAX then r == Err(TableLogTooLarge)
    else if maxSymbolValue > HUF_SYMBOLVALUE_MAX then r == Err(MaxSymbolValueTooLarge)
    else if maxSymbolValue > 0 && exists i :: 0 <= i < |src| && src[i] > maxSymbolValue then r == Err(MaxSymbolValueTooSmall)
    else if OneValue(src) then r == Ok(1)
    else if Even(src) then r == Ok(0)
    else CodeResult(r, b, src, HufLog(src, if asked == 0 then 11 else asked), dstSize, four)
  }

  /**
    HUF_compress1X_wksp and HUF_compress4X_wksp. 0: not compressible; 1: one symbol repeated, which is then in
    `dst`; otherwise a block that is smaller than the source by at least 2 bytes.
   */
  method CompressBlock(dst: array<byte>, dstSize: nat, src: seq<byte>, maxSymbolValue0: nat, huffLog0: nat, four: bool)
    returns (r: Result<nat>, ghost b: Coded)
    requires dstSize < dst.Length
    modifies dst
    ensures r.Ok? && r.value == 1 <==>
            0 < |src| <= HUF_BLOCKSIZE_MAX && dstSize > 0 && huffLog0 <= HUF_TABLELOG_MAX && maxSymbolValue0 <= HUF_SYMBOLVALUE_MAX
            && (maxSymbolValue0 > 0 ==> src[0] <= maxSymbolValue0) && forall i | 0 <= i < |src| :: src[i] == src[0]
    ensures r.Ok? && r.value == 1 ==> dst[0] == src[0]
    ensures BlockVerdict(r, b, src, maxSymbolValue0, huffLog0, dstSize, four)
    ensures r.Ok? && r.value > 1 ==> r.value <= dstSize && r.value + 2 <= |src| && BlockOf(dst[..r.value], src, b, four)
                                     && (huffLog0 < HUF_TABLELOG_MAX ==> b.M < HUF_TABLELOG_MAX)
    ensures forall k | dstSize + (if dstSize <= WEIGHTS_NCOUNT then 1 else 0) <= k < dst.Length :: dst[k] == old(dst[k])
  {
    hide Histogram, Written, HeaderForm, BlockOf, Shr, CodeResult, Occ, HufLog, LargestByte, OptimalTableLog, HufCTable.TwoUsed;
    b := Coded([], 0, 0, Ok(0), Plan([], 0, FseTable.CTable(0, [], []), [], 0));
    if |src| == 0 { return Ok(0), b; }
    if dstSize == 0 { return Ok(0), b; }
    if |src| > HUF_BLOCKSIZE_MAX { return Err(SrcSizeWrong), b; }
    if huffLog0 > HUF_TABLELOG_MAX { return Err(TableLogTooLarge), b; }
    if maxSymbolValue0 > HUF_SYMBOLVALUE_MAX { return Err(MaxSymbolValueTooLarge), b; }
    var maxSymbolValue := if maxSymbolValue0 == 0 then HUF_SYMBOLVALUE_MAX else maxSymbolValue0;
    var huffLog := if huffLog0 == 0 then HUF_TABLELOG_DEFAULT else huffLog0;
    var largest, count := FseWhole.Count(src, maxSymbolValue);
    if largest.Err? { return Err(largest.error), b; }
    OneSymbol(count, src, largest.value);
    MostFrequent(count, src, largest.value);
    SomeCount(count, src, largest.value);
    CountedLargest(count, src);
    if largest.value == |src| {
      dst[0] := src[0];
      return Ok(1), b;
    }
    if largest.value <= Shr(|src|, 7) + 4 { return Ok(0), b; }
    TwoSymbols(count, src);
    HufLogIs(src, count, huffLog);
    r, b := CompressCounts(dst, dstSize, src, count, huffLog, four);
  }

  lemma {:induction false} HufLogIs(src: seq<byte>, count: seq<nat>, huffLog: nat)
    requires |src| > 1 && |count| > 1 && LargestByte(src) == |count| - 1
    ensures HufLog(src, huffLog) == OptimalTableLog(huffLog, |src|, |count| - 1, 1)
  {
    hide LargestByte, OptimalTableLog;
  }

  /** The source and the arguments leave one result only. */
  lemma {:induction false} BlockVerdictDecides(r: Result<nat>, b: Coded, r': Result<nat>, b': Coded, src: seq<byte>, maxSymbolValue: nat,
                                               asked: nat, dstSize: nat, four: bool)
    requires BlockVerdict(r, b, src, maxSymbolValue, asked, dstSize, four)
    requires BlockVerdict(r', b', src, maxSymbolValue, asked, dstSize, four)
    ensures r == r'
  {
    hide CodeResult, Even, OneValue, HufLog;
    var L := HufLog(src, if asked == 0 then 11 else asked);
    if CodeResult(r, b, src, L, dstSize, four) && CodeResult(r', b', src, L, dstSize, four) {
      CodeResultDecides(r, b, r', b', src, L, dstSize, four);
    }
  }

  lemma {:induction false} CodeResultDecides(r: Result<nat>, b: Coded, r': Result<nat>, b': Coded, src: seq<byte>, L: nat, dstSize: nat, four: bool)
    requires CodeResult(r, b, src, L, dstSize, four) && CodeResult(r', b', src, L, dstSize, four)
    ensures r == r'
  {
    hide HufCTable.LimitedCode, Written, SourceCoded, WeightsVerdict, HeaderResult, StreamsFit, StreamsSize;
    HufCTable.LimitedCodeUnique(CountsOf(src), L, b.lens, b.M, b'.lens, b'.M);
    WeightsDecide(b.h, b.p, b'.h, b'.p, StoredWeights(b.lens, b.M), dstSize - 1);
  }

  // ---------- decompression from the header on ----------

  /** What is known of the block being read, if anything. */
  datatype Original = Original(known: bool, src: seq<byte>, b: Coded)

  ghost predicate BlockAt(o: Original, cSrc: seq<byte>, four: bool) {
    o.known ==> BlockOf(cSrc, o.src, o.b, four)
  }

  lemma {:induction false} KnownSource(o: Original, cSrc: seq<byte>, four: bool, code: seq<nat>, M: nat)
    requires BlockAt(o, cSrc, four) && o.known && code == o.b.lens && M == o.b.M
    ensures o.b.size < |cSrc| && if four then FourForm(cSrc[o.b.size..], code, M, o.src) else HoldsSource(code, M, cSrc[o.b.size..], o.src)
  {
    hide HeaderForm, StoredWeights, SourceCoded, FourStreams, Represents, CodeBits, Written;
  }

  lemma {:induction false} KnownHeader(o: Original, cSrc: seq<byte>, four: bool)
    requires BlockAt(o, cSrc, four) && o.known
    ensures Written(o.b.lens, o.b.M) && HeaderForm(cSrc, o.b.size, StoredWeights(o.b.lens, o.b.M), o.b.p)
    ensures o.b.size < |cSrc| && o.b.M <= HUF_TABLELOG_MAX
  {
    hide HeaderForm, FourStreams, StreamOf, SourceCoded, StoredWeights, FullCode;
  }

  /** What a decoder makes of the block: the source, exactly if its code can be read back. */
  ghost predicate Regained(o: Original, r: Result<nat>, out: seq<nat>) {
    o.known ==> if Readable(o.b.lens, o.b.M) then r == Ok(|o.src|) && out == o.src else r == Err(CorruptionDetected)
  }

  /** What the decoder with the single-symbol table makes of the bytes: the code of the header, then the streams. */
  ghost predicate ReadX1(cSrc: seq<byte>, four: bool, g: Seen, r: Result<nat>, out: seq<nat>) {
    && CodeFound(cSrc, 256, g)
    && match g.code
       case Err(e) => r == Err(e)
       case Ok((lens, M)) =>
         if M > HUF_TABLELOG_MAX then r == Err(TableLogTooLarge)
         else if g.size >= |cSrc| then r == Err(SrcSizeWrong)
         else FullCode(lens, M) && if four then OnlyFour(cSrc[g.size..], lens, M, r, out) else Only(cSrc[g.size..], lens, M, r, out)
  }

  /**
    HUF_decompress1X1_DCtx and HUF_decompress4X1_DCtx: the table from the header, then the streams. For any bytes,
    they succeed exactly if what follows the header is the form of a source of the length of the output, and
    then that is the output. `dst` has the size of the output, and with four streams room for three segments.
   */
  method DecompressX1(dst: array<nat>, dstSize: nat, cSrc: seq<byte>, four: bool, ghost o: Original) returns (r: Result<nat>, ghost g: Seen)
    requires BlockAt(o, cSrc, four) && (o.known ==> dst.Length == dstSize == |o.src|)
    requires if four && |cSrc| >= 10 then dst.Length == FourRoom(dstSize) else dst.Length == dstSize
    modifies dst
    ensures r.Ok? ==> r.value == dstSize
    ensures Regained(o, r, dst[..]) && ReadX1(cSrc, four, g, r, dst[..])
  {
    if o.known { KnownHeader(o, cSrc, four); }
    hide *;
    var hSize, dt, tableLog;
    ghost var code;
    hSize, dt, tableLog, code, g := ReadDTableX1(cSrc, HUF_TABLELOG_MAX, o.b.size, o.b.p, o.known, o.b.lens, o.b.M);
    if hSize.Err? {
      NotRegained(o, hSize.error, dst[..]);
      HeaderFails(cSrc, four, g, hSize.error, code, dst[..]);
      return Err(hSize.error), g;
    }
    HeaderSize(g, hSize, code);
    if o.known { KnownSource(o, cSrc, four, code, tableLog); }
    if hSize.value >= |cSrc| {
      NothingKnown(o, Err(SrcSizeWrong), dst[..]);
      HeaderOnly(cSrc, four, g, code, tableLog, dst[..]);
      return Err(SrcSizeWrong), g;
    }
    TableIs(code, dt, tableLog);
    ghost var c := cSrc[hSize.value..];
    if four {
      r := Decompress4X1(dst, dstSize, cSrc[hSize.value..], dt, tableLog, code);
      if o.known { OneOfFour(c, code, tableLog, r, dst[..], o.src); }
    } else {
      r := Decompress1X1(dst, cSrc[hSize.value..], dt, tableLog, code);
      if o.known { OneOf(c, code, tableLog, r, dst[..], o.src); }
    }
    IsReadX1(cSrc, four, g, code, tableLog, r, dst[..]);
    IsRegained(o, r, dst[..]);
  }

  lemma {:induction false} HeaderFails(cSrc: seq<byte>, four: bool, g: Seen, e: Error, code: seq<nat>, out: seq<nat>)
    requires CodeFound(cSrc, 256, g) && TableFor(g, HUF_TABLELOG_MAX, Err(e), code)
    ensures ReadX1(cSrc, four, g, Err(e), out)
  {
    hide CodeFound;
  }

  lemma {:induction false} HeaderSize(g: Seen, r: Result<nat>, code: seq<nat>)
    requires TableFor(g, HUF_TABLELOG_MAX, r, code) && r.Ok?
    ensures r.value == g.size && g.code.Ok? && g.code.value.1 <= HUF_TABLELOG_MAX && g.code.value.0 == code
  {
  }

  lemma {:induction false} HeaderOnly(cSrc: seq<byte>, four: bool, g: Seen, code: seq<nat>, M: nat, out: seq<nat>)
    requires CodeFound(cSrc, 256, g) && g.code == Ok((code, M)) && M <= HUF_TABLELOG_MAX && g.size >= |cSrc|
    ensures ReadX1(cSrc, four, g, Err(SrcSizeWrong), out)
  {
    hide CodeFound;
  }

  lemma {:induction false} IsReadX1(cSrc: seq<byte>, four: bool, g: Seen, lens: seq<nat>, M: nat, r: Result<nat>, out: seq<nat>)
    requires CodeFound(cSrc, 256, g) && g.code == Ok((lens, M)) && g.size < |cSrc| && FullCode(lens, M) && M <= HUF_TABLELOG_MAX
    requires if four then OnlyFour(cSrc[g.size..], lens, M, r, out) else Only(cSrc[g.size..], lens, M, r, out)
    ensures ReadX1(cSrc, four, g, r, out)
  {
    hide CodeFound, FullCode, OnlyFour, Only;
  }

  lemma {:induction false} TableIs(lens: seq<nat>, dt: seq<DEltX1>, dtLog: nat)
    requires 1 <= dtLog <= HUF_TABLELOG_MAX && FullCode(lens, dtLog) && TableX1(dt, lens, dtLog)
    ensures TableOf(lens, dt, dtLog)
  {
    hide FullCode, TableX1;
  }

  lemma {:induction false} OneOf(c: seq<byte>, lens: seq<nat>, M: nat, r: Result<nat>, out: seq<nat>, src: seq<nat>)
    requires Only(c, lens, M, r, out) && HoldsSource(lens, M, c, src) && |src| == |out|
    ensures r.Ok? && out == src
  {
    hide HoldsSource;
  }

  lemma {:induction false} OneOfFour(c: seq<byte>, lens: seq<nat>, M: nat, r: Result<nat>, out: seq<nat>, src: seq<nat>)
    requires OnlyFour(c, lens, M, r, out) && FourForm(c, lens, M, src) && |src| == |out|
    ensures r.Ok? && out == src
  {
    hide FourForm;
  }

  lemma {:induction false} NotRegained(o: Original, e: Error, out: seq<nat>)
    requires o.known ==> !Readable(o.b.lens, o.b.M) && e == CorruptionDetected
    ensures Regained(o, Err(e), out)
  {
  }

  lemma {:induction false} NothingKnown(o: Original, r: Result<nat>, out: seq<nat>)
    requires !o.known
    ensures Regained(o, r, out)
  {
  }

  lemma {:induction false} IsRegained(o: Original, r: Result<nat>, out: seq<nat>)
    requires o.known ==> Readable(o.b.lens, o.b.M) && r == Ok(|o.src|) && out == o.src
    ensures Regained(o, r, out)
  {
  }

  // ---------- the double-symbol decoders ----------

  lemma {:induction false} WiderStream(c: seq<byte>, lens: seq<nat>, M: nat, D: nat, seg: seq<nat>)
    requires FullCode(lens, M) && M <= D && StreamOf(c, lens, M, seg)
    ensures StreamOf(c, lens, D, seg)
  {
    hide CodeBits, FullCode, Represents;
    WiderBits(lens, M, D, seg, 0);
  }

  lemma {:induction false} WiderFour(c: seq<byte>, lens: seq<nat>, M: nat, D: nat, src: seq<nat>)
    requires FullCode(lens, M) && M <= D && FourStreams(c, lens, M, src)
    ensures FourStreams(c, lens, D, src)
  {
    hide FullCode, Quarter, LE, StreamOf;
    var g := Quarter(|src|);
    var l1, l2, l3 := LE(c[0..2]), LE(c[2..4]), LE(c[4..6]);
    WiderStream(c[6..6 + l1], lens, M, D, src[..g]);
    WiderStream(c[6 + l1..6 + l1 + l2], lens, M, D, src[g..g + g]);
    WiderStream(c[6 + l1 + l2..6 + l1 + l2 + l3], lens, M, D, src[g + g..g + g + g]);
    WiderStream(c[6 + l1 + l2 + l3..], lens, M, D, src[g + g + g..]);
  }

  /** The form of a source does not depend on the height that its code is taken as one of. */
  lemma {:induction false} WiderSource(o: Original, cSrc: seq<byte>, four: bool, D: nat)
    requires BlockAt(o, cSrc, four) && o.known && o.b.M <= D
    ensures o.b.size < |cSrc| && FullCode(o.b.lens, o.b.M)
    ensures if four then FourForm(cSrc[o.b.size..], o.b.lens, D, o.src) else HoldsSource(o.b.lens, D, cSrc[o.b.size..], o.src)
  {
    KnownSource(o, cSrc, four, o.b.lens, o.b.M);
    KnownHeader(o, cSrc, four);
    WrittenParts(o.b.lens, o.b.M);
    hide Written, FullCode, HeaderForm, StoredWeights, SourceCoded, FourStreams, Represents, CodeBits;
    if four {
      WiderFour(cSrc[o.b.size..], o.b.lens, o.b.M, D, o.src);
    } else {
      WiderBits(o.b.lens, o.b.M, D, o.src, 0);
    }
  }

  /** What the decoder with the double-symbol table makes of the bytes. */
  ghost predicate ReadX2(cSrc: seq<byte>, dstSize: nat, four: bool, g: Seen, dt: seq<DEltX2>, r: Result<nat>, out: seq<nat>) {
    && CodeFound(cSrc, 256, g)
    && match g.code
       case Err(e) => r == Err(e)
       case Ok((lens, M)) =>
         if M > HUF_TABLELOG_MAX then r == Err(TableLogTooLarge)
         else if g.size >= |cSrc| then r == Err(SrcSizeWrong)
         else
           && TableOf2(lens, dt, 12) && StepsOk(Steps2(dt), 12)
           && if four then FourDecoded(Steps2(dt), 12, cSrc[g.size..], dstSize, r, out) && OnlyFourLoosely(cSrc[g.size..], lens, dt, 12, r, out)
              else OneStream(Steps2(dt), 12, cSrc[g.size..], |out|, r, out) && OnlyLoosely(cSrc[g.size..], lens, dt, 12, r, out)
  }

  /**
    HUF_decompress1X2_DCtx and HUF_decompress4X2_DCtx, with a table for lookups of 12 bits: for any bytes, what the
    reference decoder makes of those after the header.
   */
  method DecompressX2(dst: array<nat>, dstSize: nat, cSrc: seq<byte>, four: bool, ghost o: Original)
    returns (r: Result<nat>, ghost g: Seen, ghost table: seq<DEltX2>)
    requires BlockAt(o, cSrc, four) && (o.known ==> dst.Length == dstSize == |o.src|)
    requires if four && |cSrc| >= 10 then dst.Length == FourRoom(dstSize) else dst.Length == dstSize
    modifies dst
    ensures r.Ok? ==> r.value == dstSize
    ensures Regained(o, r, dst[..]) && ReadX2(cSrc, dstSize, four, g, table, r, dst[..])
  {
    if o.known {
      KnownHeader(o, cSrc, four);
      WrittenParts(o.b.lens, o.b.M);
    }
    hide *;
    var hSize, dt;
    ghost var code;
    hSize, dt, code, g := ReadDTableX2(cSrc, HUF_TABLELOG_MAX, o.b.size, o.b.p, o.known, o.b.lens, o.b.M);
    table := dt;
    if hSize.Err? {
      NotRegained(o, hSize.error, dst[..]);
      HeaderFails2(cSrc, dstSize, four, g, hSize.error, code, dt, dst[..]);
      return Err(hSize.error), g, table;
    }
    HeaderSize(g, hSize, code);
    if o.known { WiderSource(o, cSrc, four, HUF_TABLELOG_MAX); }
    if hSize.value >= |cSrc| {
      NothingKnown(o, Err(SrcSizeWrong), dst[..]);
      HeaderOnly2(cSrc, dstSize, four, g, dt, dst[..]);
      return Err(SrcSizeWrong), g, table;
    }
    TableIs2(code, dt, HUF_TABLELOG_MAX);
    StepsOk2(code, dt, HUF_TABLELOG_MAX);
    ghost var c := cSrc[hSize.value..];
    if four {
      r := Decompress4X2(dst, dstSize, cSrc[hSize.value..], dt, HUF_TABLELOG_MAX, code);
      if o.known { OneOfFour2(c, code, dt, HUF_TABLELOG_MAX, r, dst[..], o.src); }
    } else {
      r := Decompress1X2(dst, cSrc[hSize.value..], dt, HUF_TABLELOG_MAX, code);
      if o.known { OneOf2(c, code, dt, HUF_TABLELOG_MAX, r, dst[..], o.src); }
    }
    IsReadX2(cSrc, dstSize, four, g, code, dt, r, dst[..]);
    IsRegained(o, r, dst[..]);
  }

  lemma {:induction false} HeaderFails2(cSrc: seq<byte>, dstSize: nat, four: bool, g: Seen, e: Error, code: seq<nat>, dt: seq<DEltX2>, out: seq<nat>)
    requires CodeFound(cSrc, 256, g) && TableFor(g, HUF_TABLELOG_MAX, Err(e), code)
    ensures ReadX2(cSrc, dstSize, four, g, dt, Err(e), out)
  {
    hide CodeFound;
  }

  lemma {:induction false} HeaderOnly2(cSrc: seq<byte>, dstSize: nat, four: bool, g: Seen, dt: seq<DEltX2>, out: seq<nat>)
    requires CodeFound(cSrc, 256, g) && g.code.Ok? && g.code.value.1 <= HUF_TABLELOG_MAX && g.size >= |cSrc|
    ensures ReadX2(cSrc, dstSize, four, g, dt, Err(SrcSizeWrong), out)
  {
    hide CodeFound;
  }

  lemma {:induction false} IsReadX2(cSrc: seq<byte>, dstSize: nat, four: bool, g: Seen, lens: seq<nat>, dt: seq<DEltX2>, r: Result<nat>, out: seq<nat>)
    requires CodeFound(cSrc, 256, g) && g.code.Ok? && g.code.value.0 == lens && g.code.value.1 <= HUF_TABLELOG_MAX && g.size < |cSrc|
    requires TableOf2(lens, dt, HUF_TABLELOG_MAX) && StepsOk(Steps2(dt), HUF_TABLELOG_MAX)
    requires if four then FourDecoded(Steps2(dt), HUF_TABLELOG_MAX, cSrc[g.size..], dstSize, r, out)
                          && OnlyFourLoosely(cSrc[g.size..], lens, dt, HUF_TABLELOG_MAX, r, out)
             else OneStream(Steps2(dt), HUF_TABLELOG_MAX, cSrc[g.size..], |out|, r, out) && OnlyLoosely(cSrc[g.size..], lens, dt, HUF_TABLELOG_MAX, r, out)
    ensures ReadX2(cSrc, dstSize, four, g, dt, r, out)
  {
    hide CodeFound, TableOf2, OnlyFourLoosely, OnlyLoosely, FourDecoded, OneStream, StepsOk;
  }

  lemma {:induction false} TableIs2(lens: seq<nat>, dt: seq<DEltX2>, dtLog: nat)
    requires 1 <= dtLog <= HUF_TABLELOG_MAX && FullCode(lens, dtLog) && TableX2(dt, lens, dtLog)
    ensures TableOf2(lens, dt, dtLog)
  {
    hide FullCode, TableX2;
  }

  lemma {:induction false} OneOf2(c: seq<byte>, lens: seq<nat>, dt: seq<DEltX2>, D: nat, r: Result<nat>, out: seq<nat>, src: seq<nat>)
    requires OnlyLoosely(c, lens, dt, D, r, out) && HoldsSource(lens, D, c, src) && |src| == |out|
    ensures r.Ok? && out == src
  {
    hide HoldsSource, LooseEnd;
  }

  lemma {:induction false} OneOfFour2(c: seq<byte>, lens: seq<nat>, dt: seq<DEltX2>, D: nat, r: Result<nat>, out: seq<nat>, src: seq<nat>)
    requires OnlyFourLoosely(c, lens, dt, D, r, out) && FourForm(c, lens, D, src) && |src| == |out|
    ensures r.Ok? && out == src
  {
    hide FourForm, LooseSegment, Laid, FirstError, Tail;
  }

  // ---------- HUF_compress and HUF_decompress ----------

  lemma {:induction false} KnownSize(o: Original, cSrc: seq<byte>)
    requires BlockAt(o, cSrc, true) && o.known
    ensures |cSrc| > 1
  {
    hide BlockOf;
    BlockSize(cSrc, o.src, o.b, true);
  }

  /**
    HUF_decompress. Which of the two decoders runs is a guess about speed, so `algoNb` is arbitrary: both give
    the same result on a block.
   */
  method Decompress(dst: array<nat>, cSrc: seq<byte>, algoNb: bool, ghost o: Original)
    returns (r: Result<nat>, ghost g: Seen, ghost table: seq<DEltX2>)
    requires BlockAt(o, cSrc, true) && (o.known ==> dst.Length == |o.src| && |cSrc| + 2 <= |o.src|)
    modifies dst
    ensures dst.Length == 0 ==> r == Err(DstSizeTooSmall)
    ensures 0 < dst.Length < |cSrc| ==> r == Err(CorruptionDetected)
    ensures 0 < dst.Length == |cSrc| ==> r == Ok(dst.Length) && dst[..] == cSrc
    ensures |cSrc| == 1 < dst.Length ==> r == Ok(dst.Length) && forall i | 0 <= i < dst.Length :: dst[i] == cSrc[0]
    ensures r.Ok? ==> r.value == dst.Length
    ensures Regained(o, r, dst[..])
    ensures |cSrc| != 1 && |cSrc| < dst.Length ==>
              if algoNb then ReadX2(cSrc, dst.Length, true, g, table, r, dst[..]) else ReadX1(cSrc, true, g, r, dst[..])
  {
    hide BlockAt, Regained, ReadX1, ReadX2, BlockOf, Quarter;
    if o.known { KnownSize(o, cSrc); }
    g, table := Seen(FseTable.DTable(0, false, []), [], Ok([]), 0, Err(SrcSizeWrong)), [];
    if dst.Length == 0 {
      NothingKnown(o, Err(DstSizeTooSmall), dst[..]);
      return Err(DstSizeTooSmall), g, table;
    }
    if |cSrc| > dst.Length {
      NothingKnown(o, Err(CorruptionDetected), dst[..]);
      return Err(CorruptionDetected), g, table;
    }
    if |cSrc| == dst.Length {
      forall i | 0 <= i < dst.Length { dst[i] := cSrc[i]; }
      NothingKnown(o, Ok(dst.Length), dst[..]);
      return Ok(dst.Length), g, table;
    }
    if |cSrc| == 1 {
      forall i | 0 <= i < dst.Length { dst[i] := cSrc[0]; }
      NothingKnown(o, Ok(dst.Length), dst[..]);
      return Ok(dst.Length), g, table;
    }
    FourRoomIs(dst.Length);
    if algoNb {
      r, g, table := DecompressX2(dst, dst.Length, cSrc, true, o);
    } else {
      r, g := DecompressX1(dst, dst.Length, cSrc, true, o);
    }
  }

  /**
    Every source that HUF_compress2 compresses, or stores as one repeated byte, comes back unchanged from
    HUF_decompress, whichever decoder it picks; with a table log of 12 asked for, exactly if the code can be
    read back.
   */
  method CompressRoundTrip(src: seq<byte>, dstCapacity: nat, maxSymbolValue: nat, huffLog: nat, algoNb: bool)
    returns (c: Result<nat>, r: Result<nat>, out: seq<nat>, ghost b: Coded)
    ensures c.Ok? && c.value == 1 ==> r == Ok(|src|) && out == src
    ensures c.Ok? && c.value > 1 ==> c.value <= dstCapacity && c.value + 2 <= |src| && Written(b.lens, b.M)
                                     && if Readable(b.lens, b.M) then r == Ok(|src|) && out == src else r == Err(CorruptionDetected)
    ensures c.Ok? && c.value > 1 && huffLog < HUF_TABLELOG_MAX ==> r == Ok(|src|) && out == src
  {
    hide BlockOf, Written, Readable;
    r, out := Err(Generic), [];
    var dst := new byte[dstCapacity + 1];
    c, b := CompressBlock(dst, dstCapacity, src, maxSymbolValue, huffLog, true);
    if c.Err? || c.value == 0 { return; }
    var regenerated := new nat[|src|];
    ghost var g, table;
    r, g, table := Decompress(regenerated, dst[..c.value], algoNb, Original(c.value > 1, src, b));
    out := regenerated[..];
    if c.value > 1 { BlockWritten(dst[..c.value], src, b); }
  }

  lemma {:induction false} BlockWritten(c: seq<byte>, src: seq<byte>, b: Coded)
    requires BlockOf(c, src, b, true)
    ensures Written(b.lens, b.M) && (b.M < HUF_TABLELOG_MAX ==> Readable(b.lens, b.M))
  {
    hide Written, HeaderForm, FourStreams, StoredWeights, SourceCoded;
  }
}
