/**
  The table description of FSE (section 4.1.1 of RFC 8878): the counters as fields whose width shrinks with
  what remains to be distributed, and runs of zeros by repeat codes.
 */
module FseNCount {
  import opened Bits
  import opened BitStream
  import opened Errors
  import opened FseWalk
  import opened FseSpread

  // ---------- bit strings ----------

  /** `a`, then `b`. */
  ghost function Cat(a: BitString, b: BitString): BitString {
    BitString(a.val + Shl(b.val, a.len), a.len + b.len)
  }

  ghost predicate Clean(a: BitString) {
    a.val < Pow2(a.len)
  }

  lemma {:induction false} CatClean(a: BitString, b: BitString)
    requires Clean(a) && Clean(b)
    ensures Clean(Cat(a, b))
  {
    PushFits(a.val, a.len, b.val, b.len);
  }

  lemma {:induction false} CatAssoc(a: BitString, b: BitString, c: BitString)
    ensures Cat(Cat(a, b), c) == Cat(a, Cat(b, c))
  {
    ShlAdd(b.val, Shl(c.val, b.len), a.len);
    ShlShl(c.val, b.len, a.len);
  }

  /** The bits `a` are next in `stream` at position `p`. */
  ghost predicate Ahead(stream: nat, p: nat, a: BitString) {
    Clean(a) && Slice(stream, p, a.len) == a.val
  }

  lemma {:induction false} AheadSplit(stream: nat, p: nat, a: BitString, b: BitString)
    requires Ahead(stream, p, Cat(a, b)) && Clean(a) && Clean(b)
    ensures Ahead(stream, p, a) && Ahead(stream, p + a.len, b)
  {
    hide Low, Shr, Shl, Slice, Pow2;
    var w := Slice(stream, p, a.len + b.len);
    Join(a.val, b.val, a.len);
    SliceSlice(stream, p, a.len + b.len, 0, a.len);
    SliceSlice(stream, p, a.len + b.len, a.len, b.len);
    SliceParts(w, a.len, b.len, a, b);
  }

  lemma {:induction false} SliceParts(w: nat, n: nat, m: nat, a: BitString, b: BitString)
    requires w == a.val + Shl(b.val, n) && n == a.len && m == b.len && Clean(a) && Clean(b)
    ensures Slice(w, 0, n) == a.val && Slice(w, n, m) == b.val
  {
    hide Low, Shl, Pow2;
    Join(a.val, b.val, n);
    LowSmall(b.val, m);
    assert Shr(w, 0) == w;
  }

  // ---------- the fields ----------

  /** Largest power of two up to `remaining`, and its number of bits. */
  function FieldBits(remaining: nat): nat
    requires remaining > 0
  {
    HighBit(remaining) + 1
  }

  /** The field for a counter, while `remaining` is still to be distributed (plus one). */
  function CountField(x: int, remaining: nat): BitString
    requires remaining > 0 && x >= -1
  {
    var threshold := Pow2(HighBit(remaining));
    var max := threshold + threshold - 1 - remaining;
    var count := x + 1;
    var field := if count >= threshold then count + max else count;
    BitString(field, if field < max then HighBit(remaining) else HighBit(remaining) + 1)
  }

  /** The counter as the reader finds it from the next bits. */
  function ReadCount(bits: nat, remaining: nat): (int, nat)
    requires remaining > 0
  {
    var h := HighBit(remaining);
    var threshold := Pow2(h);
    var max := threshold + threshold - 1 - remaining;
    if Low(bits, h) < max then (Low(bits, h) - 1, h)
    else
      var count := Low(bits, h + 1);
      (if count >= threshold then count - max - 1 else count - 1, h + 1)
  }

  lemma {:induction false} CountFieldClean(x: int, remaining: nat)
    requires remaining > 1 && -1 <= x < remaining
    ensures Clean(CountField(x, remaining)) && CountField(x, remaining).len <= HighBit(remaining) + 1
  {
    assert Pow2(HighBit(remaining) + 1) == Pow2(HighBit(remaining)) + Pow2(HighBit(remaining));
  }

  lemma {:induction false} LowTop(x: nat, n: nat)
    ensures Low(x, n + 1) == Low(x, n) || Low(x, n + 1) == Low(x, n) + Pow2(n)
  {
    LowLow(x, n, n + 1);
    Split(Low(x, n + 1), n);
    Split(x, n + 1);
    ShrBound(Low(x, n + 1), n, 1);
    ShlOne(n);
    ShlZero(n);
    assert Pow2(1) == 2;
  }

  /** Reading back a field gives the counter and the width. */
  lemma {:induction false} CountRead(x: int, remaining: nat, bits: nat)
    requires remaining > 1 && -1 <= x < remaining
    requires var f := CountField(x, remaining); Low(bits, f.len) == f.val
    ensures ReadCount(bits, remaining) == (x, CountField(x, remaining).len)
  {
    var h := HighBit(remaining);
    LowTop(bits, h);
    Split(bits, h);
  }

  /** Whatever the bits, the counter read leaves at least 1. */
  lemma {:induction false} CountInRange(bits: nat, remaining: nat)
    requires remaining > 1
    ensures var (x, w) := ReadCount(bits, remaining);
            -1 <= x < remaining && remaining - Freq(x) >= 1 && w <= HighBit(remaining) + 1
  {
    var h := HighBit(remaining);
    Split(bits, h);
    Split(bits, h + 1);
    assert Pow2(h + 1) == Pow2(h) + Pow2(h);
  }

  // ---------- the whole description ----------

  /** The repeat codes for `n` more zeros. */
  ghost function ZeroRun(n: nat): BitString {
    if n >= 24 then Cat(BitString(0xFFFF, 16), ZeroRun(n - 24))
    else if n >= 3 then Cat(BitString(3, 2), ZeroRun(n - 3))
    else BitString(n, 2)
  }

  /** First symbol from `i` on that has a counter. */
  function FirstUsed(norm: seq<int>, i: nat): (j: nat)
    requires i <= |norm|
    ensures i <= j <= |norm| && (forall k | i <= k < j :: norm[k] == 0) && (j < |norm| ==> norm[j] != 0)
    decreases |norm| - i
  {
    if i == |norm| || norm[i] != 0 then i else FirstUsed(norm, i + 1)
  }

  /** What is still to be distributed before symbol `i`, plus one. */
  function Remaining(norm: seq<int>, L: nat, i: nat): (r: nat)
    requires i <= |norm|
    ensures r >= 1
  {
    if FreqSum(norm, i) <= Pow2(L) then Pow2(L) + 1 - FreqSum(norm, i) else 1
  }

  ghost predicate Counters(norm: seq<int>) {
    forall k | 0 <= k < |norm| :: norm[k] >= -1
  }

  /** The fields for the symbols from `i` on; `prev0` when the symbol before had no counter. */
  ghost function FieldsFrom(norm: seq<int>, L: nat, i: nat, prev0: bool): BitString
    requires i <= |norm| && Counters(norm)
    decreases |norm| - i
  {
    var j := if prev0 then FirstUsed(norm, i) else i;
    if Remaining(norm, L, i) <= 1 || j == |norm| then BitString(0, 0)
    else
      var rest := Cat(CountField(norm[j], Remaining(norm, L, i)), FieldsFrom(norm, L, j + 1, norm[j] == 0));
      if prev0 then Cat(ZeroRun(j - i), rest) else rest
  }

  /** The whole description: 4 bits for the table log, then the fields. */
  ghost function NCountBits(norm: seq<int>, L: nat): BitString
    requires L >= MIN_TABLELOG && Counters(norm)
  {
    Cat(BitString(L - MIN_TABLELOG, 4), FieldsFrom(norm, L, 0, false))
  }

  /** Bytes for `n` bits. */
  function BytesFor(n: nat): nat {
    Shr(n + 7, 3)
  }

  /**
    How far the writer of `n` bits stores: two bytes at a time, as soon as it has more than 16 bits, and two
    bytes in the end.
   */
  function Reach(n: nat): nat {
    var pairs := if n == 0 then 0 else Shr(n - 1, 4);
    pairs + pairs + 2
  }

  lemma {:induction false} ReachOf(out: nat, p: nat, n: nat)
    requires Odd(out) == 0 && 1 <= p && Times8(out) + p <= n
    ensures out + 2 <= Reach(n)
    ensures Times8(out) + p == n && p <= 16 ==> out + 2 == Reach(n)
  {
    hide Shr, Half, Odd;
    EvenHalves(out);
    BytePairs(n - 1);
  }

  lemma {:induction false} EvenHalves(x: nat)
    requires Odd(x) == 0
    ensures x == Half(x) + Half(x)
  {
  }

  lemma {:induction false} BytePairs(n: nat)
    ensures Times8(Shr(n, 4)) + Times8(Shr(n, 4)) <= n < Times8(Shr(n, 4)) + Times8(Shr(n, 4)) + 16
  {
    hide Low, Pow2, Shr;
    BytesAndBits(n);
    ShrShr(n, 3, 1);
    HalfIs(Shr(n, 3));
  }

  lemma {:induction false} HalfIs(x: nat)
    ensures Shr(x, 1) == Half(x)
  {
  }

  /** FSE_NCountWriteBound: from here on the writer does not check where it stores. */
  function NCountWriteBound(maxSymbolValue: nat, tableLog: nat): nat {
    if maxSymbolValue == 0 then FSE_NCOUNTBOUND else Shr(Times(tableLog, maxSymbolValue + 1), 3) + 3
  }

  const FSE_NCOUNTBOUND := 512

  /** `c` is the stored description. */
  ghost predicate NCountForm(c: seq<byte>, norm: seq<int>, L: nat)
    requires L >= MIN_TABLELOG && Counters(norm)
  {
    LE(c) == NCountBits(norm, L).val && |c| == BytesFor(NCountBits(norm, L).len)
  }

  lemma {:induction false} PieceClean(f: BitString)
    requires (f.len == 2 && f.val <= 3) || f == BitString(0xFFFF, 16)
    ensures Clean(f)
  {
    SmallPowers();
    Pow2IsShl(8, 8);
    ShlByte(256);
    assert Pow2(2) == 4;
  }

  lemma {:induction false} ZeroRunClean(n: nat)
    ensures Clean(ZeroRun(n)) && ZeroRun(n).len >= 2
    ensures n < 24 ==> ZeroRun(n).len <= 16
  {
    hide Clean, Shl;
    if n >= 24 {
      PieceClean(BitString(0xFFFF, 16));
      ZeroRunClean(n - 24);
      CatClean(BitString(0xFFFF, 16), ZeroRun(n - 24));
    } else if n >= 3 {
      PieceClean(BitString(3, 2));
      ZeroRunShort(n, 8);
      ZeroRunClean(n - 3);
      CatClean(BitString(3, 2), ZeroRun(n - 3));
    } else {
      PieceClean(BitString(n, 2));
    }
  }

  lemma {:induction false} ZeroRunShort(n: nat, k: nat)
    requires n < k + k + k <= 24
    ensures ZeroRun(n).len <= k + k
  {
    if n >= 3 { ZeroRunShort(n - 3, k - 1); }
  }

  lemma {:induction false} RemainingStep(norm: seq<int>, L: nat, i: nat, j: nat)
    requires NormOk(norm, L) && i <= j < |norm| && forall k | i <= k < j :: norm[k] == 0
    ensures Remaining(norm, L, j) == Remaining(norm, L, i) == Pow2(L) + 1 - FreqSum(norm, i)
    ensures Remaining(norm, L, j + 1) == Remaining(norm, L, i) - Freq(norm[j])
    ensures Remaining(norm, L, i) > 1 ==> norm[j] < Remaining(norm, L, i)
  {
    SumMono(norm, j + 1, |norm|);
    SumMono(norm, i, |norm|);
    ZerosSum(norm, i, j);
  }

  lemma {:induction false} ZerosSum(norm: seq<int>, i: nat, j: nat)
    requires i <= j <= |norm| && forall k | i <= k < j :: norm[k] == 0
    ensures FreqSum(norm, j) == FreqSum(norm, i)
    decreases j
  {
    if i < j { ZerosSum(norm, i, j - 1); }
  }

  lemma {:induction false} RemainingEnds(norm: seq<int>, L: nat)
    requires NormOk(norm, L)
    ensures Remaining(norm, L, 0) == Pow2(L) + 1 && Remaining(norm, L, |norm|) == 1
  {
  }

  lemma {:induction false} FieldsClean(norm: seq<int>, L: nat, i: nat, prev0: bool)
    requires NormOk(norm, L) && i <= |norm|
    ensures Counters(norm) && Clean(FieldsFrom(norm, L, i, prev0))
    decreases |norm| - i
  {
    hide Pow2, FreqSum, Clean, Cat, ZeroRun, CountField, HighBit;
    NoBitsClean();
    var j := if prev0 then FirstUsed(norm, i) else i;
    if Remaining(norm, L, i) > 1 && j < |norm| {
      RemainingStep(norm, L, i, j);
      CountFieldClean(norm[j], Remaining(norm, L, i));
      FieldsClean(norm, L, j + 1, norm[j] == 0);
      var rest := FieldsFrom(norm, L, j + 1, norm[j] == 0);
      CatClean(CountField(norm[j], Remaining(norm, L, i)), rest);
      ZeroRunClean(j - i);
      CatClean(ZeroRun(j - i), Cat(CountField(norm[j], Remaining(norm, L, i)), rest));
    }
  }

  lemma {:induction false} NoBitsClean()
    ensures Clean(BitString(0, 0))
  {
    assert Pow2(0) == 1;
  }

  // ---------- FSE_writeNCount ----------

  /** The bits `w` are in memory and in the register. */
  ghost predicate Writing(mem: seq<byte>, c: nat, p: nat, w: BitString) {
    Holds(mem, c, p, w.val, w.len)
  }

  lemma {:induction false} WriteField(mem: seq<byte>, c: nat, p: nat, w: BitString, f: BitString)
    requires Writing(mem, c, p, w) && Clean(f)
    ensures Writing(mem, c + Shl(f.val, p), p + f.len, Cat(w, f))
  {
    HoldsAdd(mem, c, p, w.val, w.len, f.val, f.len);
  }

  lemma {:induction false} WriteFlush(mem: seq<byte>, c: nat, p: nat, w: BitString)
    requires Writing(mem, c, p, w) && p >= 16
    ensures Writing(mem + ToLE(c, 2), Shr(c, 16), p - 16, w)
  {
    HoldsFlush(mem, c, p, w.val, w.len, 2);
  }

  /** The last bytes: `p` bits, rounded up. */
  lemma {:induction false} WriteLast(mem: seq<byte>, c: nat, p: nat, w: BitString)
    requires Writing(mem, c, p, w) && p <= 16
    ensures BytesFor(p) <= 2 && LE(mem + ToLE(c, 2)[..BytesFor(p)]) == w.val
    ensures |mem| + BytesFor(p) == BytesFor(w.len)
  {
    hide Shr, Low, Shl, LE, ToLE, Pow2, BytesFor;
    var k := BytesFor(p);
    BytesForBounds(p);
    BytesForBounds(w.len);
    ToLEPrefix(c, 2, k);
    LEConcat(mem, ToLE(c, k));
    LEToLE(c, k);
    Pow2Mono(p, Times8(k));
    LowSmall(c, Times8(k));
  }

  lemma {:induction false} BytesForBounds(n: nat)
    ensures n <= Times8(BytesFor(n)) <= n + 7
  {
    BytesAndBits(n + 7);
  }

  /** out[0..2) = the low 16 bits of the register. */
  method PutTwo(header: array<byte>, ghost start: nat, out: nat, bitStream: nat)
    requires start <= out && out + 2 <= header.Length
    modifies header
    ensures header[start..out + 2] == old(header[start..out]) + ToLE(bitStream, 2)
    ensures forall k | 0 <= k < header.Length && !(out <= k < out + 2) :: header[k] == old(header[k])
  {
    var two := ToLE(bitStream, 2);
    header[out], header[out + 1] := two[0], two[1];
    assert header[start..out + 2] == header[start..out] + header[out..out + 2];
  }

  /** The state of the writer: what is written, and what is to come. */
  ghost predicate Partway(mem: seq<byte>, c: nat, p: nat, w: BitString, rest: BitString, whole: BitString) {
    Writing(mem, c, p, w) && Clean(rest) && Cat(w, rest) == whole && p >= 1 && Odd(|mem|) == 0
  }

  /** The stores end at `end` at the latest: they are checked against `oend`, or the memory goes on that far. */
  ghost predicate Within(writeIsSafe: bool, start: nat, oend: nat, end: nat, n: nat) {
    if writeIsSafe then start + Reach(n) == end else oend == end
  }

  /** The next two bytes: stored within the limit, or refused since the description does not fit. */
  lemma {:induction false} RoomForTwo(mem: seq<byte>, c: nat, p: nat, w: BitString, rest: BitString, whole: BitString)
    requires Partway(mem, c, p, w, rest, whole)
    ensures |mem| + 2 <= Reach(whole.len)
  {
    hide Clean, Odd, Times8, Reach;
    ReachOf(|mem|, p, whole.len);
  }

  lemma {:induction false} PartwayField(mem: seq<byte>, c: nat, p: nat, w: BitString, f: BitString, rest: BitString, whole: BitString)
    requires Partway(mem, c, p, w, Cat(f, rest), whole) && Clean(f) && Clean(rest)
    ensures Partway(mem, c + Shl(f.val, p), p + f.len, Cat(w, f), rest, whole)
  {
    WriteField(mem, c, p, w, f);
    CatAssoc(w, f, rest);
  }

  /** The repeat codes of a run of zeros. */
  method WriteRun(header: array<byte>, start: nat, oend: nat, writeIsSafe: bool, ghost end: nat, out0: nat, bitStream0: nat,
                  bitCount0: nat, run0: nat,
                  ghost w0: BitString, ghost rest: BitString, ghost whole: BitString)
    returns (ok: bool, out: nat, bitStream: nat, bitCount: nat, ghost w: BitString)
    requires start <= out0 <= end <= header.Length && bitCount0 <= 16
    requires Partway(header[start..out0], bitStream0, bitCount0, w0, Cat(ZeroRun(run0), rest), whole) && Clean(rest)
    requires Within(writeIsSafe, start, oend, end, whole.len)
    modifies header
    ensures start <= out <= end
    ensures ok ==> bitCount <= 16 && Partway(header[start..out], bitStream, bitCount, w, rest, whole)
    ensures !ok ==> !writeIsSafe && start + Reach(whole.len) > oend
    ensures forall k | 0 <= k < header.Length && !(start <= k < end) :: header[k] == old(header[k])
  {
    hide Partway, Cat, Shl, Shr, ToLE;
    out, bitStream, bitCount, w := out0, bitStream0, bitCount0, w0;
    var run: nat := run0;
    while run >= 24
      invariant start <= out <= end && bitCount == bitCount0
      invariant Partway(header[start..out], bitStream, bitCount, w, Cat(ZeroRun(run), rest), whole)
      invariant forall k | 0 <= k < header.Length && !(start <= k < end) :: header[k] == old(header[k])
    {
      LongRun(header[start..out], bitStream, bitCount, w, run, rest, whole);
      run := run - 24;
      bitStream := bitStream + Shl(0xFFFF, bitCount);
      w := Cat(w, BitString(0xFFFF, 16));
      RoomForTwo(header[start..out], bitStream, bitCount + 16, w, Cat(ZeroRun(run), rest), whole);
      if !writeIsSafe && out + 2 > oend { return false, out, bitStream, bitCount, w; }
      PartwayFlush(header[start..out], bitStream, bitCount + 16, w, Cat(ZeroRun(run), rest), whole);
      PutTwo(header, start, out, bitStream);
      out := out + 2;
      bitStream := Shr(bitStream, 16);
    }
    ghost var room: nat := 8;
    while run >= 3
      invariant start <= out <= end && bitCount + room + room <= 32 && run < room + room + room
      invariant Partway(header[start..out], bitStream, bitCount, w, Cat(ZeroRun(run), rest), whole)
      invariant forall k | 0 <= k < header.Length && !(start <= k < end) :: header[k] == old(header[k])
    {
      ShortRun(header[start..out], bitStream, bitCount, w, run, rest, whole);
      run := run - 3;
      bitStream := bitStream + Shl(3, bitCount);
      bitCount := bitCount + 2;
      w := Cat(w, BitString(3, 2));
      room := room - 1;
    }
    LastRun(header[start..out], bitStream, bitCount, w, run, rest, whole);
    bitStream := bitStream + Shl(run, bitCount);
    bitCount := bitCount + 2;
    w := Cat(w, BitString(run, 2));
    ok, out, bitStream, bitCount := FlushOver(header, start, oend, writeIsSafe, end, out, bitStream, bitCount, w, rest, whole);
  }

  lemma {:induction false} PartwayFlush(mem: seq<byte>, c: nat, p: nat, w: BitString, rest: BitString, whole: BitString)
    requires Partway(mem, c, p, w, rest, whole) && p > 16
    ensures Partway(mem + ToLE(c, 2), Shr(c, 16), p - 16, w, rest, whole)
  {
    WriteFlush(mem, c, p, w);
    HalfUnique(|mem| + 2, Half(|mem|) + 1);
  }

  /** if (bitCount > 16): 16 bits go to memory. */
  method FlushOver(header: array<byte>, start: nat, oend: nat, writeIsSafe: bool, ghost end: nat, out0: nat, bitStream0: nat, bitCount0: nat,
                   ghost w: BitString, ghost rest: BitString, ghost whole: BitString)
    returns (ok: bool, out: nat, bitStream: nat, bitCount: nat)
    requires start <= out0 <= end <= header.Length && bitCount0 <= 32
    requires Partway(header[start..out0], bitStream0, bitCount0, w, rest, whole)
    requires Within(writeIsSafe, start, oend, end, whole.len)
    modifies header
    ensures start <= out <= end
    ensures ok ==> bitCount <= 16 && Partway(header[start..out], bitStream, bitCount, w, rest, whole)
    ensures !ok ==> !writeIsSafe && start + Reach(whole.len) > oend
    ensures forall k | 0 <= k < header.Length && !(start <= k < end) :: header[k] == old(header[k])
  {
    hide Partway, Shr, ToLE;
    out, bitStream, bitCount := out0, bitStream0, bitCount0;
    RoomForTwo(header[start..out], bitStream, bitCount, w, rest, whole);
    if bitCount > 16 {
      if !writeIsSafe && out + 2 > oend { return false, out, bitStream, bitCount; }
      PartwayFlush(header[start..out], bitStream, bitCount, w, rest, whole);
      PutTwo(header, start, out, bitStream);
      out := out + 2;
      bitStream := Shr(bitStream, 16);
      bitCount := bitCount - 16;
    }
    ok := true;
  }

  lemma {:induction false} LongRun(mem: seq<byte>, c: nat, p: nat, w: BitString, run: nat, rest: BitString, whole: BitString)
    requires Partway(mem, c, p, w, Cat(ZeroRun(run), rest), whole) && Clean(rest) && run >= 24
    ensures p >= 1 && Partway(mem, c + Shl(0xFFFF, p), p + 16, Cat(w, BitString(0xFFFF, 16)), Cat(ZeroRun(run - 24), rest), whole)
  {
    RunPiece(mem, c, p, w, BitString(0xFFFF, 16), run, run - 24, rest, whole);
  }

  lemma {:induction false} ShortRun(mem: seq<byte>, c: nat, p: nat, w: BitString, run: nat, rest: BitString, whole: BitString)
    requires Partway(mem, c, p, w, Cat(ZeroRun(run), rest), whole) && Clean(rest) && 3 <= run < 24
    ensures Partway(mem, c + Shl(3, p), p + 2, Cat(w, BitString(3, 2)), Cat(ZeroRun(run - 3), rest), whole)
  {
    RunPiece(mem, c, p, w, BitString(3, 2), run, run - 3, rest, whole);
  }

  lemma {:induction false} RunPiece(mem: seq<byte>, c: nat, p: nat, w: BitString, f: BitString, run: nat, run': nat,
                                    rest: BitString, whole: BitString)
    requires Partway(mem, c, p, w, Cat(ZeroRun(run), rest), whole) && Clean(rest)
    requires ZeroRun(run) == Cat(f, ZeroRun(run')) && (f == BitString(3, 2) || f == BitString(0xFFFF, 16))
    ensures Partway(mem, c + Shl(f.val, p), p + f.len, Cat(w, f), Cat(ZeroRun(run'), rest), whole)
  {
    hide ZeroRun, Shl, Holds;
    ZeroRunClean(run');
    CatClean(ZeroRun(run'), rest);
    CatAssoc(f, ZeroRun(run'), rest);
    PieceClean(f);
    PartwayField(mem, c, p, w, f, Cat(ZeroRun(run'), rest), whole);
  }

  lemma {:induction false} LastRun(mem: seq<byte>, c: nat, p: nat, w: BitString, run: nat, rest: BitString, whole: BitString)
    requires Partway(mem, c, p, w, Cat(ZeroRun(run), rest), whole) && Clean(rest) && run < 3
    ensures Partway(mem, c + Shl(run, p), p + 2, Cat(w, BitString(run, 2)), rest, whole)
  {
    ZeroRunClean(run);
    PartwayField(mem, c, p, w, BitString(run, 2), rest, whole);
  }

  /** The writer before symbol `i`. */
  ghost predicate BeforeSymbol(mem: seq<byte>, c: nat, p: nat, w: BitString, norm: seq<int>, L: nat, i: nat, prev0: bool)
    requires L >= MIN_TABLELOG && Counters(norm) && i <= |norm|
  {
    Partway(mem, c, p, w, FieldsFrom(norm, L, i, prev0), NCountBits(norm, L))
  }

  /** What comes next, before symbol `i`: a run if symbol `i`-1 had no counter, then the field of `j`. */
  lemma {:induction false} NextFields(norm: seq<int>, L: nat, i: nat, prev0: bool)
    requires NormOk(norm, L) && i < |norm| && Remaining(norm, L, i) > 1
    ensures Counters(norm)
    ensures var j := if prev0 then FirstUsed(norm, i) else i;
            j < |norm| && Remaining(norm, L, j) == Remaining(norm, L, i) && norm[j] < Remaining(norm, L, i)
            && Remaining(norm, L, j + 1) == Remaining(norm, L, i) - Freq(norm[j])
            && (var f, rest := CountField(norm[j], Remaining(norm, L, i)), FieldsFrom(norm, L, j + 1, norm[j] == 0);
                Clean(f) && Clean(rest) && Clean(Cat(f, rest))
                && FieldsFrom(norm, L, i, prev0) == if prev0 then Cat(ZeroRun(j - i), Cat(f, rest)) else Cat(f, rest))
  {
    hide Pow2, FreqSum, CountField, Cat, ZeroRun, Clean, HighBit;
    var j := if prev0 then FirstUsed(norm, i) else i;
    SomeLeft(norm, L, i);
    RemainingStep(norm, L, i, j);
    CountFieldClean(norm[j], Remaining(norm, L, i));
    FieldsClean(norm, L, j + 1, norm[j] == 0);
    CatClean(CountField(norm[j], Remaining(norm, L, i)), FieldsFrom(norm, L, j + 1, norm[j] == 0));
  }

  lemma {:induction false} SomeLeft(norm: seq<int>, L: nat, i: nat)
    requires NormOk(norm, L) && i <= |norm| && Remaining(norm, L, i) > 1
    ensures FirstUsed(norm, i) < |norm|
  {
    hide Pow2;
    ZerosSum(norm, i, FirstUsed(norm, i));
    RemainingEnds(norm, L);
  }

  /** Halving the threshold until it is below what remains. */
  method Shrink(remaining: nat, threshold0: nat, nbBits0: nat) returns (threshold: nat, nbBits: nat)
    requires remaining >= 1 && nbBits0 >= 1 && threshold0 == Pow2(nbBits0 - 1) && remaining < threshold0 + threshold0
    ensures threshold == Pow2(HighBit(remaining)) && nbBits == FieldBits(remaining) <= nbBits0
  {
    threshold, nbBits := threshold0, nbBits0;
    while remaining < threshold
      invariant 1 <= nbBits <= nbBits0 && threshold == Pow2(nbBits - 1) && remaining < threshold + threshold
      decreases nbBits
    {
      HalfUnique(threshold, Pow2(nbBits - 2));
      nbBits := nbBits - 1;
      threshold := Half(threshold);
    }
    HighBitUnique(remaining, nbBits - 1);
  }

  /** One counter. */
  method WriteCount(header: array<byte>, start: nat, oend: nat, writeIsSafe: bool, ghost end: nat, out0: nat, bitStream0: nat, bitCount0: nat,
                    x: int, remaining: nat, threshold: nat, nbBits: nat,
                    ghost w0: BitString, ghost rest: BitString, ghost whole: BitString)
    returns (ok: bool, out: nat, bitStream: nat, bitCount: nat, ghost w: BitString, previousIs0: bool)
    requires start <= out0 <= end <= header.Length && bitCount0 <= 16 && -1 <= x < remaining && remaining > 1
    requires threshold == Pow2(HighBit(remaining)) && nbBits == FieldBits(remaining) <= 16
    requires Partway(header[start..out0], bitStream0, bitCount0, w0, Cat(CountField(x, remaining), rest), whole) && Clean(rest)
    requires Within(writeIsSafe, start, oend, end, whole.len)
    modifies header
    ensures start <= out <= end && (previousIs0 <==> x == 0)
    ensures ok ==> bitCount <= 16 && Partway(header[start..out], bitStream, bitCount, w, rest, whole)
    ensures !ok ==> !writeIsSafe && start + Reach(whole.len) > oend
    ensures forall k | 0 <= k < header.Length && !(start <= k < end) :: header[k] == old(header[k])
  {
    hide Partway, Shl, CountField, Cat, Clean, Pow2, HighBit;
    CountFieldParts(x, remaining, threshold, nbBits);
    var max := threshold + threshold - 1 - remaining;
    var count := x + 1;
    if count >= threshold { count := count + max; }
    ghost var f := CountField(x, remaining);
    previousIs0 := count == 1;
    PartwayField(header[start..out0], bitStream0, bitCount0, w0, f, rest, whole);
    bitStream := bitStream0 + Shl(count, bitCount0);
    bitCount := bitCount0 + nbBits - (if count < max then 1 else 0);
    w := Cat(w0, f);
    ok, out, bitStream, bitCount := FlushOver(header, start, oend, writeIsSafe, end, out0, bitStream, bitCount, w, rest, whole);
  }

  lemma {:induction false} CountFieldParts(x: int, remaining: nat, threshold: nat, nbBits: nat)
    requires remaining > 1 && -1 <= x < remaining && threshold == Pow2(HighBit(remaining)) && nbBits == FieldBits(remaining)
    ensures 2 <= threshold <= remaining < threshold + threshold && Clean(CountField(x, remaining))
    ensures var max := threshold + threshold - 1 - remaining;
            var field := if x + 1 >= threshold then x + 1 + max else x + 1;
            CountField(x, remaining) == BitString(field, if field < max then nbBits - 1 else nbBits)
  {
    CountFieldClean(x, remaining);
    if HighBit(remaining) > 0 { Pow2Strict(0, HighBit(remaining)); }
  }

  /** What is to come before symbol `i`, split at the field of the next symbol with one. */
  lemma {:induction false} OpenSymbol(mem: seq<byte>, c: nat, p: nat, w: BitString, norm: seq<int>, L: nat, i: nat, prev0: bool)
    requires L >= MIN_TABLELOG && NormOk(norm, L) && Counters(norm) && i < |norm| && Remaining(norm, L, i) > 1
    requires BeforeSymbol(mem, c, p, w, norm, L, i, prev0)
    ensures var j := if prev0 then FirstUsed(norm, i) else i;
            j < |norm| && -1 <= norm[j] < Remaining(norm, L, i)
            && Remaining(norm, L, j + 1) == Remaining(norm, L, i) - Freq(norm[j])
            && (var f, rest := CountField(norm[j], Remaining(norm, L, i)), FieldsFrom(norm, L, j + 1, norm[j] == 0);
                Clean(rest) && Clean(Cat(f, rest))
                && Partway(mem, c, p, w, if prev0 then Cat(ZeroRun(j - i), Cat(f, rest)) else Cat(f, rest), NCountBits(norm, L)))
  {
    hide NormOk, NCountBits, FieldsFrom, CountField, Cat, Clean, ZeroRun, Remaining, Partway;
    NextFields(norm, L, i, prev0);
  }

  /** One symbol, after the run of zeros before it if there is one. */
  method WriteSymbol(header: array<byte>, start: nat, oend: nat, writeIsSafe: bool, ghost end: nat, out0: nat, bitStream0: nat, bitCount0: nat,
                     norm: seq<int>, ghost L: nat, symbol0: nat, previousIs0: bool, remaining0: nat, threshold: nat, nbBits: nat,
                     ghost w0: BitString)
    returns (ok: bool, out: nat, bitStream: nat, bitCount: nat, ghost w: BitString, symbol: nat, is0: bool, remaining: nat)
    requires start <= out0 <= end <= header.Length && bitCount0 <= 16 && symbol0 < |norm| && remaining0 > 1
    requires L >= MIN_TABLELOG && NormOk(norm, L) && Counters(norm)
    requires BeforeSymbol(header[start..out0], bitStream0, bitCount0, w0, norm, L, symbol0, previousIs0)
    requires remaining0 == Remaining(norm, L, symbol0)
    requires threshold == Pow2(HighBit(remaining0)) && nbBits == FieldBits(remaining0) <= 16
    requires Within(writeIsSafe, start, oend, end, NCountBits(norm, L).len)
    modifies header
    ensures start <= out <= end && symbol0 < symbol <= |norm| && remaining <= remaining0
    ensures ok ==> bitCount <= 16 && BeforeSymbol(header[start..out], bitStream, bitCount, w, norm, L, symbol, is0)
    ensures !ok ==> !writeIsSafe && start + Reach(NCountBits(norm, L).len) > oend
    ensures remaining == Remaining(norm, L, symbol)
    ensures forall k | 0 <= k < header.Length && !(start <= k < end) :: header[k] == old(header[k])
  {
    hide NormOk, Counters, BeforeSymbol, Partway, NCountBits, FieldsFrom, CountField, Cat, Clean, ZeroRun, Remaining, HighBit, Pow2;
    out, bitStream, bitCount, w := out0, bitStream0, bitCount0, w0;
    OpenSymbol(header[start..out], bitStream, bitCount, w, norm, L, symbol0, previousIs0);
    ok, symbol := true, symbol0;
    ghost var j := if previousIs0 then FirstUsed(norm, symbol0) else symbol0;
    ghost var whole, rest := NCountBits(norm, L), FieldsFrom(norm, L, j + 1, norm[j] == 0);
    ghost var f := CountField(norm[j], remaining0);
    if previousIs0 {
      symbol := SkipZeros(norm, symbol0);
      ok, out, bitStream, bitCount, w := WriteRun(header, start, oend, writeIsSafe, end, out, bitStream, bitCount,
          symbol - symbol0, w, Cat(f, rest), whole);
    }
    var count := norm[symbol];
    symbol := symbol + 1;
    remaining := remaining0 - Freq(count);
    is0 := count == 0;
    if ok {
      ok, out, bitStream, bitCount, w, is0 :=
        WriteCount(header, start, oend, writeIsSafe, end, out, bitStream, bitCount, count, remaining0, threshold, nbBits, w, rest, whole);
      if ok { CloseSymbol(header[start..out], bitStream, bitCount, w, norm, L, symbol, is0); }
    }
  }

  lemma {:induction false} CloseSymbol(mem: seq<byte>, c: nat, p: nat, w: BitString, norm: seq<int>, L: nat, i: nat, prev0: bool)
    requires L >= MIN_TABLELOG && Counters(norm) && i <= |norm|
    requires Partway(mem, c, p, w, FieldsFrom(norm, L, i, prev0), NCountBits(norm, L))
    ensures BeforeSymbol(mem, c, p, w, norm, L, i, prev0)
  {
  }

  method SkipZeros(norm: seq<int>, i: nat) returns (symbol: nat)
    requires i <= |norm|
    ensures symbol == FirstUsed(norm, i)
  {
    symbol := i;
    while symbol < |norm| && norm[symbol] == 0
      invariant i <= symbol <= |norm| && FirstUsed(norm, symbol) == FirstUsed(norm, i)
    {
      symbol := symbol + 1;
    }
  }

  lemma {:induction false} NothingMore(norm: seq<int>, L: nat, i: nat, prev0: bool)
    requires NormOk(norm, L) && i <= |norm| && (i == |norm| || Remaining(norm, L, i) <= 1)
    ensures Counters(norm) && Remaining(norm, L, i) == 1 && FieldsFrom(norm, L, i, prev0) == BitString(0, 0)
  {
    RemainingEnds(norm, L);
  }

  lemma {:induction false} CatNone(a: BitString)
    ensures Cat(a, BitString(0, 0)) == a
  {
    ShlZero(a.len);
  }

  lemma {:induction false} LastBits(mem: seq<byte>, c: nat, p: nat, w: BitString, norm: seq<int>, L: nat, i: nat, prev0: bool,
                                    start: nat, oend: nat, writeIsSafe: bool, end: nat)
    requires i <= |norm| && NormOk(norm, L) && Counters(norm) && (i == |norm| || Remaining(norm, L, i) <= 1)
    requires BeforeSymbol(mem, c, p, w, norm, L, i, prev0)
    requires Within(writeIsSafe, start, oend, end, NCountBits(norm, L).len)
    ensures L >= MIN_TABLELOG && Writing(mem, c, p, w) && w == NCountBits(norm, L) && p >= 1 && Odd(|mem|) == 0
    ensures end == if writeIsSafe then start + Reach(w.len) else oend
  {
    hide NCountBits, FieldsFrom, Writing, Cat, Reach, Odd, FreqSum, Counters, Remaining, Pow2;
    NothingMore(norm, L, i, prev0);
    CatNone(w);
  }

  /** At the end of the bits, the two bytes of the register are the last ones. */
  lemma {:induction false} LastTwo(mem: seq<byte>, c: nat, p: nat, w: BitString)
    requires Writing(mem, c, p, w) && 1 <= p <= 16 && Odd(|mem|) == 0
    ensures |mem| + 2 == Reach(w.len)
    ensures BytesFor(p) == 1 ==> ToLE(c, 2)[1] == 0
    ensures 1 <= BytesFor(p) <= 2
  {
    hide Shl, LE, Odd, Reach, ToLE, BytesFor, Pow2, Shr;
    ReachOf(|mem|, p, w.len);
    BytesForBounds(p);
    if BytesFor(p) == 1 {
      Pow2Mono(p, 8);
      SecondByte(c);
    }
  }

  lemma {:induction false} SecondByte(c: nat)
    requires c < Pow2(8)
    ensures ToLE(c, 2)[1] == 0
  {
    hide ToLE, Shr;
    ToLEAt(c, 2, 1);
    ShrBound(c, 8, 0);
  }

  /** The description is stored at `start`, in `size` bytes; one more byte may have been cleared. */
  ghost predicate Stored(a: seq<byte>, start: nat, size: nat, norm: seq<int>, L: nat)
    requires L >= MIN_TABLELOG && Counters(norm)
  {
    var reach := Reach(NCountBits(norm, L).len);
    && 1 <= size <= reach <= size + 1 && start + reach <= |a|
    && NCountForm(a[start..start + size], norm, L) && (size < reach ==> a[start + size] == 0)
  }

  lemma {:induction false} IsStored(a: seq<byte>, start: nat, size: nat, norm: seq<int>, L: nat, bytes: seq<byte>)
    requires L >= MIN_TABLELOG && Counters(norm) && |bytes| == Reach(NCountBits(norm, L).len)
    requires 1 <= size <= |bytes| <= size + 1 && start + |bytes| <= |a| && a[start..start + |bytes|] == bytes
    requires LE(a[start..start + size]) == NCountBits(norm, L).val && size == BytesFor(NCountBits(norm, L).len)
    requires size < |bytes| ==> bytes[size] == 0
    ensures Stored(a, start, size, norm, L)
  {
    hide NCountBits, LE, BytesFor, Reach;
    assert forall k | 0 <= k < |bytes| :: a[start + k] == bytes[k];
  }

  /** The last bytes. */
  method WriteEnd(header: array<byte>, start: nat, oend: nat, writeIsSafe: bool, ghost end: nat, out0: nat, bitStream: nat,
                  bitCount: nat, norm: seq<int>, ghost L: nat,
                  ghost i: nat, ghost prev0: bool, ghost w: BitString) returns (r: Result<nat>)
    requires start <= out0 <= end <= header.Length && bitCount <= 16 && i <= |norm|
    requires NormOk(norm, L) && Counters(norm) && (i == |norm| || Remaining(norm, L, i) <= 1)
    requires BeforeSymbol(header[start..out0], bitStream, bitCount, w, norm, L, i, prev0)
    requires Within(writeIsSafe, start, oend, end, NCountBits(norm, L).len)
    modifies header
    ensures r == Err(DstSizeTooSmall) <==> !writeIsSafe && start + Reach(NCountBits(norm, L).len) > oend
    ensures r.Err? ==> r.error == DstSizeTooSmall
    ensures r.Ok? ==> Stored(header[..], start, r.value, norm, L)
    ensures forall k | 0 <= k < header.Length && !(start <= k < end) :: header[k] == old(header[k])
  {
    hide *;
    ghost var mem := header[start..out0];
    LastBits(mem, bitStream, bitCount, w, norm, L, i, prev0, start, oend, writeIsSafe, end);
    LastTwo(mem, bitStream, bitCount, w);
    if !writeIsSafe && out0 + 2 > oend { return Err(DstSizeTooSmall); }
    WriteLast(mem, bitStream, bitCount, w);
    PutTwo(header, start, out0, bitStream);
    var out := out0 + BytesFor(bitCount);
    r := Ok(out - start);
    assert header[start..out] == header[start..out0 + 2][..out - start];
    assert header[start..out] == mem + ToLE(bitStream, 2)[..BytesFor(bitCount)];
    IsStored(header[..], start, r.value, norm, L, mem + ToLE(bitStream, 2));
  }

  lemma {:induction false} WriteStart(norm: seq<int>, L: nat)
    requires NormOk(norm, L) && L <= BYTE_LIMITS.maxTableLog
    ensures Counters(norm)
    ensures BeforeSymbol([], L - MIN_TABLELOG, 4, BitString(L - MIN_TABLELOG, 4), norm, L, 0, false)
    ensures Remaining(norm, L, 0) == Pow2(L) + 1 && HighBit(Pow2(L) + 1) == L
  {
    hide FieldsFrom, Holds, Odd, Pow2, Remaining, FreqSum;
    StartWidth(L);
    FieldsClean(norm, L, 0, false);
    RemainingEnds(norm, L);
    NothingWritten(L - MIN_TABLELOG);
  }

  lemma {:induction false} StartWidth(L: nat)
    requires MIN_TABLELOG <= L
    ensures HighBit(Pow2(L) + 1) == L
  {
    Pow2Strict(0, L);
    assert Pow2(0) == 1;
    HighBitUnique(Pow2(L) + 1, L);
  }

  lemma {:induction false} NothingWritten(c: nat)
    requires c <= BYTE_LIMITS.maxTableLog - MIN_TABLELOG
    ensures Writing([], c, 4, BitString(c, 4)) && Odd(0) == 0
  {
    SmallPowers();
    ShlNothing(c);
  }

  lemma {:induction false} ShlNothing(c: nat)
    ensures Shl(c, Times8(0)) == c && LE([]) == 0
  {
  }

  lemma {:induction false} StartBits(tableLog: nat)
    requires HighBit(Pow2(tableLog) + 1) == tableLog
    ensures FieldBits(Pow2(tableLog) + 1) == tableLog + 1
    ensures forall r: nat {:trigger FieldBits(r)} | r > 0 :: FieldBits(r) == HighBit(r) + 1
  {
    hide HighBit, Pow2;
  }

  lemma {:induction false} SmallTableLog(tableLog: nat)
    requires tableLog <= BYTE_LIMITS.maxTableLog
    ensures tableLog + 1 <= 16
  {
  }

  /** How many bytes the writer stores into for these counters. */
  ghost function NCountReach(norm: seq<int>, L: nat): nat
    requires NormOk(norm, L)
  {
    Reach(NCountBits(norm, L).len)
  }

  /** FSE_writeNCount_generic. */
  method WriteFields(header: array<byte>, start: nat, oend: nat, norm: seq<int>, tableLog: nat, writeIsSafe: bool) returns (r: Result<nat>)
    requires start <= oend <= header.Length
    requires MIN_TABLELOG <= tableLog <= BYTE_LIMITS.maxTableLog && NormOk(norm, tableLog)
    requires writeIsSafe ==> start + NCountReach(norm, tableLog) <= header.Length
    modifies header
    ensures r.Err? ==> r.error == DstSizeTooSmall
    ensures r.Err? <==> !writeIsSafe && start + NCountReach(norm, tableLog) > oend
    ensures r.Ok? ==> Counters(norm) && Stored(header[..], start, r.value, norm, tableLog)
    ensures forall k | 0 <= k < header.Length && !(start <= k < if writeIsSafe then start + NCountReach(norm, tableLog) else oend) ::
              header[k] == old(header[k])
  {
    hide *;
    SmallTableLog(tableLog);
    WriteStart(norm, tableLog);
    StartBits(tableLog);
    ghost var end := ReachIs(norm, tableLog, start, oend, writeIsSafe);
    var bitStream: nat, bitCount: nat, out: nat := tableLog - MIN_TABLELOG, 4, start;
    var remaining: nat, threshold: nat, nbBits: nat := Pow2(tableLog) + 1, Pow2(tableLog), tableLog + 1;
    var symbol, previousIs0 := 0, false;
    ghost var w := BitString(bitStream, 4);
    assert header[start..out] == [];
    while symbol < |norm| && remaining > 1
      invariant start <= out <= end && bitCount <= 16 && symbol <= |norm|
      invariant BeforeSymbol(header[start..out], bitStream, bitCount, w, norm, tableLog, symbol, previousIs0)
      invariant remaining == Remaining(norm, tableLog, symbol)
      invariant threshold == Pow2(HighBit(remaining)) && nbBits == FieldBits(remaining) <= tableLog + 1
      invariant forall k | 0 <= k < header.Length && !(start <= k < end) :: header[k] == old(header[k])
      decreases |norm| - symbol
    {
      var ok;
      ok, out, bitStream, bitCount, w, symbol, previousIs0, remaining :=
        WriteSymbol(header, start, oend, writeIsSafe, end, out, bitStream, bitCount, norm, tableLog, symbol, previousIs0, remaining, threshold,
                    nbBits, w);
      if !ok { return Err(DstSizeTooSmall); }
      threshold, nbBits := Shrink(remaining, threshold, nbBits);
    }
    r := WriteEnd(header, start, oend, writeIsSafe, end, out, bitStream, bitCount, norm, tableLog, symbol, previousIs0, w);
  }

  lemma {:induction false} ReachIs(norm: seq<int>, L: nat, start: nat, oend: nat, writeIsSafe: bool) returns (end: nat)
    requires NormOk(norm, L) && start <= oend
    ensures Counters(norm) && end == (if writeIsSafe then start + NCountReach(norm, L) else oend) >= start
    ensures Within(writeIsSafe, start, oend, end, NCountBits(norm, L).len)
    ensures NCountReach(norm, L) == Reach(NCountBits(norm, L).len)
  {
    hide NCountBits, Reach;
    end := if writeIsSafe then start + NCountReach(norm, L) else oend;
  }

  /** The bytes that may change: the buffer, or what the writer stores into once it does not check. */
  ghost function WriteReach(norm: seq<int>, L: nat, bufferSize: nat): (n: nat)
    requires NormOk(norm, L)
  {
    if bufferSize < NCountWriteBound(|norm| - 1, L) then bufferSize else NCountReach(norm, L)
  }

  /**
    FSE_writeNCount. From `NCountWriteBound` on it does not check where it stores; `header` is the memory, which
    then goes on as far as the writer stores. It stores the description of the counters, and otherwise finds
    that it does not fit.
   */
  method WriteNCount(header: array<byte>, start: nat, bufferSize: nat, norm: seq<int>, tableLog: nat) returns (r: Result<nat>)
    requires start + bufferSize <= header.Length
    requires MIN_TABLELOG <= tableLog <= BYTE_LIMITS.maxTableLog ==>
               NormOk(norm, tableLog) && start + WriteReach(norm, tableLog, bufferSize) <= header.Length
    modifies header
    ensures tableLog > BYTE_LIMITS.maxTableLog ==> r == Err(TableLogTooLarge)
    ensures tableLog < MIN_TABLELOG ==> r == Err(Generic)
    ensures MIN_TABLELOG <= tableLog <= BYTE_LIMITS.maxTableLog ==>
              && (r == Err(DstSizeTooSmall) <==> bufferSize < NCountWriteBound(|norm| - 1, tableLog) && bufferSize < NCountReach(norm, tableLog))
              && (r.Err? ==> r.error == DstSizeTooSmall)
    ensures r.Ok? ==> MIN_TABLELOG <= tableLog && Counters(norm) && Stored(header[..], start, r.value, norm, tableLog)
    ensures forall k | 0 <= k < header.Length
              && !(MIN_TABLELOG <= tableLog <= BYTE_LIMITS.maxTableLog && start <= k < start + WriteReach(norm, tableLog, bufferSize)) ::
              header[k] == old(header[k])
  {
    hide Stored, NCountReach, Counters, NCountWriteBound, FreqSum, Pow2;
    if tableLog > BYTE_LIMITS.maxTableLog { return Err(TableLogTooLarge); }
    if tableLog < MIN_TABLELOG { return Err(Generic); }
    if bufferSize < NCountWriteBound(|norm| - 1, tableLog) {
      r := WriteFields(header, start, start + bufferSize, norm, tableLog, false);
    } else {
      r := WriteFields(header, start, start + bufferSize, norm, tableLog, true);
    }
  }
}
