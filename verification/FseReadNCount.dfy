/**
  FSE_readNCount: it slides a 32-bit window over the description of the counters, and stops sliding near the
  end of the input.
 */
module FseReadNCount {
  import opened Bits
  import opened BitStream
  import opened Errors
  import opened FseSpread
  import opened FseNCount
  import opened FseNCountBound
  import opened FseNCountRef

  /** The register holds the bits from position 8*ip + bitCount on, up to the end of the 32-bit word at `ip`. */
  ghost predicate Window(src: seq<byte>, ip: nat, bitCount: nat, bitStream: nat) {
    ip + 4 <= |src| && bitStream == Shr(LE(src[ip..ip + 4]), bitCount)
  }

  lemma {:induction false} WindowBits(src: seq<byte>, ip: nat, bitCount: nat, bitStream: nat, n: nat)
    requires Window(src, ip, bitCount, bitStream) && bitCount + n <= 32
    ensures Low(bitStream, n) == Slice(LE(src), Times8(ip) + bitCount, n)
  {
    LESlice(src, ip, 4);
    SliceSlice(LE(src), Times8(ip), 32, bitCount, n);
  }

  lemma {:induction false} WindowSkip(src: seq<byte>, ip: nat, bitCount: nat, bitStream: nat, n: nat)
    requires Window(src, ip, bitCount, bitStream)
    ensures Window(src, ip, bitCount + n, Shr(bitStream, n))
  {
    ShrShr(LE(src[ip..ip + 4]), bitCount, n);
  }

  /** A header being read that is the stored description of `norm`. */
  datatype Header = Header(good: bool, norm: seq<int>, L: nat, size: nat)

  ghost predicate HeaderOk(h: Header, src: seq<byte>) {
    h.good ==>
      && NormOk(h.norm, h.L) && MIN_TABLELOG <= h.L <= BYTE_LIMITS.maxTableLog && Counters(h.norm) && h.norm[|h.norm| - 1] != 0
      && h.size <= |src| && NCountForm(src[..h.size], h.norm, h.L)
  }

  /** The bits `a` are next, and end the description. */
  ghost predicate Next(h: Header, src: seq<byte>, ip: nat, bitCount: nat, a: BitString)
    requires h.good && h.L >= MIN_TABLELOG && Counters(h.norm)
  {
    Ahead(LE(src), Times8(ip) + bitCount, a) && Times8(ip) + bitCount + a.len == NCountBits(h.norm, h.L).len
  }

  lemma {:induction false} HeaderBounds(h: Header, src: seq<byte>)
    requires h.good && HeaderOk(h, src)
    ensures NormOk(h.norm, h.L) && MIN_TABLELOG <= h.L <= BYTE_LIMITS.maxTableLog && Counters(h.norm)
    ensures h.norm[|h.norm| - 1] != 0 && h.size <= |src| && h.size == BytesFor(NCountBits(h.norm, h.L).len)
  {
    hide NormOk, Counters, NCountBits, LE;
  }

  /** The 32-bit word at `ip` reaches the end of the description. */
  ghost predicate Covers(h: Header, ip: nat)
    requires h.good && h.L >= MIN_TABLELOG && Counters(h.norm)
  {
    NCountBits(h.norm, h.L).len <= Times8(ip) + 32
  }

  /** The last word of the input does, and the one before it if the description does not end the input. */
  lemma {:induction false} CoversLate(h: Header, src: seq<byte>, ip: nat)
    requires h.good && HeaderOk(h, src)
    ensures ip + 4 >= |src| ==> Covers(h, ip)
    ensures h.size < |src| && ip + 5 >= |src| ==> Covers(h, ip)
    ensures NCountBits(h.norm, h.L).len <= Times8(|src|)
  {
    hide NormOk, Counters, NCountBits, LE;
    BytesForBounds(NCountBits(h.norm, h.L).len);
  }

  /** The description from its first bit. */
  lemma {:induction false} NextStarts(h: Header, src: seq<byte>)
    requires h.good && HeaderOk(h, src)
    ensures Next(h, src, 0, 0, NCountBits(h.norm, h.L))
    ensures Clean(FieldsFrom(h.norm, h.L, 0, false)) && Clean(BitString(h.L - MIN_TABLELOG, 4))
  {
    hide NormOk, Counters, NCountBits, FieldsFrom, LE, Low, Shr, Shl, Pow2;
    var whole := NCountBits(h.norm, h.L);
    FieldsClean(h.norm, h.L, 0, false);
    WholeClean(h.norm, h.L);
    BytesForBounds(whole.len);
    LowOfPrefix(src, h.size, whole.len);
    LowSmall(whole.val, whole.len);
    ShiftNone(LE(src));
  }

  lemma {:induction false} LowOfPrefix(src: seq<byte>, size: nat, n: nat)
    requires size <= |src| && n <= Times8(size)
    ensures Low(LE(src), n) == Low(LE(src[..size]), n)
  {
    hide LE, Low, Shr, Shl, Pow2;
    assert src == src[..size] + src[size..];
    LEConcat(src[..size], src[size..]);
    LEBound(src[..size]);
    Join(LE(src[..size]), LE(src[size..]), Times8(size));
    LowLow(LE(src), n, Times8(size));
  }

  lemma {:induction false} WholeClean(norm: seq<int>, L: nat)
    requires NormOk(norm, L) && L <= BYTE_LIMITS.maxTableLog && Counters(norm)
    ensures Clean(NCountBits(norm, L)) && Clean(BitString(L - MIN_TABLELOG, 4))
  {
    SmallPowers();
    FieldsClean(norm, L, 0, false);
    CatClean(BitString(L - MIN_TABLELOG, 4), FieldsFrom(norm, L, 0, false));
  }

  lemma {:induction false} NextSplit(h: Header, src: seq<byte>, ip: nat, bitCount: nat, a: BitString, b: BitString)
    requires h.good && h.L >= MIN_TABLELOG && Counters(h.norm) && Next(h, src, ip, bitCount, Cat(a, b)) && Clean(a) && Clean(b)
    ensures Slice(LE(src), Times8(ip) + bitCount, a.len) == a.val
    ensures Next(h, src, ip, bitCount + a.len, b)
  {
    hide NCountBits, Counters, Clean, LE, Slice, Times8, Shl;
    AheadSplit(LE(src), Times8(ip) + bitCount, a, b);
  }

  /** In all ones, every pair of bits is ones. */
  lemma {:induction false} PairOfOnes(stream: nat, p: nat, n: nat, t: nat)
    requires n == 16 && t + 2 <= n && Slice(stream, p, n) == 0xFFFF
    ensures Slice(stream, p + t, 2) == 3
  {
    SliceSlice(stream, p, n, t, 2);
    OnesPair(t);
  }

  lemma {:induction false} OnesPair(t: nat)
    requires t <= 14
    ensures Slice(0xFFFF, t, 2) == 3
  {
    hide Pow2, Shl, Shr, Low;
    Pow2Sixteen();
    Pow2Mono(2, 16 - t);
    Pow2IsShl(16 - t, t);
    ShlOne(t);
    ShlAdd(Pow2(16 - t) - 1, 1, t);
    Join(Pow2(t) - 1, Pow2(16 - t) - 1, t);
    OnesLow(16 - t);
  }

  lemma {:induction false} Pow2Sixteen()
    ensures Pow2(16) == 0x1_0000
  {
    SmallPowers();
    Pow2IsShl(8, 8);
    ShlByte(256);
  }

  lemma {:induction false} OnesLow(n: nat)
    requires n >= 2
    ensures Low(Pow2(n) - 1, 2) == 3
  {
    var q := Pow2(n - 2) - 1;
    assert Pow2(n - 1) == 2 * Pow2(n - 2) && Pow2(n) == 2 * Pow2(n - 1);
    assert Pow2(1) == 2 && Pow2(2) == 4;
    assert Shl(q, 0) == q && Shl(q, 1) == 2 * q && Shl(q, 2) == 4 * q;
    Join(3, q, 2);
  }

  /** The last pair of a short run is not 3. */
  lemma {:induction false} ShortRunBits(stream: nat, p: nat, m: nat, len: nat, k: nat) returns (t: nat)
    requires Ahead(stream, p, ZeroRun(m)) && m < k + k + k <= 24 && len == ZeroRun(m).len
    ensures t + 2 <= k + k && t + 2 <= len && Slice(stream, p + t, 2) != 3
    decreases m
  {
    hide Clean, Slice, Shl;
    if m < 3 {
      t := 0;
    } else {
      PieceClean(BitString(3, 2));
      ZeroRunClean(m - 3);
      AheadSplit(stream, p, BitString(3, 2), ZeroRun(m - 3));
      t := ShortRunBits(stream, p + 2, m - 3, len - 2, k - 1);
      assert p + 2 + t == p + (t + 2);
      t := t + 2;
    }
  }

  /** The first two bits of a run of fewer than 24 zeros. */
  lemma {:induction false} ShortRunSeen(stream: nat, p: nat, m: nat, rest: BitString)
    requires Ahead(stream, p, Cat(ZeroRun(m), rest)) && Clean(rest) && m < 24
    ensures Slice(stream, p, 2) == if m >= 3 then 3 else m
  {
    hide Slice, Pow2, Shl, Clean;
    ZeroRunClean(m);
    AheadSplit(stream, p, ZeroRun(m), rest);
    if m >= 3 {
      PieceClean(BitString(3, 2));
      ZeroRunClean(m - 3);
      AheadSplit(stream, p, BitString(3, 2), ZeroRun(m - 3));
    }
  }

  lemma {:induction false} LongRunSeen(stream: nat, p: nat, m: nat, rest: BitString)
    requires Ahead(stream, p, Cat(ZeroRun(m), rest)) && Clean(rest) && m >= 24
    ensures Slice(stream, p, 16) == 0xFFFF
    ensures Ahead(stream, p + 16, Cat(ZeroRun(m - 24), rest))
    ensures Cat(ZeroRun(m), rest).len == 16 + Cat(ZeroRun(m - 24), rest).len
  {
    RunSplit(stream, p, BitString(0xFFFF, 16), m, m - 24, rest);
  }

  lemma {:induction false} PairSeen(stream: nat, p: nat, m: nat, rest: BitString)
    requires Ahead(stream, p, Cat(ZeroRun(m), rest)) && Clean(rest) && 3 <= m < 24
    ensures Ahead(stream, p + 2, Cat(ZeroRun(m - 3), rest))
    ensures Cat(ZeroRun(m), rest).len == 2 + Cat(ZeroRun(m - 3), rest).len
  {
    RunSplit(stream, p, BitString(3, 2), m, m - 3, rest);
  }

  lemma {:induction false} RunSplit(stream: nat, p: nat, f: BitString, m: nat, m': nat, rest: BitString)
    requires Ahead(stream, p, Cat(ZeroRun(m), rest)) && Clean(rest) && ZeroRun(m) == Cat(f, ZeroRun(m'))
    requires (f.len == 2 && f.val <= 3) || f == BitString(0xFFFF, 16)
    ensures Slice(stream, p, f.len) == f.val && Ahead(stream, p + f.len, Cat(ZeroRun(m'), rest))
    ensures Cat(ZeroRun(m), rest).len == f.len + Cat(ZeroRun(m'), rest).len
  {
    hide ZeroRun, Slice, Shl, Pow2;
    PieceClean(f);
    ZeroRunClean(m');
    CatClean(ZeroRun(m'), rest);
    CatAssoc(f, ZeroRun(m'), rest);
    AheadSplit(stream, p, f, Cat(ZeroRun(m'), rest));
  }

  /** A run of `run` more zeros, then `rest`, is next in the register and the stream. */
  ghost predicate RunNext(h: Header, src: seq<byte>, ip: nat, bitCount: nat, bitStream: nat, run: nat, rest: BitString) {
    h.good ==>
      && HeaderOk(h, src) && Clean(rest) && Window(src, ip, bitCount, bitStream)
      && Next(h, src, ip, bitCount, Cat(ZeroRun(run), rest))
  }

  // ---------- what the register shows ----------

  /** The stream is all zeros from the end of the word at `ip` up to position `q`, as a shifted word shows it. */
  ghost predicate Visible(src: seq<byte>, ip: nat, q: int) {
    q <= Times8(ip) + 32 || Slice(LE(src), Times8(ip) + 32, q - (Times8(ip) + 32)) == 0
  }

  /** Position after the first `v` bits of `rest`, which ends the description. */
  ghost function EndOf(h: Header, rest: BitString, v: nat): int
    requires h.good && h.L >= MIN_TABLELOG && Counters(h.norm)
  {
    NCountBits(h.norm, h.L).len - rest.len + v
  }

  lemma {:induction false} WordBound(w: seq<byte>)
    requires |w| == 4
    ensures LE(w) < Pow2(32)
  {
    LEBound(w);
  }

  lemma {:induction false} FifteenBits()
    ensures Pow2(15) == 0x8000 && Pow2(14) == 0x4000
  {
    Pow2Sixteen();
    assert Pow2(16) == 2 * Pow2(15) && Pow2(15) == 2 * Pow2(14);
  }

  lemma {:induction false} LowFive(n: nat)
    requires n < 32
    ensures Low(n, 5) == n
  {
    SmallPowers();
    assert Pow2(5) == 2 * Pow2(4) && Pow2(4) == 2 * Pow2(3);
    hide Pow2, Low;
    LowSmall(n, 5);
  }

  /** What a shifted word can still hold. */
  lemma {:induction false} RegisterBound(src: seq<byte>, ip: nat, bitCount: nat, bitStream: nat)
    requires Window(src, ip, bitCount, bitStream)
    ensures bitCount <= 32 ==> bitStream < Pow2(32 - bitCount)
    ensures bitCount > 32 ==> bitStream == 0
  {
    hide LE, Pow2, Shr;
    WordBound(src[ip..ip + 4]);
    if bitCount <= 32 {
      ShrBound(LE(src[ip..ip + 4]), bitCount, 32 - bitCount);
    } else {
      Pow2Mono(32, bitCount);
      LowSmall(LE(src[ip..ip + 4]), bitCount);
    }
  }

  /** A part of zeros is zero. */
  lemma {:induction false} ZeroPart(x: nat, a: nat, w: nat, b: nat, n: nat)
    requires Slice(x, a, w) == 0 && b + n <= w
    ensures Slice(x, a + b, n) == 0
  {
    SliceSlice(x, a, w, b, n);
    SliceOfZero(b, n);
  }

  lemma {:induction false} SliceOfZero(b: nat, n: nat)
    ensures Slice(0, b, n) == 0
  {
    if b > 0 { SliceOfZero(b - 1, n); } else { ZeroLow(n); }
  }

  lemma {:induction false} ZeroLow(n: nat)
    ensures Low(0, n) == 0
  {
    if n > 0 { ZeroLow(n - 1); }
  }

  /** A slice in two parts. */
  lemma {:induction false} SliceJoin(x: nat, p: nat, a: nat, b: nat)
    ensures Slice(x, p, a + b) == Slice(x, p, a) + Shl(Slice(x, p + a, b), a)
  {
    LowParts(Shr(x, p), a, b);
    ShrShr(x, p, a);
  }

  /** The register beyond its word: it shows zeros, and only zeros are there. */
  lemma {:induction false} WindowZeros(src: seq<byte>, ip: nat, bitCount: nat, bitStream: nat, n: nat, q: int)
    requires Window(src, ip, bitCount, bitStream) && bitCount + n > 32
    requires Times8(ip) + bitCount + n <= q && Visible(src, ip, q)
    ensures Low(bitStream, n) == Slice(LE(src), Times8(ip) + bitCount, n)
  {
    hide LE, Low, Shr, Shl, Pow2, Slice;
    RegisterBound(src, ip, bitCount, bitStream);
    var W, P := Times8(ip) + 32, Times8(ip) + bitCount;
    if bitCount <= 32 {
      var m := 32 - bitCount;
      WindowBits(src, ip, bitCount, bitStream, m);
      Pow2Mono(m, n);
      LowSmall(bitStream, n);
      LowSmall(bitStream, m);
      ZeroPart(LE(src), W, q - W, 0, n - m);
      SliceJoin(LE(src), P, m, n - m);
      ShlZero(m);
    } else {
      ZeroPart(LE(src), W, q - W, bitCount - 32, n);
      ZeroLow(n);
    }
  }

  /** Up to `n` bits of the field that is next are seen. */
  lemma {:induction false} FieldInRegister(src: seq<byte>, ip: nat, bitCount: nat, bitStream: nat, n: nat, q: int)
    requires Window(src, ip, bitCount, bitStream)
    requires bitCount + n <= 32 || (Times8(ip) + bitCount + n <= q && Visible(src, ip, q))
    ensures Low(bitStream, n) == Slice(LE(src), Times8(ip) + bitCount, n)
  {
    hide Low, LE, Slice;
    if bitCount + n <= 32 { WindowBits(src, ip, bitCount, bitStream, n); } else { WindowZeros(src, ip, bitCount, bitStream, n, q); }
  }

  /** In a full register, sixteen ones are not the beginning of a short run. */
  lemma {:induction false} NotSixteenOnes(h: Header, src: seq<byte>, ip: nat, bitCount: nat, bitStream: nat, run: nat, rest: BitString)
    requires h.good && RunNext(h, src, ip, bitCount, bitStream, run, rest) && run < 24 && bitCount <= 16
    ensures Low(bitStream, 16) != 0xFFFF
  {
    hide HeaderOk, NCountBits, ZeroRun, Low, Shr, LE, Slice, Window;
    ZeroRunClean(run);
    AheadSplit(LE(src), Times8(ip) + bitCount, ZeroRun(run), rest);
    var p := Times8(ip) + bitCount;
    var t := ShortRunBits(LE(src), p, run, ZeroRun(run).len, 8);
    WindowSlice32(src, ip, bitCount, bitStream, t, 2);
    if Low(bitStream, 16) == 0xFFFF {
      SliceFirst(bitStream, 16);
      PairOfOnes(bitStream, 0, 16, t);
    }
  }

  lemma {:induction false} WindowSlice32(src: seq<byte>, ip: nat, bitCount: nat, bitStream: nat, t: nat, n: nat)
    requires Window(src, ip, bitCount, bitStream) && bitCount + t + n <= 32
    ensures Slice(bitStream, t, n) == Slice(LE(src), Times8(ip) + bitCount + t, n)
  {
    hide LE;
    WindowSkip(src, ip, bitCount, bitStream, t);
    WindowBits(src, ip, bitCount + t, Shr(bitStream, t), n);
  }

  /** Fewer than sixteen bits are not sixteen ones. */
  lemma {:induction false} FewBits(src: seq<byte>, ip: nat, bitCount: nat, bitStream: nat)
    requires Window(src, ip, bitCount, bitStream) && bitCount > 16
    ensures Low(bitStream, 16) != 0xFFFF
  {
    hide LE, Low, Shr, Pow2;
    RegisterBound(src, ip, bitCount, bitStream);
    FifteenBits();
    if bitCount <= 32 { Pow2Mono(32 - bitCount, 15); }
    Pow2Mono(15, 16);
    LowSmall(bitStream, 16);
  }

  /** Sixteen ones seen are a long run. */
  lemma {:induction false} SawLong(h: Header, src: seq<byte>, ip: nat, bitCount: nat, bitStream: nat, run: nat, rest: BitString)
    requires h.good && RunNext(h, src, ip, bitCount, bitStream, run, rest) && Low(bitStream, 16) == 0xFFFF
    ensures run >= 24 && bitCount <= 16
  {
    hide Low, HeaderOk, NCountBits, Clean, ZeroRun, Window;
    if bitCount > 16 { FewBits(src, ip, bitCount, bitStream); }
    if run < 24 { NotSixteenOnes(h, src, ip, bitCount, bitStream, run, rest); }
  }

  /** A long run is seen, if sixteen bits are. */
  lemma {:induction false} ShowsLong(h: Header, src: seq<byte>, ip: nat, bitCount: nat, bitStream: nat, run: nat, rest: BitString, v: nat)
    requires h.good && RunNext(h, src, ip, bitCount, bitStream, run, rest) && run >= 24 && h.L >= MIN_TABLELOG && Counters(h.norm)
    requires bitCount <= 16 || Visible(src, ip, EndOf(h, rest, v))
    ensures Low(bitStream, 16) == 0xFFFF
  {
    hide HeaderOk, NCountBits, Low, Shr, LE, Slice, Clean, Ahead;
    LongRunSeen(LE(src), Times8(ip) + bitCount, run, rest);
    FieldInRegister(src, ip, bitCount, bitStream, 16, EndOf(h, rest, v));
  }

  /** The step over a long code, with or without reading a new word. */
  lemma {:induction false} LongNext(h: Header, src: seq<byte>, ip: nat, bitCount: nat, bitStream: nat, run: nat, rest: BitString)
    requires h.good && RunNext(h, src, ip, bitCount, bitStream, run, rest) && run >= 24
    ensures ip + 6 <= |src| ==>
              RunNext(h, src, ip + 2, bitCount, Shr(LE(src[ip + 2..ip + 6]), bitCount), run - 24, rest)
    ensures RunNext(h, src, ip, bitCount + 16, Shr(bitStream, 16), run - 24, rest)
  {
    hide HeaderOk, NCountBits, ZeroRun, Ahead, Low, Shr, LE;
    LongRunSeen(LE(src), Times8(ip) + bitCount, run, rest);
    WindowSkip(src, ip, bitCount, bitStream, 16);
    assert Times8(ip + 2) == Times8(ip) + 16;
  }

  /** A 3 seen is at least three zeros. */
  lemma {:induction false} SawShort(h: Header, src: seq<byte>, ip: nat, bitCount: nat, bitStream: nat, run: nat, rest: BitString)
    requires h.good && RunNext(h, src, ip, bitCount, bitStream, run, rest) && run < 24 && Low(bitStream, 2) == 3
    ensures run >= 3 && bitCount <= 30 && RunNext(h, src, ip, bitCount + 2, Shr(bitStream, 2), run - 3, rest)
  {
    hide HeaderOk, NCountBits, ZeroRun, Ahead, Low, Shr, LE, Slice, Clean;
    if bitCount > 30 { FewPairs(src, ip, bitCount, bitStream); }
    var p := Times8(ip) + bitCount;
    FieldInRegister(src, ip, bitCount, bitStream, 2, 0);
    WindowSkip(src, ip, bitCount, bitStream, 2);
    ShortRunSeen(LE(src), p, run, rest);
    PairSeen(LE(src), p, run, rest);
  }

  /** With one bit left in the register, a pair shows at most its low bit. */
  lemma {:induction false} FewPairs(src: seq<byte>, ip: nat, bitCount: nat, bitStream: nat)
    requires Window(src, ip, bitCount, bitStream) && bitCount > 30
    ensures Low(bitStream, 2) == bitStream <= 1 && Shr(bitStream, 2) == 0
    ensures bitCount == 31 ==> bitStream == Slice(LE(src), Times8(ip) + bitCount, 1)
    ensures bitCount > 31 ==> bitStream == 0
  {
    hide LE, Low, Shr, Slice;
    RegisterBound(src, ip, bitCount, bitStream);
    assert Pow2(0) == 1 && Pow2(1) == 2 && Pow2(2) == 4;
    LowSmall(bitStream, 2);
    if bitCount == 31 {
      LowSmall(bitStream, 1);
      WindowBits(src, ip, bitCount, bitStream, 1);
    }
  }

  lemma {:induction false} RunOver(h: Header, src: seq<byte>, ip: nat, bitCount: nat, bitStream: nat, run: nat, rest: BitString)
    requires h.good && RunNext(h, src, ip, bitCount, bitStream, run, rest) && run < 3
    ensures Next(h, src, ip, bitCount + 2, rest)
  {
    hide NormOk, Counters, NCountBits, NCountForm, Ahead;
    ZeroRunClean(run);
    NextSplit(h, src, ip, bitCount, BitString(run, 2), rest);
  }

  // ---------- whether a run is seen as it is ----------

  /** The last word that is read within a run of `run` zeros, from `ip` on in an input of `n` bytes. */
  ghost function LongEnd(ip: nat, n: nat, run: nat): nat
    decreases run
  {
    if run >= 24 && ip + 5 < n then LongEnd(ip + 2, n, run - 24) else ip
  }

  /** The run, and the first `v` bits of `rest` after it, are read as they are. */
  ghost predicate RunSeen(h: Header, src: seq<byte>, ip: nat, run: nat, rest: BitString, v: nat)
    requires h.good && h.L >= MIN_TABLELOG && Counters(h.norm)
  {
    var last := LongEnd(ip, |src|, run);
    last + 5 != |src| || EndOf(h, rest, 0) <= Times8(last) + 15 || Visible(src, last, EndOf(h, rest, v))
  }

  /** The word before the last one shows everything if the description does not end the input. */
  lemma {:induction false} SeenWithMore(h: Header, src: seq<byte>, ip: nat, run: nat, rest: BitString, v: nat)
    requires h.good && HeaderOk(h, src) && h.size < |src| && v <= rest.len
    ensures h.L >= MIN_TABLELOG && Counters(h.norm) && RunSeen(h, src, ip, run, rest, v)
  {
    hide HeaderOk, NCountBits, Slice, LE, LongEnd;
    HeaderBounds(h, src);
    CoversLate(h, src, LongEnd(ip, |src|, run));
  }

  /** Where the reader is in a run. */
  ghost predicate InRun(h: Header, src: seq<byte>, ip: nat, bitCount: nat, bitStream: nat, run: nat, rest: BitString, v: nat, seen: bool) {
    && RunNext(h, src, ip, bitCount, bitStream, run, rest)
    && (h.good ==> h.L >= MIN_TABLELOG && Counters(h.norm) && v <= rest.len && (seen <==> RunSeen(h, src, ip, run, rest, v)))
  }

  /** Repeat codes of 24 zeros. */
  method ReadLongRuns(src: seq<byte>, ip0: nat, bitCount0: nat, bitStream0: nat, charnum: nat,
                      ghost h: Header, ghost run0: nat, ghost rest: BitString, ghost v: nat, ghost seen: bool)
    returns (n0: nat, ip: nat, bitCount: nat, bitStream: nat, ghost run: nat)
    requires ip0 + 4 <= |src| && (ip0 + 4 < |src| ==> bitCount0 <= 7)
    requires InRun(h, src, ip0, bitCount0, bitStream0, run0, rest, v, seen)
    ensures ip + 4 <= |src| && (ip + 5 < |src| ==> bitCount <= 7) && Low(bitStream, 16) != 0xFFFF && n0 >= charnum
    ensures InRun(h, src, ip, bitCount, bitStream, run, rest, v, seen) && (h.good ==> n0 + run == charnum + run0)
    ensures h.good && ip + 5 == |src| ==> bitCount <= 32
    ensures h.good && run >= 24 ==> ip + 5 == |src| && bitCount > 16 && !seen
    ensures LongRuns(src, Cursor(ip0, bitCount0, bitStream0), charnum) == (Cursor(ip, bitCount, bitStream), n0)
  {
    hide InRun, Low, Shr, LE;
    n0, ip, bitCount, bitStream, run := charnum, ip0, bitCount0, bitStream0, run0;
    while Low(bitStream, 16) == 0xFFFF
      invariant n0 >= charnum && ip + 4 <= |src| && (ip + 5 < |src| ==> bitCount <= 7)
      invariant InRun(h, src, ip, bitCount, bitStream, run, rest, v, seen) && (h.good ==> n0 + run == charnum + run0)
      invariant h.good && ip + 5 == |src| ==> bitCount <= 32
      invariant LongRuns(src, Cursor(ip0, bitCount0, bitStream0), charnum) == LongRuns(src, Cursor(ip, bitCount, bitStream), n0)
      decreases |src| - ip, bitStream
    {
      if h.good { LongStep(h, src, ip, bitCount, bitStream, run, rest, v, seen); }
      n0 := n0 + 24;
      if h.good { run := run - 24; }
      if ip + 5 < |src| {
        ip := ip + 2;
        bitStream := Shr(LE(src[ip..ip + 4]), bitCount);
      } else {
        ShrSmaller(bitStream);
        bitStream := Shr(bitStream, 16);
        bitCount := bitCount + 16;
      }
      if !h.good { NotKnown(h, src, ip, bitCount, bitStream, run, rest, v, seen); }
    }
    if h.good { LongOver(h, src, ip, bitCount, bitStream, run, rest, v, seen); }
  }

  lemma {:induction false} NotKnown(h: Header, src: seq<byte>, ip: nat, bitCount: nat, bitStream: nat, run: nat,
                                    rest: BitString, v: nat, seen: bool)
    requires !h.good
    ensures InRun(h, src, ip, bitCount, bitStream, run, rest, v, seen)
  {
  }

  lemma {:induction false} LongStep(h: Header, src: seq<byte>, ip: nat, bitCount: nat, bitStream: nat, run: nat,
                                    rest: BitString, v: nat, seen: bool)
    requires h.good && InRun(h, src, ip, bitCount, bitStream, run, rest, v, seen) && Low(bitStream, 16) == 0xFFFF
    ensures run >= 24 && bitCount <= 16
    ensures ip + 5 < |src| ==> InRun(h, src, ip + 2, bitCount, Shr(LE(src[ip + 2..ip + 6]), bitCount), run - 24, rest, v, seen)
    ensures ip + 5 >= |src| ==> InRun(h, src, ip, bitCount + 16, Shr(bitStream, 16), run - 24, rest, v, seen)
  {
    hide RunNext, Low, Shr, LE, Counters, Visible, EndOf;
    SawLong(h, src, ip, bitCount, bitStream, run, rest);
    LongNext(h, src, ip, bitCount, bitStream, run, rest);
  }

  /** Nothing is left of the word after the last one. */
  lemma {:induction false} CoversVisible(h: Header, src: seq<byte>, ip: nat, rest: BitString, v: nat)
    requires h.good && HeaderOk(h, src) && ip + 4 >= |src| && v <= rest.len
    ensures h.L >= MIN_TABLELOG && Counters(h.norm) && Visible(src, ip, EndOf(h, rest, v))
  {
    hide HeaderOk, NCountBits, Slice, LE;
    HeaderBounds(h, src);
    CoversLate(h, src, ip);
  }

  lemma {:induction false} LongOver(h: Header, src: seq<byte>, ip: nat, bitCount: nat, bitStream: nat, run: nat,
                                    rest: BitString, v: nat, seen: bool)
    requires h.good && InRun(h, src, ip, bitCount, bitStream, run, rest, v, seen) && Low(bitStream, 16) != 0xFFFF
    requires ip + 5 < |src| ==> bitCount <= 7
    ensures run >= 24 ==> ip + 5 == |src| && bitCount > 16 && !seen
  {
    hide HeaderOk, NCountBits, ZeroRun, Ahead, Low, Shr, LE, Counters, Visible, Window, Clean;
    if run >= 24 {
      var q := EndOf(h, rest, v);
      if ip + 4 >= |src| { CoversVisible(h, src, ip, rest, v); }
      if bitCount <= 16 || Visible(src, ip, q) { ShowsLong(h, src, ip, bitCount, bitStream, run, rest, v); }
    }
  }

  lemma {:induction false} ShrSmaller(x: nat)
    requires Low(x, 16) == 0xFFFF
    ensures Shr(x, 16) < x
  {
    hide Low, Shr;
    Split(x, 16);
    ShlMono2(Shr(x, 16), 16);
  }

  lemma {:induction false} ShlMono2(q: nat, n: nat)
    ensures q <= Shl(q, n)
  {
    if n > 0 { ShlMono2(q, n - 1); }
  }

  /** Repeat codes of three zeros: at most seven of them, since sixteen ones would have been seen. */
  method ReadShortRuns(src: seq<byte>, ip: nat, bitCount0: nat, bitStream0: nat, n: nat,
                       ghost h: Header, ghost run0: nat, ghost rest: BitString, ghost v: nat, ghost seen: bool)
    returns (n0: nat, bitCount: nat, bitStream: nat, ghost run: nat)
    requires Low(bitStream0, 16) != 0xFFFF && InRun(h, src, ip, bitCount0, bitStream0, run0, rest, v, seen)
    ensures bitCount0 <= bitCount <= bitCount0 + 14 && Low(bitStream, 2) != 3 && n <= n0 <= n + 21
    ensures h.good && run0 < 24 ==> InRun(h, src, ip, bitCount, bitStream, run, rest, v, seen) && run < 24 && n0 + run == n + run0
    ensures h.good && run0 < 24 && bitCount0 <= 32 ==> bitCount <= 32
    ensures h.good && run0 >= 24 ==> bitCount > 30 && Low(bitStream, 2) <= 1 && Shr(bitStream, 2) == 0
    ensures ShortRuns(Cursor(ip, bitCount0, bitStream0), n) == (Cursor(ip, bitCount, bitStream), n0)
  {
    hide InRun, Low, Shr, LE, Pow2;
    n0, bitCount, bitStream, run := n, bitCount0, bitStream0, run0;
    ghost var k: nat := 0;
    NoOnes(bitStream0);
    while Low(bitStream, 2) == 3
      invariant k <= 7 && n0 == n + k + k + k && bitCount == bitCount0 + k + k && bitStream == Shr(bitStream0, k + k)
      invariant Low(bitStream0, k + k) == Pow2(k + k) - 1
      invariant h.good && run0 < 24 ==> InRun(h, src, ip, bitCount, bitStream, run, rest, v, seen) && run < 24 && n0 + run == n + run0
      invariant h.good && run0 < 24 && bitCount0 <= 32 ==> bitCount <= 32
      invariant ShortRuns(Cursor(ip, bitCount0, bitStream0), n) == ShortRuns(Cursor(ip, bitCount, bitStream), n0)
      decreases 8 - k
    {
      if h.good && run0 < 24 { ShortStep(h, src, ip, bitCount, bitStream, run, rest, v, seen); }
      MoreOnes(bitStream0, k, 16);
      n0 := n0 + 3;
      bitStream := Shr(bitStream, 2);
      bitCount := bitCount + 2;
      k := k + 1;
      if h.good && run0 < 24 { run := run - 3; }
    }
    if h.good && run0 >= 24 { OnesOver(h, src, ip, bitCount0, bitStream0, run0, rest, v, seen, k); }
  }

  lemma {:induction false} ShortStep(h: Header, src: seq<byte>, ip: nat, bitCount: nat, bitStream: nat, run: nat,
                                     rest: BitString, v: nat, seen: bool)
    requires h.good && InRun(h, src, ip, bitCount, bitStream, run, rest, v, seen) && run < 24 && Low(bitStream, 2) == 3
    ensures run >= 3 && bitCount <= 30 && InRun(h, src, ip, bitCount + 2, Shr(bitStream, 2), run - 3, rest, v, seen)
  {
    hide RunNext, Low, Shr, LE, Counters, Visible, EndOf;
    SawShort(h, src, ip, bitCount, bitStream, run, rest);
  }

  /** In the middle of a long run, a pair other than 3 is past the end of the register. */
  lemma {:induction false} OnesOver(h: Header, src: seq<byte>, ip: nat, bitCount: nat, bitStream: nat, run: nat,
                                    rest: BitString, v: nat, seen: bool, k: nat)
    requires h.good && InRun(h, src, ip, bitCount, bitStream, run, rest, v, seen) && run >= 24 && k <= 7 && Low(Shr(bitStream, k + k), 2) != 3
    ensures bitCount + k + k > 30 && Low(Shr(bitStream, k + k), 2) <= 1 && Shr(Shr(bitStream, k + k), 2) == 0
  {
    hide HeaderOk, NCountBits, ZeroRun, Low, Shr, LE, Counters, Visible, Clean;
    var p := Times8(ip) + bitCount;
    LongRunSeen(LE(src), p, run, rest);
    PairOfOnes(LE(src), p, 16, k + k);
    WindowSkip(src, ip, bitCount, bitStream, k + k);
    if bitCount + k + k <= 30 {
      WindowSlice32(src, ip, bitCount, bitStream, k + k, 2);
    } else {
      FewPairs(src, ip, bitCount + k + k, Shr(bitStream, k + k));
    }
  }

  lemma {:induction false} NoOnes(x: nat)
    ensures Low(x, 0) == Pow2(0) - 1 && Shr(x, 0) == x
  {
  }

  lemma {:induction false} MoreOnes(x: nat, k: nat, w: nat)
    requires w == 16 && k <= 7 && Low(x, k + k) == Pow2(k + k) - 1 && Low(Shr(x, k + k), 2) == 3 && Low(x, w) != 0xFFFF
    ensures Low(x, k + 1 + k + 1) == Pow2(k + 1 + k + 1) - 1 && k < 7
    ensures Shr(Shr(x, k + k), 2) == Shr(x, k + 1 + k + 1)
  {
    hide Low, Shr, Shl, Pow2;
    var n: nat := k + k;
    LowParts(x, n, 2);
    ShrShr(x, n, 2);
    ThreeTimes(n);
    Pow2Sixteen();
  }

  lemma {:induction false} ThreeTimes(n: nat)
    ensures Shl(3, n) == Pow2(n) + Pow2(n) + Pow2(n) && Pow2(n + 2) == Pow2(n) + Pow2(n) + Pow2(n) + Pow2(n)
  {
    hide Shl;
    assert Pow2(n + 1) == Pow2(n) + Pow2(n);
    ShlOne(n);
    ShlAdd(1, 2, n);
    ShlAdd(1, 1, n);
  }

  /** The bits `a` are next in the register and the stream of a known header. */
  ghost predicate Ready(h: Header, src: seq<byte>, ip: nat, bitCount: nat, bitStream: nat, a: BitString) {
    h.good ==>
      && HeaderOk(h, src) && Next(h, src, ip, bitCount, a) && (bitCount <= 7 || Covers(h, ip))
      && (a.len > 0 ==> Window(src, ip, bitCount, bitStream))
  }

  /** The bits `a` are next in the stream, and the register shows the first `v` of them. */
  ghost predicate ReadyFor(h: Header, src: seq<byte>, ip: nat, bitCount: nat, bitStream: nat, a: BitString, v: nat) {
    h.good ==>
      && HeaderOk(h, src) && Next(h, src, ip, bitCount, a) && Window(src, ip, bitCount, bitStream)
      && v <= a.len && (bitCount + v <= 32 || Visible(src, ip, EndOf(h, a, v)))
  }

  lemma {:induction false} ReadyShows(h: Header, src: seq<byte>, ip: nat, bitCount: nat, bitStream: nat, a: BitString, v: nat)
    requires h.good && Ready(h, src, ip, bitCount, bitStream, a) && 0 < v <= a.len && v <= 16
    ensures ReadyFor(h, src, ip, bitCount, bitStream, a, v)
  {
    hide HeaderOk, NCountBits, Ahead, Low, Shr, LE, Slice, Window, Counters;
  }

  /** Moving to the byte that holds the next bit. */
  lemma {:induction false} Moved(h: Header, src: seq<byte>, ip: nat, bitCount: nat, a: BitString)
    requires h.good && HeaderOk(h, src) && Next(h, src, ip, bitCount, a)
    ensures var ip', bc' := ip + Shr(bitCount, 3), Low(bitCount, 3);
            ip' + 4 <= |src| ==> Ready(h, src, ip', bc', Shr(LE(src[ip'..ip' + 4]), bc'), a)
  {
    hide HeaderOk, NCountBits, Ahead, Low, Shr, LE;
    BytesAndBits(bitCount);
    assert Times8(ip + Shr(bitCount, 3)) + Low(bitCount, 3) == Times8(ip) + bitCount;
  }

  /** Moving to the last 32-bit word of the input: the shift count is below 32 unless nothing is left. */
  lemma {:induction false} MovedLast(h: Header, src: seq<byte>, ip: nat, bitCount: nat, a: BitString)
    requires h.good && HeaderOk(h, src) && Next(h, src, ip, bitCount, a) && ip + 4 <= |src| && Times8(|src| - 4 - ip) <= bitCount
    ensures var last, bc' := |src| - 4, bitCount - Times8(|src| - 4 - ip);
            && (a.len > 0 ==> bc' < 32)
            && Ready(h, src, last, bc', Shr(LE(src[last..last + 4]), Low(bc', 5)), a)
  {
    hide HeaderOk, NCountBits, Ahead, Low, Shr, LE, Counters;
    CoversLate(h, src, |src| - 4);
    assert Times8(|src| - 4) + (bitCount - Times8(|src| - 4 - ip)) == Times8(ip) + bitCount;
    if a.len > 0 { LowFive(bitCount - Times8(|src| - 4 - ip)); }
  }

  // ---------- a run of zeros ----------

  /** The pair after the repeat codes, for a run that is seen. */
  lemma {:induction false} PairKnown(h: Header, src: seq<byte>, ip: nat, bitCount: nat, bitStream: nat, run: nat,
                                     rest: BitString, v: nat, seen: bool)
    requires h.good && InRun(h, src, ip, bitCount, bitStream, run, rest, v, seen) && run < 24 && Low(bitStream, 2) != 3
    requires bitCount <= 30 || (seen && ip + 5 >= |src|)
    ensures run < 3 && Low(bitStream, 2) == run
  {
    hide HeaderOk, NCountBits, Ahead, Low, Shr, LE, Slice, Counters, Visible, Clean, ZeroRun;
    var q := EndOf(h, rest, v);
    ZeroRunLength(run);
    if ip + 4 >= |src| { CoversVisible(h, src, ip, rest, v); }
    FieldInRegister(src, ip, bitCount, bitStream, 2, q);
    ShortRunSeen(LE(src), Times8(ip) + bitCount, run, rest);
  }

  lemma {:induction false} ZeroRunLength(n: nat)
    ensures ZeroRun(n).len >= 2
  {
    hide Shl;
    if n >= 24 { ZeroRunLength(n - 24); } else if n >= 3 { ZeroRunLength(n - 3); }
  }

  /** After the last code of a run, at the byte that holds the next bit. */
  lemma {:induction false} RunMoved(h: Header, src: seq<byte>, ip: nat, bitCount: nat, rest: BitString, v: nat)
    requires h.good && HeaderOk(h, src) && Next(h, src, ip, bitCount, rest) && 0 < v <= rest.len && v <= 16
    requires ip + 4 <= |src| && (ip + 7 <= |src| || ip + Shr(bitCount, 3) + 4 <= |src|) && (ip + 7 <= |src| ==> bitCount <= 31)
    ensures var ip', bc' := ip + Shr(bitCount, 3), Low(bitCount, 3);
            ip' + 4 <= |src| && bc' <= 7 && ReadyFor(h, src, ip', bc', Shr(LE(src[ip'..ip' + 4]), bc'), rest, v)
  {
    hide HeaderOk, Counters, NCountBits, Ahead, Low, Shr, LE, Ready, Next;
    BytesAndBits(bitCount);
    Moved(h, src, ip, bitCount, rest);
    var ip', bc' := ip + Shr(bitCount, 3), Low(bitCount, 3);
    ReadyShows(h, src, ip', bc', Shr(LE(src[ip'..ip' + 4]), bc'), rest, v);
  }

  /** After the last code of a run that is seen, in the same word. */
  lemma {:induction false} RunStays(h: Header, src: seq<byte>, ip: nat, bitCount: nat, bitStream: nat, run: nat,
                                    rest: BitString, v: nat, seen: bool)
    requires h.good && InRun(h, src, ip, bitCount, bitStream, run, rest, v, seen) && run < 3
    requires seen && ip + 5 >= |src| && (ip + 5 == |src| ==> bitCount + 2 >= 16)
    ensures ReadyFor(h, src, ip, bitCount + 2, Shr(bitStream, 2), rest, v)
  {
    hide HeaderOk, Counters, NCountBits, Ahead, Low, Shr, LE, ZeroRun, Cat, Slice, Clean, Window, Visible;
    RunOver(h, src, ip, bitCount, bitStream, run, rest);
    WindowSkip(src, ip, bitCount, bitStream, 2);
    if ip + 4 >= |src| { CoversVisible(h, src, ip, rest, v); }
  }

  /** A run that is seen: its last code, and the move after it. */
  lemma {:induction false} RunDone(h: Header, src: seq<byte>, ip: nat, bitCount: nat, bitStream: nat, run: nat,
                                   rest: BitString, v: nat, seen: bool)
    requires h.good && InRun(h, src, ip, bitCount, bitStream, run, rest, v, seen) && run < 24 && Low(bitStream, 2) != 3
    requires seen && 0 < v <= 16 && ip + 4 <= |src| && (ip + 5 < |src| ==> bitCount <= 21)
    ensures run < 3 && Low(bitStream, 2) == run
    ensures var ip', bc' := ip + Shr(bitCount + 2, 3), Low(bitCount + 2, 3);
            if ip + 7 <= |src| || ip' + 4 <= |src|
            then ip' + 4 <= |src| && bc' <= 7 && ReadyFor(h, src, ip', bc', Shr(LE(src[ip'..ip' + 4]), bc'), rest, v)
            else ReadyFor(h, src, ip, bitCount + 2, Shr(bitStream, 2), rest, v)
  {
    hide InRun, RunNext, HeaderOk, Low, Shr, LE, ReadyFor, Next;
    PairKnown(h, src, ip, bitCount, bitStream, run, rest, v, seen);
    RunFacts(h, src, ip, bitCount, bitStream, run, rest, v, seen);
    BytesAndBits(bitCount + 2);
    if ip + 7 <= |src| || ip + Shr(bitCount + 2, 3) + 4 <= |src| {
      RunMoved(h, src, ip, bitCount + 2, rest, v);
    } else {
      RunStays(h, src, ip, bitCount, bitStream, run, rest, v, seen);
    }
  }

  lemma {:induction false} RunFacts(h: Header, src: seq<byte>, ip: nat, bitCount: nat, bitStream: nat, run: nat,
                                    rest: BitString, v: nat, seen: bool)
    requires h.good && InRun(h, src, ip, bitCount, bitStream, run, rest, v, seen) && run < 3
    ensures HeaderOk(h, src) && h.L >= MIN_TABLELOG && Counters(h.norm) && v <= rest.len && Next(h, src, ip, bitCount + 2, rest)
  {
    hide HeaderOk, Counters, NCountBits, Ahead, Low, Shr, LE, Cat, Slice, Clean, Window, Visible, RunSeen;
    RunOver(h, src, ip, bitCount, bitStream, run, rest);
  }

  // ---------- a run that is not seen ----------

  /** Bits that are past the end of the register, and not all zeros: what the register shows instead is different. */
  lemma {:induction false} BitsLost(src: seq<byte>, ip: nat, bitCount: nat, bitStream: nat, rest: BitString, v: nat)
    requires Window(src, ip, bitCount, bitStream) && Ahead(LE(src), Times8(ip) + bitCount, rest) && v <= rest.len
    requires !Visible(src, ip, Times8(ip) + bitCount + v)
    requires bitCount > 32 ==> Slice(LE(src), Times8(ip) + 32, bitCount - 32) == 0
    ensures Low(bitStream, v) != Low(rest.val, v)
  {
    hide LE, Low, Shr, Shl, Pow2, Clean;
    var stream, P, W := LE(src), Times8(ip) + bitCount, Times8(ip) + 32;
    LowLow(Shr(stream, P), v, rest.len);
    assert Low(rest.val, v) == Slice(stream, P, v);
    RegisterBound(src, ip, bitCount, bitStream);
    if bitCount <= 32 {
      var m := 32 - bitCount;
      WindowBits(src, ip, bitCount, bitStream, m);
      Pow2Mono(m, v);
      LowSmall(bitStream, v);
      LowSmall(bitStream, m);
      SliceJoin(stream, P, m, v - m);
      ShlMono2(Slice(stream, W, v - m), m);
    } else {
      ZeroLow(v);
      SliceJoin(stream, W, bitCount - 32, v);
      ShlZero(bitCount - 32);
    }
  }

  /** What is read of a run that is not seen: too few zeros and then nothing, or all of it and then wrong bits. */
  ghost predicate Lost(src: seq<byte>, ip: nat, bitStream: nat, rest: BitString, v: nat, n0: nat, end: nat) {
    && ip + 5 == |src| && n0 <= end
    && (n0 < end ==> bitStream == 0)
    && (n0 == end ==> v <= rest.len && Low(bitStream, v) != Low(rest.val, v))
  }

  /** The last pair, when it lies within the word. */
  lemma {:induction false} LostAfter(h: Header, src: seq<byte>, ip: nat, bitCount: nat, bitStream: nat, run: nat,
                                     rest: BitString, v: nat, seen: bool)
    requires h.good && InRun(h, src, ip, bitCount, bitStream, run, rest, v, seen) && run < 3 && !seen
    requires bitCount + 2 > 32 ==> Slice(LE(src), Times8(ip) + 32, bitCount - 30) == 0
    ensures ip + 5 == |src| && bitCount + 2 >= 16
    ensures v <= rest.len && Low(Shr(bitStream, 2), v) != Low(rest.val, v)
  {
    hide HeaderOk, Counters, NCountBits, Ahead, Low, Shr, LE, Cat, Slice, Clean, Window, Visible;
    RunOver(h, src, ip, bitCount, bitStream, run, rest);
    WindowSkip(src, ip, bitCount, bitStream, 2);
    assert ZeroRun(run).len == 2;
    BitsLost(src, ip, bitCount + 2, Shr(bitStream, 2), rest, v);
  }

  /** The last pair, when it does not. */
  lemma {:induction false} LostPair(h: Header, src: seq<byte>, ip: nat, bitCount: nat, bitStream: nat, run: nat, rest: BitString)
    requires h.good && RunNext(h, src, ip, bitCount, bitStream, run, rest) && run < 24 && 30 < bitCount <= 32
    ensures Low(bitStream, 2) <= run && Shr(bitStream, 2) == 0
    ensures Low(bitStream, 2) == run ==> run < 3 && Slice(LE(src), Times8(ip) + 32, bitCount - 30) == 0
  {
    hide HeaderOk, NCountBits, ZeroRun, Ahead, Low, Shr, LE, Slice, Clean;
    var p := Times8(ip) + bitCount;
    FewPairs(src, ip, bitCount, bitStream);
    ShortRunSeen(LE(src), p, run, rest);
    SliceJoin(LE(src), p, 1, 1);
    assert Shl(Slice(LE(src), p + 1, 1), 1) == Slice(LE(src), p + 1, 1) + Slice(LE(src), p + 1, 1);
  }

  lemma {:induction false} LostShort(h: Header, src: seq<byte>, ip: nat, bitCount: nat, bitStream: nat, run: nat,
                                     rest: BitString, v: nat, seen: bool, n: nat)
    requires h.good && InRun(h, src, ip, bitCount, bitStream, run, rest, v, seen) && run < 24 && Low(bitStream, 2) != 3 && !seen
    requires ip + 5 == |src| ==> bitCount <= 32
    ensures ip + 5 == |src| && bitCount + 2 >= 16
    ensures Lost(src, ip, Shr(bitStream, 2), rest, v, n + Low(bitStream, 2), n + run)
  {
    hide HeaderOk, Counters, NCountBits, Ahead, Low, Shr, LE, Cat, Slice, Clean, Window, Visible, ZeroRun;
    assert ip + 5 == |src|;
    if bitCount <= 30 {
      PairKnown(h, src, ip, bitCount, bitStream, run, rest, v, seen);
      LostAfter(h, src, ip, bitCount, bitStream, run, rest, v, seen);
    } else {
      LostPair(h, src, ip, bitCount, bitStream, run, rest);
      if Low(bitStream, 2) == run { LostAfter(h, src, ip, bitCount, bitStream, run, rest, v, seen); }
    }
  }

  /** Before a run, its zeros and the first `v` bits after it to be read. */
  ghost predicate AtRun(h: Header, src: seq<byte>, ip: nat, bitCount: nat, bitStream: nat, run: nat, rest: BitString, v: nat, seen: bool) {
    h.good ==>
      && Ready(h, src, ip, bitCount, bitStream, Cat(ZeroRun(run), rest)) && Clean(rest) && 0 < v <= rest.len && v <= 16
      && h.L >= MIN_TABLELOG && Counters(h.norm) && (seen <==> RunSeen(h, src, ip, run, rest, v))
  }

  /** The run of zeros after a symbol without a counter. */
  method ReadRun(src: seq<byte>, ip0: nat, bitCount0: nat, bitStream0: nat, charnum: nat,
                 ghost h: Header, ghost run0: nat, ghost rest: BitString, ghost v: nat, ghost seen: bool)
    returns (n0: nat, ip: nat, bitCount: nat, bitStream: nat)
    requires ip0 + 4 <= |src| && (ip0 + 4 < |src| ==> bitCount0 <= 7)
    requires AtRun(h, src, ip0, bitCount0, bitStream0, run0, rest, v, seen)
    ensures n0 >= charnum && ip + 4 <= |src| && (ip + 7 <= |src| ==> bitCount <= 7)
    ensures h.good && seen ==> n0 == charnum + run0 && ReadyFor(h, src, ip, bitCount, bitStream, rest, v)
    ensures h.good && !seen ==> Lost(src, ip, bitStream, rest, v, n0, charnum + run0)
    ensures RunRead(src, Cursor(ip0, bitCount0, bitStream0), charnum) == (Cursor(ip, bitCount, bitStream), n0)
  {
    hide AtRun, InRun, Ready, ReadyFor, Lost, Low, Shr, LE, LongRuns, ShortRuns;
    ghost var run: nat;
    RunStarts(h, src, ip0, bitCount0, bitStream0, run0, rest, v, seen);
    n0, ip, bitCount, bitStream, run := ReadLongRuns(src, ip0, bitCount0, bitStream0, charnum, h, run0, rest, v, seen);
    ghost var run1, n1 := run, n0;
    n0, bitCount, bitStream, run := ReadShortRuns(src, ip, bitCount, bitStream, n0, h, run, rest, v, seen);
    if h.good { RunAfter(h, src, ip, bitCount, bitStream, run1, run, rest, v, seen, n1, n0); }
    PairBound(bitStream);
    n0 := n0 + Low(bitStream, 2);
    bitCount := bitCount + 2;
    BytesAndBits(bitCount);
    if ip + 7 <= |src| || ip + Shr(bitCount, 3) + 4 <= |src| {
      ip := ip + Shr(bitCount, 3);
      bitCount := Low(bitCount, 3);
      bitStream := Shr(LE(src[ip..ip + 4]), bitCount);
    } else {
      bitStream := Shr(bitStream, 2);
    }
  }

  lemma {:induction false} PairBound(x: nat)
    ensures Low(x, 2) <= 3
  {
    Split(x, 2);
    assert Pow2(2) == 4;
  }

  lemma {:induction false} RunStarts(h: Header, src: seq<byte>, ip: nat, bitCount: nat, bitStream: nat, run: nat,
                                     rest: BitString, v: nat, seen: bool)
    requires AtRun(h, src, ip, bitCount, bitStream, run, rest, v, seen)
    ensures InRun(h, src, ip, bitCount, bitStream, run, rest, v, seen) && (h.good ==> 0 < v <= 16)
  {
    hide HeaderOk, NCountBits, RunSeen, Window, Ahead, ZeroRun;
    if h.good { ZeroRunLength(run); }
  }

  /** The end of a run, seen or not: where the reader goes on, and with which zeros and bits. */
  lemma {:induction false} RunAfter(h: Header, src: seq<byte>, ip: nat, bitCount: nat, bitStream: nat, run1: nat, run: nat, rest: BitString,
                                    v: nat, seen: bool, n1: nat, n0: nat)
    requires h.good && 0 < v <= 16 && ip + 4 <= |src| && n0 <= n1 + 21 && Low(bitStream, 2) != 3
    requires run1 < 24 ==> InRun(h, src, ip, bitCount, bitStream, run, rest, v, seen) && run < 24 && n0 + run == n1 + run1
    requires run1 < 24 && ip + 5 == |src| ==> bitCount <= 32
    requires run1 >= 24 ==> ip + 5 == |src| && !seen && bitCount > 30 && Low(bitStream, 2) <= 1 && Shr(bitStream, 2) == 0
    requires ip + 5 < |src| ==> bitCount <= 21
    ensures var ip', bc' := ip + Shr(bitCount + 2, 3), Low(bitCount + 2, 3);
            if ip + 7 <= |src| || ip' + 4 <= |src|
            then ip' + 4 <= |src| && seen && ReadyFor(h, src, ip', bc', Shr(LE(src[ip'..ip' + 4]), bc'), rest, v)
            else if seen then ReadyFor(h, src, ip, bitCount + 2, Shr(bitStream, 2), rest, v)
            else Lost(src, ip, Shr(bitStream, 2), rest, v, n0 + Low(bitStream, 2), n1 + run1)
    ensures seen ==> n0 + Low(bitStream, 2) == n1 + run1
  {
    hide InRun, ReadyFor, Low, Shr, LE;
    BytesAndBits(bitCount + 2);
    if run1 < 24 {
      if seen {
        RunDone(h, src, ip, bitCount, bitStream, run, rest, v, seen);
      } else {
        LostShort(h, src, ip, bitCount, bitStream, run, rest, v, seen, n0);
      }
    }
  }

  // ---------- a counter ----------

  lemma {:induction false} CountReady(h: Header, src: seq<byte>, ip: nat, bitCount: nat, bitStream: nat, remaining: nat, x: int, rest: BitString)
    requires h.good && remaining > 1 && -1 <= x < remaining && HighBit(remaining) <= 15 && Clean(rest)
    requires ReadyFor(h, src, ip, bitCount, bitStream, Cat(CountField(x, remaining), rest), CountField(x, remaining).len)
    ensures ReadCount(bitStream, remaining) == (x, CountField(x, remaining).len)
    ensures HeaderOk(h, src) && Next(h, src, ip, bitCount + CountField(x, remaining).len, rest)
  {
    hide HeaderOk, Counters, NCountBits, Ahead, Low, Shr, LE, CountField, ReadCount, Slice, Visible;
    var f := CountField(x, remaining);
    HeaderBounds(h, src);
    CountFieldClean(x, remaining);
    NextSplit(h, src, ip, bitCount, f, rest);
    FieldInRegister(src, ip, bitCount, bitStream, f.len, EndOf(h, Cat(f, rest), f.len));
    CountRead(x, remaining, bitStream);
  }

  /** Other bits are another counter. */
  lemma {:induction false} CountWrong(x: int, remaining: nat, bits: nat)
    requires remaining > 1 && -1 <= x < remaining
    requires var f := CountField(x, remaining); Low(bits, f.len) != f.val
    ensures ReadCount(bits, remaining).0 != x
  {
    LowTop(bits, HighBit(remaining));
    Split(bits, HighBit(remaining));
  }

  /** Only zeros are the counter -1. */
  lemma {:induction false} CountOfZeros(remaining: nat)
    requires remaining > 1
    ensures ReadCount(0, remaining).0 == -1
  {
    hide Low;
    ZeroLow(HighBit(remaining));
    ZeroLow(HighBit(remaining) + 1);
  }

  /** One counter, and the move after it; near the end of the input the 32-bit word stays where it is. */
  method ReadOne(src: seq<byte>, ip0: nat, bitCount0: nat, bitStream0: nat, remaining: nat,
                 ghost h: Header, ghost x: int, ghost rest: BitString)
    returns (count: int, ip: nat, bitCount: nat, bitStream: nat)
    requires ip0 + 4 <= |src| && (ip0 + 7 <= |src| ==> bitCount0 <= 7)
    requires remaining > 1 && HighBit(remaining) <= 15
    requires h.good ==> -1 <= x < remaining && Clean(rest)
    requires h.good ==> ReadyFor(h, src, ip0, bitCount0, bitStream0, Cat(CountField(x, remaining), rest), CountField(x, remaining).len)
    ensures count == ReadCount(bitStream0, remaining).0 && -1 <= count < remaining && remaining - Freq(count) >= 1
    ensures ip + 4 <= |src| && (ip + 4 < |src| ==> bitCount <= 7)
    ensures h.good ==> count == x
    ensures Ready(h, src, ip, bitCount, bitStream, rest)
    ensures FieldRead(src, Cursor(ip0, bitCount0, bitStream0), remaining) == (Cursor(ip, bitCount, bitStream), count)
  {
    hide Ready, ReadyFor, Next, HeaderOk, NCountBits, ReadCount, CountField, Low, Shr, LE, HighBit, Clean, Cat, Pow2;
    CountInRange(bitStream0, remaining);
    if h.good { CountReady(h, src, ip0, bitCount0, bitStream0, remaining, x, rest); }
    var (c, w) := ReadCount(bitStream0, remaining);
    count := c;
    ip, bitCount := ip0, bitCount0 + w;
    BytesAndBits(bitCount);
    if ip + 7 <= |src| || ip + Shr(bitCount, 3) + 4 <= |src| {
      if h.good { Moved(h, src, ip, bitCount, rest); }
      ip := ip + Shr(bitCount, 3);
      bitCount := Low(bitCount, 3);
      LowFive(bitCount);
    } else {
      if h.good { MovedLast(h, src, ip, bitCount, rest); }
      bitCount := bitCount - Times8(|src| - 4 - ip);
      ip := |src| - 4;
    }
    bitStream := Shr(LE(src[ip..ip + 4]), Low(bitCount, 5));
    if !h.good { NotReady(h, src, ip, bitCount, bitStream, rest); }
  }

  lemma {:induction false} NotReady(h: Header, src: seq<byte>, ip: nat, bitCount: nat, bitStream: nat, a: BitString)
    requires !h.good
    ensures Ready(h, src, ip, bitCount, bitStream, a)
  {
  }

  // ---------- the whole reader ----------

  /** (short)count. */
  function ToShort(x: int): int {
    if x >= 0x8000 then x - 0x1_0000 else x
  }

  /** Counters read so far: they add up, and are at least -1 unless one wrapped in a 16-bit short. */
  ghost predicate ReadSoFar(norm: seq<int>, L: nat, charnum: nat, remaining: nat) {
    && charnum <= |norm| && remaining >= 1 && FreqSum(norm, charnum) + remaining == Pow2(L) + 1
    && (L < TABLELOG_ABSOLUTE_MAX ==> forall k | 0 <= k < charnum :: norm[k] >= -1)
    && (forall k | charnum <= k < |norm| :: norm[k] == 0)
  }

  lemma {:induction false} ReadNext(norm: seq<int>, L: nat, charnum: nat, remaining: nat, count: int)
    requires ReadSoFar(norm, L, charnum, remaining) && charnum < |norm| && L <= TABLELOG_ABSOLUTE_MAX
    requires -1 <= count < remaining && remaining - Freq(count) >= 1
    ensures ReadSoFar(norm[charnum := ToShort(count)], L, charnum + 1, remaining - Freq(count))
  {
    FreqSumSame(norm[charnum := ToShort(count)], norm, charnum);
    FifteenBits();
    Pow2Mono(L, 15);
    if L < 15 { Pow2Mono(L, 14); }
  }

  /** The symbols passed over by a run keep a zero counter. */
  lemma {:induction false} ReadZeros(norm: seq<int>, L: nat, charnum: nat, remaining: nat, n0: nat)
    requires ReadSoFar(norm, L, charnum, remaining) && charnum <= n0 <= |norm|
    ensures ReadSoFar(norm, L, n0, remaining) && forall k | charnum <= k < n0 :: norm[k] == 0
  {
    ZerosSum(norm, charnum, n0);
  }

  /** The reader is at symbol `charnum` of a known header. */
  ghost predicate InStep(h: Header, src: seq<byte>, norm: seq<int>, charnum: nat, remaining: nat, prev0: bool,
                         ip: nat, bitCount: nat, bitStream: nat)
  {
    h.good ==>
      && HeaderOk(h, src) && charnum <= |h.norm| <= |norm| && remaining == Remaining(h.norm, h.L, charnum)
      && (forall k | 0 <= k < charnum :: norm[k] == h.norm[k])
      && Ready(h, src, ip, bitCount, bitStream, FieldsFrom(h.norm, h.L, charnum, prev0))
  }

  /** In step, the next field is that of symbol `j`, after a run of `j` - `charnum` zeros if `prev0`. */
  lemma {:induction false} StepOpens(h: Header, src: seq<byte>, norm: seq<int>, charnum: nat, remaining: nat, prev0: bool,
                                     ip: nat, bitCount: nat, bitStream: nat) returns (j: nat, rest: BitString)
    requires h.good && InStep(h, src, norm, charnum, remaining, prev0, ip, bitCount, bitStream) && remaining > 1
    ensures HeaderOk(h, src) && Counters(h.norm) && h.L >= MIN_TABLELOG
    ensures charnum <= j < |h.norm| <= |norm| && j == (if prev0 then FirstUsed(h.norm, charnum) else charnum)
    ensures remaining == Remaining(h.norm, h.L, charnum) && forall k | charnum <= k < j :: h.norm[k] == 0
    ensures -1 <= h.norm[j] < remaining && Clean(rest) && Clean(Cat(CountField(h.norm[j], remaining), rest))
    ensures rest == FieldsFrom(h.norm, h.L, j + 1, h.norm[j] == 0)
    ensures Remaining(h.norm, h.L, j + 1) == remaining - Freq(h.norm[j])
    ensures var fields := Cat(CountField(h.norm[j], remaining), rest);
            Ready(h, src, ip, bitCount, bitStream, if prev0 then Cat(ZeroRun(j - charnum), fields) else fields)
  {
    hide Ready, HeaderOk, CountField, Cat, Clean, ZeroRun, FieldsFrom, Remaining, NormOk, NCountForm, Counters;
    HeaderParts(h, src, charnum, remaining);
    NextFields(h.norm, h.L, charnum, prev0);
    j := if prev0 then FirstUsed(h.norm, charnum) else charnum;
    rest := FieldsFrom(h.norm, h.L, j + 1, h.norm[j] == 0);
    CounterAt(h.norm, j);
  }

  lemma {:induction false} CounterAt(norm: seq<int>, j: nat)
    requires Counters(norm) && j < |norm|
    ensures norm[j] >= -1
  {
  }

  lemma {:induction false} HeaderParts(h: Header, src: seq<byte>, charnum: nat, remaining: nat)
    requires h.good && HeaderOk(h, src) && charnum <= |h.norm| && remaining == Remaining(h.norm, h.L, charnum) && remaining > 1
    ensures NormOk(h.norm, h.L) && Counters(h.norm) && h.L >= MIN_TABLELOG && charnum < |h.norm|
  {
    hide NCountForm, FreqSum, Pow2;
    RemainingEnds(h.norm, h.L);
  }

  // ---------- which descriptions are seen as they are ----------

  /** The word at which the reader is at position `p`. */
  ghost function WordAt(src: seq<byte>, p: int): nat {
    if p < 0 || |src| < 4 then 0 else if Shr(p, 3) <= |src| - 4 then Shr(p, 3) else |src| - 4
  }

  /** The run of zeros before the next symbol in use, and the counter after it, are seen as they are. */
  ghost predicate SymbolSeen(h: Header, src: seq<byte>, i: nat)
    requires h.good && h.L >= MIN_TABLELOG && Counters(h.norm) && i <= |h.norm|
  {
    var j := FirstUsed(h.norm, i);
    j < |h.norm| ==>
      var f := CountField(h.norm[j], Remaining(h.norm, h.L, i));
      RunSeen(h, src, WordAt(src, NCountBits(h.norm, h.L).len - FieldsFrom(h.norm, h.L, i, true).len), j - i,
              Cat(f, FieldsFrom(h.norm, h.L, j + 1, h.norm[j] == 0)), f.len)
  }

  /** So are all runs from symbol `i` on. */
  ghost predicate AllSeen(h: Header, src: seq<byte>, i: nat, prev0: bool)
    requires h.good && h.L >= MIN_TABLELOG && Counters(h.norm) && i <= |h.norm|
    decreases |h.norm| - i
  {
    var j := if prev0 then FirstUsed(h.norm, i) else i;
    Remaining(h.norm, h.L, i) <= 1 || j == |h.norm|
    || ((prev0 ==> SymbolSeen(h, src, i)) && AllSeen(h, src, j + 1, h.norm[j] == 0))
  }

  /** The header is a description that the reader sees as it is. */
  ghost predicate Shown(h: Header, src: seq<byte>) {
    h.good ==> h.L >= MIN_TABLELOG && Counters(h.norm) && AllSeen(h, src, 0, false)
  }

  /** With anything after it, it is. */
  lemma {:induction false} ShownWithMore(h: Header, src: seq<byte>)
    requires HeaderOk(h, src) && (h.good ==> h.size < |src|)
    ensures Shown(h, src)
  {
    hide NormOk, NCountForm, AllSeen;
    if h.good {
      HeaderBounds(h, src);
      SeenFrom(h, src, 0, false);
    }
  }

  lemma {:induction false} SeenFrom(h: Header, src: seq<byte>, i: nat, prev0: bool)
    requires h.good && HeaderOk(h, src) && h.size < |src| && i <= |h.norm| && h.L >= MIN_TABLELOG && Counters(h.norm)
    ensures AllSeen(h, src, i, prev0)
    decreases |h.norm| - i
  {
    hide HeaderOk, RunSeen, CountField, FieldsFrom, NCountBits, Counters;
    var j := if prev0 then FirstUsed(h.norm, i) else i;
    if Remaining(h.norm, h.L, i) > 1 && j < |h.norm| {
      if prev0 { SymbolSeenWithMore(h, src, i); }
      SeenFrom(h, src, j + 1, h.norm[j] == 0);
    }
  }

  lemma {:induction false} SymbolSeenWithMore(h: Header, src: seq<byte>, i: nat)
    requires h.good && HeaderOk(h, src) && h.size < |src| && i <= |h.norm| && h.L >= MIN_TABLELOG && Counters(h.norm)
    ensures SymbolSeen(h, src, i)
  {
    hide HeaderOk, RunSeen, CountField, FieldsFrom, NCountBits, Counters, FirstUsed, Remaining, WordAt, Cat;
    var j := FirstUsed(h.norm, i);
    if j < |h.norm| {
      CounterAt(h.norm, j);
      var f, others := CountField(h.norm[j], Remaining(h.norm, h.L, i)), FieldsFrom(h.norm, h.L, j + 1, h.norm[j] == 0);
      CatLength(f, others);
      SeenWithMore(h, src, WordAt(src, NCountBits(h.norm, h.L).len - FieldsFrom(h.norm, h.L, i, true).len), j - i, Cat(f, others), f.len);
    }
  }

  lemma {:induction false} CatLength(a: BitString, b: BitString)
    ensures Cat(a, b).len == a.len + b.len
  {
  }

  /** Before a symbol: the run of zeros that is next, if there is one. */
  lemma {:induction false} RunOpens(h: Header, src: seq<byte>, norm: seq<int>, charnum: nat, remaining: nat, ip: nat,
                                    bitCount: nat, bitStream: nat,
                                    j: nat, rest: BitString)
    requires h.good && HeaderOk(h, src) && Counters(h.norm) && h.L >= MIN_TABLELOG && remaining > 1 && HighBit(remaining) <= 15
    requires charnum <= j < |h.norm| && j == FirstUsed(h.norm, charnum) && remaining == Remaining(h.norm, h.L, charnum)
    requires -1 <= h.norm[j] < remaining && rest == FieldsFrom(h.norm, h.L, j + 1, h.norm[j] == 0)
    requires Clean(Cat(CountField(h.norm[j], remaining), rest))
    requires ip + 4 <= |src| && (ip + 4 < |src| ==> bitCount <= 7)
    requires Ready(h, src, ip, bitCount, bitStream, Cat(ZeroRun(j - charnum), Cat(CountField(h.norm[j], remaining), rest)))
    ensures var f := CountField(h.norm[j], remaining);
            AtRun(h, src, ip, bitCount, bitStream, j - charnum, Cat(f, rest), f.len, SymbolSeen(h, src, charnum))
  {
    hide HeaderOk, Counters, Clean, Window, Ahead, RunSeen, HighBit, ZeroRun, Covers, Cat, FieldsFrom, NCountBits, CountField, Remaining,
      FirstUsed, WordAt, Ready;
    var f := CountField(h.norm[j], remaining);
    CountLength(h.norm[j], remaining);
    CatLength(f, rest);
    RunFields(h.norm, h.L, charnum, j);
    ReadyAt(h, src, ip, bitCount, bitStream, Cat(ZeroRun(j - charnum), Cat(f, rest)));
    AtWord(src, ip, bitCount);
  }

  lemma {:induction false} RunFields(norm: seq<int>, L: nat, i: nat, j: nat)
    requires Counters(norm) && i <= j < |norm| && j == FirstUsed(norm, i) && Remaining(norm, L, i) > 1
    ensures FieldsFrom(norm, L, i, true)
         == Cat(ZeroRun(j - i), Cat(CountField(norm[j], Remaining(norm, L, i)), FieldsFrom(norm, L, j + 1, norm[j] == 0)))
  {
    hide Cat, ZeroRun, CountField, Remaining, FirstUsed;
  }

  lemma {:induction false} ReadyAt(h: Header, src: seq<byte>, ip: nat, bitCount: nat, bitStream: nat, a: BitString)
    requires h.good && Ready(h, src, ip, bitCount, bitStream, a) && h.L >= MIN_TABLELOG && Counters(h.norm)
    ensures NCountBits(h.norm, h.L).len - a.len == Times8(ip) + bitCount
  {
    hide HeaderOk, Counters, Ahead, NCountBits, Window;
  }

  lemma {:induction false} AtWord(src: seq<byte>, ip: nat, bitCount: nat)
    requires ip + 4 <= |src| && (ip + 4 < |src| ==> bitCount <= 7)
    ensures WordAt(src, Times8(ip) + bitCount) == ip
  {
    hide Shr, Low;
    BytesAndBits(Times8(ip) + bitCount);
  }

  lemma {:induction false} CountLength(x: int, remaining: nat)
    requires remaining > 1 && -1 <= x < remaining && HighBit(remaining) <= 15
    ensures 0 < CountField(x, remaining).len <= 16
  {
    CountFieldClean(x, remaining);
  }

  // ---------- one symbol ----------

  /** A counter read is not the one that was written. */
  ghost predicate Differs(a: seq<int>, b: seq<int>, n: nat) {
    exists k: nat :: k < n && k < |a| && k < |b| && a[k] != b[k]
  }

  /** What is read for a symbol is seen as it is. */
  ghost predicate SeenHere(h: Header, src: seq<byte>, i: nat, prev0: bool) {
    h.good ==> h.L >= MIN_TABLELOG && Counters(h.norm) && i <= |h.norm| && (prev0 ==> SymbolSeen(h, src, i))
  }

  /** The symbol whose counter is next is `j`, and the bits after its counter, of `v` bits, are `rest`. */
  ghost predicate Opened(h: Header, src: seq<byte>, norm: seq<int>, charnum: nat, remaining: nat, prev0: bool,
                         ip: nat, bitCount: nat, bitStream: nat, j: nat, rest: BitString, v: nat, seen: bool)
  {
    && HeaderOk(h, src) && Counters(h.norm) && h.L >= MIN_TABLELOG && remaining > 0
    && charnum <= j < |h.norm| <= |norm| && j == (if prev0 then FirstUsed(h.norm, charnum) else charnum)
    && (forall k | charnum <= k < j :: h.norm[k] == 0)
    && -1 <= h.norm[j] < remaining && Clean(rest) && Clean(CountField(h.norm[j], remaining))
    && rest == FieldsFrom(h.norm, h.L, j + 1, h.norm[j] == 0)
    && Remaining(h.norm, h.L, j + 1) == remaining - Freq(h.norm[j])
    && v == CountField(h.norm[j], remaining).len && (seen <==> SeenHere(h, src, charnum, prev0))
    && var fields := Cat(CountField(h.norm[j], remaining), rest);
       if prev0 then AtRun(h, src, ip, bitCount, bitStream, j - charnum, fields, v, seen)
       else ReadyFor(h, src, ip, bitCount, bitStream, fields, v)
  }

  lemma {:induction false} SymbolOpens(h: Header, src: seq<byte>, norm: seq<int>, charnum: nat, remaining: nat, prev0: bool,
                                       ip: nat, bitCount: nat, bitStream: nat) returns (j: nat, rest: BitString, v: nat, seen: bool)
    requires h.good && InStep(h, src, norm, charnum, remaining, prev0, ip, bitCount, bitStream) && remaining > 1 && HighBit(remaining) <= 15
    requires ip + 4 <= |src| && (ip + 4 < |src| ==> bitCount <= 7)
    ensures Opened(h, src, norm, charnum, remaining, prev0, ip, bitCount, bitStream, j, rest, v, seen)
  {
    hide InStep, Ready, ReadyFor, AtRun, HeaderOk, CountField, Cat, Clean, ZeroRun, FieldsFrom, Remaining, Counters,
        HighBit, SymbolSeen, FirstUsed, Pow2;
    j, rest := StepOpens(h, src, norm, charnum, remaining, prev0, ip, bitCount, bitStream);
    CountLength(h.norm[j], remaining);
    CountFieldClean(h.norm[j], remaining);
    v := CountField(h.norm[j], remaining).len;
    seen := SeenHere(h, src, charnum, prev0);
    if prev0 {
      RunOpens(h, src, norm, charnum, remaining, ip, bitCount, bitStream, j, rest);
    } else {
      CatLength(CountField(h.norm[j], remaining), rest);
      ReadyShows(h, src, ip, bitCount, bitStream, Cat(CountField(h.norm[j], remaining), rest), v);
    }
  }

  /** The counter read after a run that was not seen: -1 where there should be none, or not the one written. */
  lemma {:induction false} LostCount(src: seq<byte>, ip: nat, bitStream: nat, remaining: nat, x: int, rest: BitString,
                                     n0: nat, j: nat, count: int)
    requires remaining > 1 && -1 <= x < remaining && Clean(CountField(x, remaining)) && count == ReadCount(bitStream, remaining).0
    requires Lost(src, ip, bitStream, Cat(CountField(x, remaining), rest), CountField(x, remaining).len, n0, j)
    ensures n0 <= j && (n0 < j ==> count == -1) && (n0 == j ==> count != x)
  {
    hide ReadCount, CountField, Low, Shl, Pow2;
    var f := CountField(x, remaining);
    if n0 < j {
      CountOfZeros(remaining);
    } else {
      Join(f.val, rest.val, f.len);
      CountWrong(x, remaining, bitStream);
    }
  }

  lemma {:induction false} SmallCounter(norm: seq<int>, L: nat, charnum: nat, remaining: nat, count: int)
    requires ReadSoFar(norm, L, charnum, remaining) && L <= BYTE_LIMITS.maxTableLog && -1 <= count < remaining
    ensures ToShort(count) == count
  {
    FifteenBits();
    Pow2Mono(L, 14);
  }

  /** After a run that was not seen: a counter is wrong. */
  lemma {:induction false} LostSymbol(h: Header, src: seq<byte>, norm: seq<int>, norm': seq<int>, charnum: nat, remaining: nat, prev0: bool,
                                      ip0: nat, bitCount0: nat, bitStream0: nat, j: nat, rest: BitString, v: nat,
                                      ip: nat, bitStream: nat, n0: nat, count: int)
    requires remaining > 1 && Opened(h, src, norm, charnum, remaining, prev0, ip0, bitCount0, bitStream0, j, rest, v, false)
    requires charnum <= n0 < |norm| && h.L <= BYTE_LIMITS.maxTableLog && ReadSoFar(norm, h.L, charnum, remaining)
    requires Lost(src, ip, bitStream, Cat(CountField(h.norm[j], remaining), rest), v, n0, j)
    requires count == ReadCount(bitStream, remaining).0 && -1 <= count < remaining && norm' == norm[n0 := ToShort(count)]
    ensures Differs(norm', h.norm, n0 + 1)
  {
    hide Lost, ReadSoFar, AtRun, ReadyFor, HeaderOk, Cat, CountField, ReadCount, Clean, FieldsFrom, Remaining, FirstUsed,
        Counters, SeenHere, ToShort;
    LostCount(src, ip, bitStream, remaining, h.norm[j], rest, n0, j, count);
    SmallCounter(norm, h.L, charnum, remaining, count);
    assert norm'[n0] != h.norm[n0];
  }

  /** The symbol after the next one in use. */
  ghost function NextSymbol(h: Header, i: nat, prev0: bool): nat {
    if i <= |h.norm| && prev0 then FirstUsed(h.norm, i) + 1 else i + 1
  }

  /** After a symbol: `h'` is `h` as long as everything has been seen as it is. */
  ghost predicate After(h: Header, h': Header, src: seq<byte>, norm: seq<int>, charnum0: nat, previous0: bool,
                        charnum: nat, remaining: nat, is0: bool, ip: nat, bitCount: nat, bitStream: nat)
  {
    && InStep(h', src, norm, charnum, remaining, is0, ip, bitCount, bitStream)
    && (h'.good ==> charnum == NextSymbol(h, charnum0, previous0) && 0 < charnum <= |h.norm| && (is0 <==> h.norm[charnum - 1] == 0))
    && (h.good && !h'.good ==> Differs(norm, h.norm, charnum))
  }

  /** The counters passed over are set to 0, which they were already. */
  method SkipTo(norm: array<int>, from: nat, to: nat)
    requires from <= to <= norm.Length && forall k | from <= k < to :: norm[k] == 0
    modifies norm
    ensures norm[..] == old(norm[..])
  {
    for charnum := from to to
      invariant forall k | 0 <= k < norm.Length :: norm[k] == old(norm[k])
    {
      norm[charnum] := 0;
    }
  }

  /** The zeros of a run, and the counter after it. */
  method ReadRunAndCount(norm: array<int>, src: seq<byte>, charnum: nat, previous0: bool, remaining: nat,
                         ip0: nat, bitCount0: nat, bitStream0: nat,
                         ghost h: Header, ghost h': Header, ghost run: nat, ghost rest: BitString, ghost x: int, ghost v: nat, ghost seen: bool)
    returns (n0: nat, count: int, ip: nat, bitCount: nat, bitStream: nat, ghost ip1: nat, ghost bitStream1: nat)
    requires ip0 + 4 <= |src| && (ip0 + 4 < |src| ==> bitCount0 <= 7) && remaining > 1 && HighBit(remaining) <= 15
    requires h.good ==> -1 <= x < remaining && Clean(rest) && v == CountField(x, remaining).len
    requires h.good && previous0 ==> AtRun(h, src, ip0, bitCount0, bitStream0, run, Cat(CountField(x, remaining), rest), v, seen)
    requires h.good && !previous0 ==> seen && run == 0 && ReadyFor(h, src, ip0, bitCount0, bitStream0, Cat(CountField(x, remaining), rest), v)
    requires h' == h.(good := h.good && seen)
    ensures n0 >= charnum && (!previous0 ==> n0 == charnum)
    ensures count == ReadCount(bitStream1, remaining).0 && -1 <= count < remaining && remaining - Freq(count) >= 1
    ensures ip + 4 <= |src| && (ip + 4 < |src| ==> bitCount <= 7)
    ensures h'.good ==> n0 == charnum + run && count == x
    ensures Ready(h', src, ip, bitCount, bitStream, rest)
    ensures h.good && !seen ==> Lost(src, ip1, bitStream1, Cat(CountField(x, remaining), rest), v, n0, charnum + run)
    ensures var q := Cursor(ip0, bitCount0, bitStream0);
            var (a, n) := if previous0 then RunRead(src, q, charnum) else (q, charnum);
            n == n0 && FieldRead(src, a, remaining) == (Cursor(ip, bitCount, bitStream), count)
  {
    hide RunRead, FieldRead, AtRun, Ready, ReadyFor, Lost, HighBit, CountField, Cat, Clean, ReadCount;
    n0, ip, bitCount, bitStream := charnum, ip0, bitCount0, bitStream0;
    if previous0 {
      ghost var fields := if h.good then Cat(CountField(x, remaining), rest) else rest;
      if !h.good { NotAtRun(h, src, ip, bitCount, bitStream, run, fields, v, seen); }
      n0, ip, bitCount, bitStream := ReadRun(src, ip, bitCount, bitStream, charnum, h, run, fields, v, seen);
    }
    ip1, bitStream1 := ip, bitStream;
    if h'.good { SameHeader(h, h'); }
    count, ip, bitCount, bitStream := ReadOne(src, ip, bitCount, bitStream, remaining, h', x, rest);
  }

  lemma {:induction false} SameHeader(h: Header, h': Header)
    requires h'.good && h' == h.(good := h.good && h'.good)
    ensures h' == h
  {
  }

  lemma {:induction false} NotAtRun(h: Header, src: seq<byte>, ip: nat, bitCount: nat, bitStream: nat, run: nat,
                                    rest: BitString, v: nat, seen: bool)
    requires !h.good
    ensures AtRun(h, src, ip, bitCount, bitStream, run, rest, v, seen)
  {
  }

  lemma {:induction false} StepCloses(h: Header, src: seq<byte>, norm: seq<int>, norm': seq<int>, L: nat, charnum: nat,
                                      remaining: nat, prev0: bool,
                                      ip: nat, bitCount: nat, bitStream: nat,
                                      j: nat, remaining': nat, ip': nat, bitCount': nat, bitStream': nat)
    requires h.good && InStep(h, src, norm, charnum, remaining, prev0, ip, bitCount, bitStream)
    requires ReadSoFar(norm, L, charnum, remaining) && L == h.L <= BYTE_LIMITS.maxTableLog
    requires charnum <= j < |h.norm| && (forall k | charnum <= k < j :: h.norm[k] == 0)
    requires norm' == norm[j := ToShort(h.norm[j])] && remaining' == Remaining(h.norm, h.L, j + 1)
    requires Ready(h, src, ip', bitCount', bitStream', FieldsFrom(h.norm, h.L, j + 1, h.norm[j] == 0))
    ensures InStep(h, src, norm', j + 1, remaining', h.norm[j] == 0, ip', bitCount', bitStream')
  {
    hide Ready, FieldsFrom, Remaining, NCountForm;
    SumMono(h.norm, j + 1, |h.norm|);
    FifteenBits();
    Pow2Mono(L, 14);
  }

  /** A good step: the counter of the next symbol in use has been read. */
  lemma {:induction false} StepGood(h: Header, src: seq<byte>, norm: seq<int>, norm': seq<int>, charnum: nat, remaining: nat, prev0: bool,
                                    ip: nat, bitCount: nat, bitStream: nat, j: nat, rest: BitString, v: nat, seen: bool,
                                    ip': nat, bitCount': nat, bitStream': nat)
    requires h.good && seen && InStep(h, src, norm, charnum, remaining, prev0, ip, bitCount, bitStream) && h.L <= BYTE_LIMITS.maxTableLog
    requires Opened(h, src, norm, charnum, remaining, prev0, ip, bitCount, bitStream, j, rest, v, seen)
    requires ReadSoFar(norm, h.L, charnum, remaining) && norm' == norm[j := ToShort(h.norm[j])]
    requires Ready(h, src, ip', bitCount', bitStream', rest)
    ensures remaining >= Freq(h.norm[j])
    ensures After(h, h, src, norm', charnum, prev0, j + 1, remaining - Freq(h.norm[j]), h.norm[j] == 0, ip', bitCount', bitStream')
  {
    hide InStep, Ready, ReadyFor, AtRun, HeaderOk, CountField, Cat, Clean, FieldsFrom, Remaining, FirstUsed, Counters, SeenHere, ReadSoFar;
    StepCloses(h, src, norm, norm', h.L, charnum, remaining, prev0, ip, bitCount, bitStream, j, remaining - Freq(h.norm[j]),
               ip', bitCount', bitStream');
  }

  /** A step that is not seen as it is. */
  lemma {:induction false} StepLost(h: Header, h': Header, src: seq<byte>, norm: seq<int>, charnum0: nat, prev0: bool,
                                    charnum: nat, remaining: nat, is0: bool, ip: nat, bitCount: nat, bitStream: nat)
    requires !h'.good && (h.good ==> Differs(norm, h.norm, charnum))
    ensures After(h, h', src, norm, charnum0, prev0, charnum, remaining, is0, ip, bitCount, bitStream)
  {
    hide Differs;
  }

  lemma {:induction false} OpenedParts(h: Header, src: seq<byte>, norm: seq<int>, charnum: nat, remaining: nat, prev0: bool,
                                       ip: nat, bitCount: nat, bitStream: nat, j: nat, rest: BitString, v: nat, seen: bool)
    requires Opened(h, src, norm, charnum, remaining, prev0, ip, bitCount, bitStream, j, rest, v, seen)
    ensures charnum <= j < |h.norm| <= |norm| && -1 <= h.norm[j] < remaining && Clean(rest) && v == CountField(h.norm[j], remaining).len
    ensures (seen <==> SeenHere(h, src, charnum, prev0)) && (!prev0 ==> seen && j == charnum)
    ensures prev0 ==> AtRun(h, src, ip, bitCount, bitStream, j - charnum, Cat(CountField(h.norm[j], remaining), rest), v, seen)
    ensures !prev0 ==> ReadyFor(h, src, ip, bitCount, bitStream, Cat(CountField(h.norm[j], remaining), rest), v)
  {
    hide Ready, ReadyFor, AtRun, HeaderOk, CountField, Cat, Clean, FieldsFrom, Remaining, FirstUsed, SymbolSeen;
    if !prev0 { HeaderCounters(h, src); }
  }

  lemma {:induction false} HeaderCounters(h: Header, src: seq<byte>)
    requires HeaderOk(h, src)
    ensures h.good ==> h.L >= MIN_TABLELOG && Counters(h.norm)
  {
    if h.good { HeaderBounds(h, src); }
  }

  /** One symbol of the description, after the run of zeros before it if there is one. */
  /** A run that leads beyond the alphabet. */
  lemma {:induction false} CountersEnd(src: seq<byte>, maxSV: nat, q: Cursor, norm: seq<int>, previous0: bool, remaining: nat)
    requires remaining > 1 && |norm| <= maxSV && (if previous0 then RunRead(src, q, |norm|).1 else |norm|) > maxSV
    ensures CountersRead(src, maxSV, q, norm, previous0, remaining) == Err(MaxSymbolValueTooSmall)
  {
    hide RunRead, FieldRead;
  }

  /** A run, if there is one, and a counter. */
  lemma {:induction false} ReadSymbols(src: seq<byte>, a: seq<int>, maxSV: nat, q: Cursor, q': Cursor, n: nat, n0: nat, previous0: bool, remaining: nat, count: int)
    requires remaining > 1 && n <= n0 <= maxSV < |a| && (forall k | n <= k < n0 :: a[k] == 0) && remaining - Freq(count) >= 0
    requires var (r, m) := if previous0 then RunRead(src, q, n) else (q, n);
             m == n0 && FieldRead(src, r, remaining) == (q', count)
    ensures CountersRead(src, maxSV, q, a[..n], previous0, remaining)
         == CountersRead(src, maxSV, q', a[n0 := ToShort(count)][..n0 + 1], count == 0, remaining - Freq(count))
  {
    hide RunRead, FieldRead;
    var zeros: seq<int> := seq(n0 - n, _ => 0);
    assert a[n0 := ToShort(count)][..n0 + 1] == a[..n] + zeros + [ToShort(count)];
  }

  method ReadSymbol(norm: array<int>, src: seq<byte>, charnum0: nat, previous0: bool, remaining0: nat, ghost L: nat,
                    ip0: nat, bitCount0: nat, bitStream0: nat, ghost h: Header)
    returns (ok: bool, charnum: nat, is0: bool, remaining: nat, ip: nat, bitCount: nat, bitStream: nat, ghost h': Header)
    requires ip0 + 4 <= |src| && (ip0 + 4 < |src| ==> bitCount0 <= 7)
    requires L <= TABLELOG_ABSOLUTE_MAX && remaining0 > 1 && HighBit(remaining0) <= 15 && charnum0 < norm.Length
    requires ReadSoFar(norm[..], L, charnum0, remaining0)
    requires InStep(h, src, norm[..], charnum0, remaining0, previous0, ip0, bitCount0, bitStream0)
    requires h.good ==> L == h.L && h.L <= BYTE_LIMITS.maxTableLog
    modifies norm
    ensures h' == h.(good := h.good && SeenHere(h, src, charnum0, previous0))
    ensures h'.good ==> ok
    ensures ok ==> charnum0 < charnum && remaining <= remaining0 && ip + 4 <= |src| && (ip + 4 < |src| ==> bitCount <= 7)
    ensures ok ==> ReadSoFar(norm[..], L, charnum, remaining) && charnum0 <= norm.Length && norm[..charnum0] == old(norm[..charnum0])
    ensures ok ==> After(h, h', src, norm[..], charnum0, previous0, charnum, remaining, is0, ip, bitCount, bitStream)
    ensures ok ==> charnum <= norm.Length
    ensures CountersRead(src, norm.Length - 1, Cursor(ip0, bitCount0, bitStream0), old(norm[..charnum0]), previous0, remaining0)
            == if ok then CountersRead(src, norm.Length - 1, Cursor(ip, bitCount, bitStream), norm[..charnum], is0, remaining)
               else Err(MaxSymbolValueTooSmall)
  {
    hide RunRead, FieldRead, CountersRead, HighBit, ReadSoFar, InStep, Ready, ReadyFor, AtRun, Lost, HeaderOk, Clean, Cat, CountField, ReadCount, ZeroRun,
        FieldsFrom, Remaining, Pow2,
      FreqSum, ToShort, After, Opened, SeenHere, Differs;
    charnum, is0, remaining, ip, bitCount, bitStream := charnum0, previous0, remaining0, ip0, bitCount0, bitStream0;
    ghost var j: nat, rest, x, v: nat, seen := charnum0, BitString(0, 0), 0, 0, SeenHere(h, src, charnum0, previous0);
    ghost var before := norm[..];
    if h.good {
      j, rest, v, seen := SymbolOpens(h, src, before, charnum0, remaining0, previous0, ip, bitCount, bitStream);
      OpenedParts(h, src, before, charnum0, remaining0, previous0, ip, bitCount, bitStream, j, rest, v, seen);
      x := h.norm[j];
    }
    h' := h.(good := h.good && seen);
    var n0, count;
    ghost var ip1, bitStream1;
    n0, count, ip, bitCount, bitStream, ip1, bitStream1 :=
      ReadRunAndCount(norm, src, charnum, previous0, remaining, ip, bitCount, bitStream, h, h', j - charnum0, rest, x, v, seen);
    if n0 >= norm.Length {
      CountersEnd(src, norm.Length - 1, Cursor(ip0, bitCount0, bitStream0), before[..charnum0], previous0, remaining0);
      return false, charnum, is0, remaining, ip, bitCount, bitStream, h';
    }
    ReadZeros(before, L, charnum, remaining, n0);
    ReadSymbols(src, before, norm.Length - 1, Cursor(ip0, bitCount0, bitStream0), Cursor(ip, bitCount, bitStream), charnum0, n0, previous0, remaining0, count);
    SkipTo(norm, charnum, n0);
    charnum := n0;
    ReadNext(norm[..], L, charnum, remaining, count);
    ghost var after := norm[..][charnum := ToShort(count)];
    norm[charnum] := ToShort(count);
    assert norm[..] == after && after[..charnum0] == before[..charnum0];
    if h'.good {
      SameHeader(h, h');
      StepGood(h, src, before, after, charnum0, remaining, previous0, ip0, bitCount0, bitStream0, j, rest, v, seen, ip, bitCount, bitStream);
    } else {
      if h.good {
        LostSymbol(h, src, before, after, charnum0, remaining, previous0, ip0, bitCount0, bitStream0, j, rest, v, ip1, bitStream1, n0, count);
      }
      StepLost(h, h', src, after, charnum0, previous0, charnum + 1, remaining - Freq(count), count == 0, ip, bitCount, bitStream);
    }
    charnum := charnum + 1;
    remaining := remaining - Freq(count);
    is0 := count == 0;
    ok := true;
  }

  /** maxSymbolValue, tableLog and size in bytes of a description that has been read. */
  datatype Described = Described(maxSymbolValue: nat, tableLog: nat, size: nat)

  /** The counters of a description: they fill the table, and can be used to build it. */
  ghost predicate Usable(norm: seq<int>, d: Described) {
    && MIN_TABLELOG <= d.tableLog <= TABLELOG_ABSOLUTE_MAX && d.maxSymbolValue < |norm|
    && FreqSum(norm, d.maxSymbolValue + 1) == Pow2(d.tableLog)
    && (d.tableLog < TABLELOG_ABSOLUTE_MAX ==> NormOk(norm[..d.maxSymbolValue + 1], d.tableLog))
    && (forall k | d.maxSymbolValue < k < |norm| :: norm[k] == 0)
  }

  lemma {:induction false} ReadIsUsable(norm: seq<int>, L: nat, charnum: nat, size: nat)
    requires ReadSoFar(norm, L, charnum, 1) && MIN_TABLELOG <= L <= TABLELOG_ABSOLUTE_MAX
    ensures charnum > 0 && Usable(norm, Described(charnum - 1, L, size))
  {
    FreqSumSame(norm[..charnum], norm, charnum);
  }

  lemma {:induction false} FirstField(h: Header, src: seq<byte>)
    requires h.good && HeaderOk(h, src) && |src| >= 4
    ensures h.L >= MIN_TABLELOG && Counters(h.norm)
    ensures Low(LE(src[0..4]), 4) + MIN_TABLELOG == h.L <= BYTE_LIMITS.maxTableLog
    ensures Next(h, src, 0, 4, FieldsFrom(h.norm, h.L, 0, false))
    ensures Remaining(h.norm, h.L, 0) == Pow2(h.L) + 1
  {
    hide HeaderOk, NormOk, Counters, Next, Low, Shr, LE, Cat, FieldsFrom, Clean, Remaining, Pow2;
    HeaderBounds(h, src);
    RemainingEnds(h.norm, h.L);
    NextStarts(h, src);
    NextSplit(h, src, 0, 0, BitString(h.L - MIN_TABLELOG, 4), FieldsFrom(h.norm, h.L, 0, false));
    ShiftNone(LE(src[0..4]));
    WindowBits(src, 0, 0, LE(src[0..4]), 4);
  }

  /** The first symbol of the description, after the table log. */
  lemma {:induction false} ReadStarts(h: Header, src: seq<byte>, norm: seq<int>, L: nat, bitStream: nat)
    requires |src| >= 4 && HeaderOk(h, src) && bitStream == Shr(LE(src[0..4]), 4)
    requires L == Low(LE(src[0..4]), 4) + MIN_TABLELOG <= TABLELOG_ABSOLUTE_MAX
    requires forall k | 0 <= k < |norm| :: norm[k] == 0
    requires h.good ==> |h.norm| <= |norm|
    ensures ReadSoFar(norm, L, 0, Pow2(L) + 1)
    ensures h.good ==> L == h.L
    ensures InStep(h, src, norm, 0, Pow2(L) + 1, false, 0, 4, bitStream)
  {
    hide HeaderOk, Next, NCountBits, Low, Shr, LE, FieldsFrom, Pow2, Remaining;
    assert FreqSum(norm, 0) == 0;
    if h.good {
      HeaderBounds(h, src);
      FirstField(h, src);
    }
  }

  lemma {:induction false} RemainingBits(remaining: nat, L: nat)
    requires 1 <= remaining <= Pow2(L) + 1 && L <= 15
    ensures HighBit(remaining) <= 15
  {
    Pow2Mono(L, 15);
    Pow2Strict(0, 15);
    if HighBit(remaining) > 15 { Pow2Strict(15, HighBit(remaining)); }
  }

  /** At the end of a known header: all of it has been read. */
  lemma {:induction false} ReadEnds(h: Header, src: seq<byte>, norm: seq<int>, charnum: nat, remaining: nat, prev0: bool,
                                    ip: nat, bitCount: nat, bitStream: nat, maxSV: nat)
    requires h.good && InStep(h, src, norm, charnum, remaining, prev0, ip, bitCount, bitStream)
    requires |norm| == maxSV + 1 && (remaining <= 1 || charnum > maxSV)
    ensures remaining == 1 && charnum == |h.norm| && bitCount <= 32 && ip + BytesFor(bitCount) == h.size
    ensures norm[..|h.norm|] == h.norm
  {
    hide HeaderOk, NormOk, Counters, NCountBits, FieldsFrom, Ahead, Window, BytesFor, Remaining;
    HeaderBounds(h, src);
    AllRead(h.norm, h.L, charnum);
    NothingMore(h.norm, h.L, charnum, prev0);
    BytesForSplit(ip, bitCount, NCountBits(h.norm, h.L).len);
  }

  lemma {:induction false} BytesForSplit(ip: nat, bitCount: nat, n: nat)
    requires Times8(ip) + bitCount == n
    ensures ip + BytesFor(bitCount) == BytesFor(n)
  {
    hide BytesFor;
    BytesForBounds(n);
    BytesForBounds(bitCount);
  }

  /** Nothing remains only after the last symbol in use. */
  lemma {:induction false} AllRead(norm: seq<int>, L: nat, i: nat)
    requires NormOk(norm, L) && norm[|norm| - 1] != 0 && i <= |norm|
    ensures Remaining(norm, L, i) <= 1 ==> i == |norm|
    ensures i == |norm| ==> Remaining(norm, L, i) == 1
  {
    RemainingEnds(norm, L);
    if i < |norm| { SumMono(norm, i, |norm| - 1); }
  }

  method ClearCounters(norm: array<int>)
    modifies norm
    ensures forall k | 0 <= k < norm.Length :: norm[k] == 0
  {
    for k := 0 to norm.Length
      invariant forall i | 0 <= i < k :: norm[i] == 0
    {
      norm[k] := 0;
    }
  }

  /** The reader at symbol `charnum`; `g` is the header `h` as long as everything has been seen as it is. */
  ghost predicate Reading(h: Header, g: Header, src: seq<byte>, norm: seq<int>, charnum: nat, remaining: nat, prev0: bool,
                          ip: nat, bitCount: nat, bitStream: nat)
  {
    && (g == h || g == h.(good := false)) && InStep(g, src, norm, charnum, remaining, prev0, ip, bitCount, bitStream)
    && (g.good ==> g.L >= MIN_TABLELOG && Counters(g.norm) && charnum <= |g.norm|
                   && (Shown(h, src) <==> AllSeen(g, src, charnum, prev0)))
    && (h.good && !g.good ==> !Shown(h, src) && Differs(norm, h.norm, charnum))
  }

  lemma {:induction false} ReadingStarts(h: Header, src: seq<byte>, norm: seq<int>, remaining: nat, ip: nat, bitCount: nat, bitStream: nat)
    requires HeaderOk(h, src) && InStep(h, src, norm, 0, remaining, false, ip, bitCount, bitStream)
    ensures Reading(h, h, src, norm, 0, remaining, false, ip, bitCount, bitStream)
  {
    hide HeaderOk, AllSeen, InStep, Counters;
    HeaderCounters(h, src);
  }

  /** Whether the rest is seen, before a symbol and after it. */
  lemma {:induction false} SeenNext(h: Header, src: seq<byte>, i: nat, prev0: bool)
    requires h.good && h.L >= MIN_TABLELOG && Counters(h.norm) && NextSymbol(h, i, prev0) <= |h.norm| && i <= |h.norm| &&
             Remaining(h.norm, h.L, i) > 1
    ensures 0 < NextSymbol(h, i, prev0)
    ensures var j := NextSymbol(h, i, prev0);
            AllSeen(h, src, i, prev0) <==> SeenHere(h, src, i, prev0) && AllSeen(h, src, j, h.norm[j - 1] == 0)
  {
    hide Counters, SymbolSeen, Remaining, FirstUsed;
  }

  lemma {:induction false} InStepRemaining(h: Header, src: seq<byte>, norm: seq<int>, charnum: nat, remaining: nat, prev0: bool,
                                           ip: nat, bitCount: nat, bitStream: nat)
    requires h.good && InStep(h, src, norm, charnum, remaining, prev0, ip, bitCount, bitStream)
    ensures charnum <= |h.norm| && remaining == Remaining(h.norm, h.L, charnum)
  {
    hide HeaderOk, Ready, Remaining, FieldsFrom;
  }

  /** When something is not seen in the middle, the whole is not shown. */
  lemma {:induction false} ReadingNext(h: Header, g: Header, g': Header, src: seq<byte>, norm: seq<int>, norm': seq<int>, i: nat, remaining: nat,
                                       prev0: bool, ip: nat, bitCount: nat, bitStream: nat,
                                       charnum: nat, remaining': nat, is0: bool, ip': nat, bitCount': nat, bitStream': nat)
    requires Reading(h, g, src, norm, i, remaining, prev0, ip, bitCount, bitStream) && remaining > 1
    requires g' == g.(good := g.good && SeenHere(g, src, i, prev0)) && i < charnum && i <= |norm| == |norm'| && norm'[..i] == norm[..i]
    requires After(g, g', src, norm', i, prev0, charnum, remaining', is0, ip', bitCount', bitStream')
    ensures Reading(h, g', src, norm', charnum, remaining', is0, ip', bitCount', bitStream')
  {
    hide InStep, Counters, AllSeen, SeenHere, Shown, NextSymbol, Remaining;
    if g.good {
      InStepRemaining(g, src, norm, i, remaining, prev0, ip, bitCount, bitStream);
      if g'.good { SeenNext(g, src, i, prev0); } else { NotAllSeen(g, src, i, prev0); }
    } else if h.good {
      var k: nat :| k < i && k < |norm| && k < |h.norm| && norm[k] != h.norm[k];
      assert norm'[..i][k] == norm[..i][k];
    }
  }

  lemma {:induction false} NotAllSeen(h: Header, src: seq<byte>, i: nat, prev0: bool)
    requires h.good && h.L >= MIN_TABLELOG && Counters(h.norm) && i <= |h.norm| && Remaining(h.norm, h.L, i) > 1
    requires !SeenHere(h, src, i, prev0)
    ensures !AllSeen(h, src, i, prev0)
  {
    hide Counters, Remaining;
  }

  lemma {:induction false} ReadingEnds(h: Header, g: Header, src: seq<byte>, norm: seq<int>, charnum: nat, remaining: nat, prev0: bool,
                                       ip: nat, bitCount: nat, bitStream: nat, maxSV: nat)
    requires Reading(h, g, src, norm, charnum, remaining, prev0, ip, bitCount, bitStream)
    requires |norm| == maxSV + 1 && (remaining <= 1 || charnum > maxSV)
    ensures g.good ==> Shown(h, src) && remaining == 1 && charnum == |h.norm| && bitCount <= 32 && ip + BytesFor(bitCount) == h.size
                       && norm[..|h.norm|] == h.norm
    ensures h.good && !g.good ==> !Shown(h, src) && (|h.norm| <= |norm| ==> norm[..|h.norm|] != h.norm)
  {
    hide InStep, Counters, Shown, BytesFor;
    if g.good {
      ReadEnds(g, src, norm, charnum, remaining, prev0, ip, bitCount, bitStream, maxSV);
      InStepRemaining(g, src, norm, charnum, remaining, prev0, ip, bitCount, bitStream);
      NoneLeft(g, src, charnum, prev0);
    } else if h.good && |h.norm| <= |norm| {
      var k: nat :| k < charnum && k < |norm| && k < |h.norm| && norm[k] != h.norm[k];
      assert norm[..|h.norm|][k] == norm[k];
    }
  }

  lemma {:induction false} NoneLeft(h: Header, src: seq<byte>, i: nat, prev0: bool)
    requires h.good && h.L >= MIN_TABLELOG && Counters(h.norm) && i <= |h.norm| && Remaining(h.norm, h.L, i) <= 1
    ensures AllSeen(h, src, i, prev0)
  {
  }

  /**
    The body of FSE_readNCount, for at least 4 bytes. Whatever the bytes, counters that are accepted can be
    used; the description of known counters gives them back exactly if all of it is seen as it is.
   */
  /** The result and the counters for what the description reads as; all counters after those are 0. */
  ghost predicate ReadAs(d: Result<(seq<int>, nat, nat)>, r: Result<Described>, norm: seq<int>) {
    match d
    case Err(e) => r == Err(e)
    case Ok((counters, tableLog, size)) =>
      && 0 < |counters| <= |norm| && r == Ok(Described(|counters| - 1, tableLog, size))
      && counters == norm[..|counters|]
  }

  lemma {:induction false} CountersDone(src: seq<byte>, maxSV: nat, q: Cursor, norm: seq<int>, previous0: bool, remaining: nat)
    requires remaining <= 1 || |norm| > maxSV
    ensures CountersRead(src, maxSV, q, norm, previous0, remaining)
         == if remaining != 1 || q.bitCount > 32 then Err(CorruptionDetected) else Ok((norm, q.ip + BytesFor(q.bitCount)))
  {
  }

  method ReadBody(norm: array<int>, src: seq<byte>, ghost h: Header) returns (r: Result<Described>)
    requires |src| >= 4 && norm.Length > 0 && HeaderOk(h, src) && (h.good ==> |h.norm| <= norm.Length)
    modifies norm
    ensures r.Ok? ==> Usable(norm[..], r.value) && r.value.size <= |src|
    ensures h.good && Shown(h, src) ==> r == Ok(Described(|h.norm| - 1, h.L, h.size)) && norm[..|h.norm|] == h.norm
    ensures h.good && !Shown(h, src) ==> r.Err? || norm[..|h.norm|] != h.norm
    ensures ReadAs(DescriptionRead(src, norm.Length - 1), r, norm[..])
  {
    hide CountersRead, HighBit, ReadSoFar, InStep, Reading, After, HeaderOk, Usable, Shown, SeenHere, Pow2, Low, Shr, LE, BytesFor, FieldsFrom, NCountBits;
    var maxSV := norm.Length - 1;
    ClearCounters(norm);
    var tableLog := Low(LE(src[0..4]), 4) + MIN_TABLELOG;
    if h.good { FirstField(h, src); }
    if tableLog > TABLELOG_ABSOLUTE_MAX { return Err(TableLogTooLarge); }
    var ip: nat, bitCount: nat, bitStream := 0, 4, Shr(LE(src[0..4]), 4);
    var charnum: nat, previous0, remaining: nat := 0, false, Pow2(tableLog) + 1;
    ReadStarts(h, src, norm[..], tableLog, bitStream);
    ReadingStarts(h, src, norm[..], remaining, ip, bitCount, bitStream);
    ghost var g := h;
    while remaining > 1 && charnum <= maxSV
      invariant ip + 4 <= |src| && (ip + 4 < |src| ==> bitCount <= 7) && remaining <= Pow2(tableLog) + 1
      invariant ReadSoFar(norm[..], tableLog, charnum, remaining)
      invariant Reading(h, g, src, norm[..], charnum, remaining, previous0, ip, bitCount, bitStream) && (g == h || !g.good)
      invariant charnum <= norm.Length
      invariant CountersRead(src, maxSV, Cursor(0, 4, WordFrom(src, 0, 4)), [], false, Pow2(tableLog) + 1)
             == CountersRead(src, maxSV, Cursor(ip, bitCount, bitStream), norm[..charnum], previous0, remaining)
      decreases norm.Length - charnum
    {
      RemainingBits(remaining, tableLog);
      ReadingStep(h, g, src, norm[..], charnum, remaining, previous0, ip, bitCount, bitStream);
      ghost var before, c0, r0, p0, ip0, b0, s0, g0 := norm[..], charnum, remaining, previous0, ip, bitCount, bitStream, g;
      var ok;
      ok, charnum, previous0, remaining, ip, bitCount, bitStream, g :=
        ReadSymbol(norm, src, charnum, previous0, remaining, tableLog, ip, bitCount, bitStream, g0);
      if !ok {
        ReadingFails(h, g0, g, src, before, c0, r0, p0, ip0, b0, s0);
        return Err(MaxSymbolValueTooSmall);
      }
      ReadingNext(h, g0, g, src, before, norm[..], c0, r0, p0, ip0, b0, s0, charnum, remaining, previous0, ip, bitCount, bitStream);
    }
    ReadingEnds(h, g, src, norm[..], charnum, remaining, previous0, ip, bitCount, bitStream, maxSV);
    CountersDone(src, maxSV, Cursor(ip, bitCount, bitStream), norm[..charnum], previous0, remaining);
    if remaining != 1 { return Err(CorruptionDetected); }
    if bitCount > 32 { return Err(CorruptionDetected); }
    BytesForBounds(bitCount);
    ReadIsUsable(norm[..], tableLog, charnum, ip + BytesFor(bitCount));
    r := Ok(Described(charnum - 1, tableLog, ip + BytesFor(bitCount)));
  }

  lemma {:induction false} ReadingStep(h: Header, g: Header, src: seq<byte>, norm: seq<int>, charnum: nat, remaining: nat, prev0: bool,
                                       ip: nat, bitCount: nat, bitStream: nat)
    requires Reading(h, g, src, norm, charnum, remaining, prev0, ip, bitCount, bitStream)
    ensures InStep(g, src, norm, charnum, remaining, prev0, ip, bitCount, bitStream) && (g.good ==> g == h)
  {
    hide InStep, Counters, AllSeen, Shown;
  }

  lemma {:induction false} ReadingFails(h: Header, g: Header, g': Header, src: seq<byte>, norm: seq<int>, i: nat, remaining: nat, prev0: bool,
                                        ip: nat, bitCount: nat, bitStream: nat)
    requires Reading(h, g, src, norm, i, remaining, prev0, ip, bitCount, bitStream) && remaining > 1
    requires g' == g.(good := g.good && SeenHere(g, src, i, prev0)) && !g'.good
    ensures h.good ==> !Shown(h, src)
  {
    hide InStep, Counters, AllSeen, SeenHere, Shown, Remaining;
    if g.good {
      InStepRemaining(g, src, norm, i, remaining, prev0, ip, bitCount, bitStream);
      NotAllSeen(g, src, i, prev0);
    }
  }

  lemma {:induction false} PaddedHeader(h: Header, src: seq<byte>, buffer: seq<byte>)
    requires h.good && HeaderOk(h, src) && src <= buffer && |src| < |buffer|
    ensures HeaderOk(h, buffer) && h.size < |buffer| && h.size <= |src|
  {
    hide NormOk, NCountForm;
    assert src[..h.size] == buffer[..h.size];
  }

  /** The description is seen as it is: always in a padded copy, and if anything follows it. */
  ghost predicate Legible(h: Header, src: seq<byte>) {
    |src| < 4 || Shown(h, src)
  }

  /**
    FSE_readNCount. A shorter input is read from a zero-padded copy of 4 bytes, and refused if the
    description does not end within it.
   */
  method ReadNCount(norm: array<int>, src: seq<byte>, ghost h: Header) returns (r: Result<Described>)
    requires norm.Length > 0 && HeaderOk(h, src) && (h.good ==> |h.norm| <= norm.Length)
    modifies norm
    ensures r.Ok? ==> Usable(norm[..], r.value) && r.value.size <= |src|
    ensures h.good && Legible(h, src) ==> r == Ok(Described(|h.norm| - 1, h.L, h.size)) && norm[..|h.norm|] == h.norm
    ensures h.good && !Legible(h, src) ==> r.Err? || norm[..|h.norm|] != h.norm
    ensures ReadAs(NCountRead(src, norm.Length - 1), r, norm[..])
  {
    hide HeaderOk, Shown, Usable, DescriptionRead;
    if |src| < 4 {
      var buffer := src + seq(4 - |src|, _ => 0);
      if h.good {
        PaddedHeader(h, src, buffer);
        ShownWithMore(h, buffer);
      } else {
        NoHeader(h, buffer);
      }
      r := ReadBody(norm, buffer, h);
      if r.Ok? && r.value.size > |src| { return Err(CorruptionDetected); }
      return;
    }
    r := ReadBody(norm, src, h);
  }

  lemma {:induction false} NoHeader(h: Header, src: seq<byte>)
    requires !h.good
    ensures HeaderOk(h, src)
  {
  }

  /**
    The description of counters that fill the table, the last of them in use, comes back with the same table
    log, the same counters and its own length exactly if it is legible. It is if anything follows it.
   */
  method NCountRoundTrip(norm: seq<int>, tableLog: nat, bufferSize: nat, rest: seq<byte>, maxSymbolValue: nat)
    returns (w: Result<nat>, c: seq<byte>, r: Result<Described>, back: seq<int>)
    requires NormOk(norm, tableLog) && tableLog <= BYTE_LIMITS.maxTableLog && norm[|norm| - 1] != 0
    requires |norm| - 1 <= maxSymbolValue
    ensures w.Err? <==> bufferSize < NCountWriteBound(|norm| - 1, tableLog) && bufferSize < NCountReach(norm, tableLog)
    ensures w.Err? ==> w.error == DstSizeTooSmall
    ensures w.Ok? ==> |c| == w.value
    ensures w.Ok? ==> (r == Ok(Described(|norm| - 1, tableLog, w.value)) && back == norm
                       <==> Legible(Header(true, norm, tableLog, w.value), c + rest))
    ensures w.Ok? && |rest| > 0 ==> r == Ok(Described(|norm| - 1, tableLog, w.value)) && back == norm
  {
    hide Legible, NCountReach, NCountWriteBound, EnoughFor, Reach, NCountBits, LE, BytesFor, FreqSum, Pow2;
    r, back, c := Err(Generic), [], [];
    var header := new byte[bufferSize + EnoughFor(|norm|, tableLog)];
    Enough(norm, tableLog, bufferSize + EnoughFor(|norm|, tableLog));
    w := WriteNCount(header, 0, bufferSize, norm, tableLog);
    if w.Err? { return; }
    c := header[..w.value];
    assert header[..][0..0 + w.value] == c;
    var src := c + rest;
    assert src[..w.value] == header[0..w.value];
    ghost var h := Header(true, norm, tableLog, w.value);
    var counters := new int[maxSymbolValue + 1];
    r := ReadNCount(counters, src, h);
    back := counters[..|norm|];
    if |rest| > 0 { LegibleWithMore(h, src); }
  }

  lemma {:induction false} LegibleWithMore(h: Header, src: seq<byte>)
    requires HeaderOk(h, src) && (h.good ==> h.size < |src|)
    ensures Legible(h, src)
  {
    hide HeaderOk, Shown;
    ShownWithMore(h, src);
  }

  // ---------- a description with nothing after it ----------

  /** One symbol of 31 cells and one of 1 cell, 49 symbols apart. */
  ghost function FarApart(): (norm: seq<int>)
    ensures |norm| == 51
  {
    [31] + seq(49, _ => 0) + [1]
  }

  lemma {:induction false} FarApartOk()
    ensures NormOk(FarApart(), 5) && Counters(FarApart()) && FirstUsed(FarApart(), 2) == 50
    ensures Remaining(FarApart(), 5, 0) == 33 && Remaining(FarApart(), 5, 1) == 2 && Remaining(FarApart(), 5, 2) == 2
    ensures HighBit(33) == 5 && HighBit(2) == 1 && Pow2(5) == 32
  {
    var norm := FarApart();
    SmallPowers();
    assert Pow2(5) == 2 * Pow2(4);
    HighBitUnique(33, 5);
    HighBitUnique(2, 1);
    hide Pow2, HighBit;
    assert FreqSum(norm, 1) == 31;
    ZerosSum(norm, 1, 2);
    ZerosSum(norm, 1, 50);
    assert FreqSum(norm, 51) == 32;
  }

  /** The fields of that description: 48 bits, with a run of 48 zeros from bit 12 on. */
  lemma {:induction false} FarApartFields() returns (rest: BitString)
    ensures NormOk(FarApart(), 5) && Counters(FarApart()) && Clean(rest) && rest.len == 2
    ensures CountField(31, 33).len == 6 && CountField(0, 2).len == 2 && Clean(CountField(31, 33)) && Clean(CountField(0, 2))
    ensures NCountBits(FarApart(), 5) == Cat(BitString(0, 4), Cat(CountField(31, 33), Cat(CountField(0, 2), Cat(ZeroRun(48), rest))))
  {
    var norm := FarApart();
    FarApartOk();
    rest := Cat(CountField(1, 2), FieldsFrom(norm, 5, 51, false));
    CountFieldClean(31, 33);
    CountFieldClean(0, 2);
    CountFieldClean(1, 2);
    FieldsClean(norm, 5, 51, false);
    CatClean(CountField(1, 2), FieldsFrom(norm, 5, 51, false));
    assert Pow2(1) == 2;
    hide Cat, CountField, ZeroRun, Remaining, FirstUsed, Pow2, HighBit, NormOk, Clean;
    FarApartTail();
    assert FieldsFrom(norm, 5, 1, false) == Cat(CountField(0, 2), FieldsFrom(norm, 5, 2, true));
    assert FieldsFrom(norm, 5, 0, false) == Cat(CountField(31, 33), FieldsFrom(norm, 5, 1, false));
  }

  lemma {:induction false} FarApartTail()
    ensures Counters(FarApart())
    ensures FieldsFrom(FarApart(), 5, 2, true) == Cat(ZeroRun(48), Cat(CountField(1, 2), FieldsFrom(FarApart(), 5, 51, false)))
    ensures FieldsFrom(FarApart(), 5, 51, false) == BitString(0, 0)
  {
    hide Cat, CountField, ZeroRun, Remaining, FirstUsed, Pow2, HighBit, NormOk;
    FarApartOk();
    RemainingEnds(FarApart(), 5);
  }

  lemma {:induction false} RunOf48()
    ensures ZeroRun(48).len == 34 && BytesFor(48) == 6
  {
    hide Shl;
    assert ZeroRun(0).len == 2 && ZeroRun(24).len == 18 && ZeroRun(48).len == 34;
    BytesForBounds(48);
  }

  /** The two halves of the run, in a stream that is the description. */
  lemma {:induction false} FarApartRun(stream: nat, rest: BitString)
    requires Clean(rest) && Clean(CountField(31, 33)) && Clean(CountField(0, 2)) && CountField(31, 33).len == 6 && CountField(0, 2).len == 2
    requires Ahead(stream, 0, Cat(BitString(0, 4), Cat(CountField(31, 33), Cat(CountField(0, 2), Cat(ZeroRun(48), rest)))))
    ensures Slice(stream, 12, 16) == 0xFFFF && Slice(stream, 28, 16) == 0xFFFF
  {
    assert Clean(BitString(0, 4)) by { SmallPowers(); }
    hide Clean, Cat, CountField, ZeroRun, Slice, Ahead;
    ZeroRunClean(48);
    var a, b, c := Cat(ZeroRun(48), rest), Cat(CountField(0, 2), Cat(ZeroRun(48), rest)),
                   Cat(CountField(31, 33), Cat(CountField(0, 2), Cat(ZeroRun(48), rest)));
    CatClean(ZeroRun(48), rest);
    CatClean(CountField(0, 2), a);
    CatClean(CountField(31, 33), b);
    AheadSplit(stream, 0, BitString(0, 4), c);
    AheadSplit(stream, 4, CountField(31, 33), b);
    AheadSplit(stream, 10, CountField(0, 2), a);
    LongRunSeen(stream, 12, 48, rest);
    LongRunSeen(stream, 28, 24, rest);
  }

  /** Bit 40, at the end of the run, is past the word at byte 1, and is set. */
  lemma {:induction false} PastTheWord(stream: nat)
    requires Slice(stream, 28, 16) == 0xFFFF
    ensures Slice(stream, 40, 8) != 0
  {
    hide Slice;
    PairOfOnes(stream, 28, 16, 12);
    if Slice(stream, 40, 8) == 0 { ZeroPart(stream, 40, 8, 0, 2); }
  }

  lemma {:induction false} RunUnseen(h: Header, src: seq<byte>, rest: BitString, v: nat)
    requires h.good && h.L >= MIN_TABLELOG && Counters(h.norm) && NCountBits(h.norm, h.L).len == 48 && |src| == 6
    requires rest.len == 2 == v && Slice(LE(src), 28, 16) == 0xFFFF
    ensures !RunSeen(h, src, 1, 48, rest, v)
  {
    hide Counters, NCountBits, LE, Slice;
    PastTheWord(LE(src));
    assert LongEnd(1, 6, 48) == 1;
  }

  lemma {:induction false} FarApartUnseen(h: Header, src: seq<byte>)
    requires h == Header(true, FarApart(), 5, 6) && Counters(FarApart()) && NCountBits(FarApart(), 5).len == 48 && |src| == 6
    requires Slice(LE(src), 28, 16) == 0xFFFF && CountField(1, 2).len == 2
    ensures !SymbolSeen(h, src, 2)
  {
    hide Slice, LE, Cat, CountField, ZeroRun, NCountBits, FieldsFrom, Counters, RunSeen, WordAt, Remaining, FirstUsed;
    FarApartOk();
    FarApartTail();
    RunOf48();
    var f, others := CountField(1, 2), FieldsFrom(FarApart(), 5, 51, false);
    CatLength(f, others);
    CatLength(ZeroRun(48), Cat(f, others));
    assert Times8(1) + 4 == 12;
    AtWord(src, 1, 4);
    RunUnseen(h, src, Cat(f, others), 2);
  }

  /** The description of those counters takes 6 bytes, and is not legible with nothing after it. */
  lemma {:induction false} CutShort(src: seq<byte>)
    requires NormOk(FarApart(), 5) && Counters(FarApart()) && NCountForm(src, FarApart(), 5)
    ensures |src| == 6 && !Legible(Header(true, FarApart(), 5, 6), src)
  {
    hide NCountForm, NormOk, Counters, AllSeen, SymbolSeen, Slice, NCountBits;
    FarApartBits(src);
    var h := Header(true, FarApart(), 5, 6);
    FarApartUnseen(h, src);
    FarApartSteps(h, src);
  }

  /** The bits of the run in the stored description. */
  lemma {:induction false} FarApartBits(src: seq<byte>)
    requires NormOk(FarApart(), 5) && Counters(FarApart()) && NCountForm(src, FarApart(), 5)
    ensures |src| == 6 && NCountBits(FarApart(), 5).len == 48 && CountField(1, 2).len == 2
    ensures Slice(LE(src), 28, 16) == 0xFFFF
  {
    var rest := FarApartFields();
    var whole := NCountBits(FarApart(), 5);
    RunOf48();
    assert whole.len == 48;
    WholeClean(FarApart(), 5);
    LowSmall(LE(src), whole.len);
    SliceFirst(LE(src), whole.len);
    HighBitUnique(2, 1);
    assert Pow2(1) == 2;
    hide NCountBits, Cat, CountField, ZeroRun, Clean, LE, Slice, Low, Shr, NormOk;
    FarApartRun(LE(src), rest);
  }

  lemma {:induction false} FarApartSteps(h: Header, src: seq<byte>)
    requires h == Header(true, FarApart(), 5, 6) && Counters(FarApart()) && !SymbolSeen(h, src, 2)
    ensures !AllSeen(h, src, 0, false)
  {
    hide Counters, SymbolSeen, Remaining, FirstUsed;
    FarApartOk();
    assert !AllSeen(h, src, 2, true);
    assert !AllSeen(h, src, 1, false);
  }
}
