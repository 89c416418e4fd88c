/**
  The LIFO bit stream of bitstream.h (64-bit container): CStream writes forward, DStream reads
  backward. The bits in a stream are described by a number `val` of `len` bits, the first bit pushed
  being the least significant one.
 */
module BitStream {
  import opened Bits
  import opened Errors

  const MASK_SIZE := 32
  const WORD := 64

  /** `len` bits, the first one the least significant of `val`. */
  datatype BitString = BitString(val: nat, len: nat)

  // ---------- what a closed stream holds ----------

  /** `s` is the closed stream of the `len` bits of `val`: the bits, the end mark, zero padding. */
  ghost predicate Represents(s: seq<byte>, val: nat, len: nat) {
    && val < Pow2(len)
    && |s| > 0 && Times8(|s| - 1) <= len < Times8(|s|)
    && LE(s) == val + Pow2(len)
  }

  lemma {:induction false} LEDropLast(s: seq<byte>)
    requires |s| > 0
    ensures LE(s) == LE(s[..|s| - 1]) + Shl(s[|s| - 1], Times8(|s| - 1))
    ensures LE(s[..|s| - 1]) < Pow2(Times8(|s| - 1))
  {
    var a, b := s[..|s| - 1], [s[|s| - 1]];
    assert a + b == s;
    LEConcat(a, b);
    LEBound(a);
    assert b[1..] == [];
  }

  lemma {:induction false} MarkArith(lo: nat, v: nat, h: nat, m: nat)
    requires lo < Pow2(m) && Pow2(h) <= v < Pow2(h) + Pow2(h)
    ensures Pow2(h + m) <= lo + Shl(v, m) < Pow2(h + m) + Pow2(h + m)
  {
    Pow2IsShl(h, m);
    ShlMono(Pow2(h), v, m);
    ShlMono(v + 1, Pow2(h) + Pow2(h), m);
    ShlAdd(v, 1, m);
    ShlOne(m);
    ShlAdd(Pow2(h), Pow2(h), m);
  }

  /** A byte string whose last byte is non-zero is the closed stream of exactly one bit string. */
  lemma {:induction false} LastByteMark(s: seq<byte>)
    requires |s| > 0 && s[|s| - 1] != 0
    ensures var t := HighBit(s[|s| - 1]) + Times8(|s| - 1);
            HighBit(s[|s| - 1]) < 8 && LE(s) >= Pow2(t) && Represents(s, LE(s) - Pow2(t), t)
  {
    LEDropLast(s);
    var n := |s| - 1;
    SmallPowers();
    HighBitBelow(s[n], 8);
    MarkArith(LE(s[..n]), s[n], HighBit(s[n]), Times8(n));
  }

  lemma {:induction false} RepresentsLow(s: seq<byte>, val: nat, len: nat)
    requires Represents(s, val, len)
    ensures Low(LE(s), len) == val
  {
    ShlOne(len);
    Join(val, 1, len);
  }

  lemma {:induction false} RepresentsUnique(s: seq<byte>, val: nat, len: nat)
    requires Represents(s, val, len)
    ensures |s| > 0 && s[|s| - 1] != 0
    ensures len == HighBit(s[|s| - 1]) + Times8(|s| - 1)
  {
    LEDropLast(s);
    ShlZero(Times8(|s| - 1));
    if s[|s| - 1] == 0 {
      Pow2Mono(Times8(|s| - 1), len);
    } else {
      LastByteMark(s);
      HighBitUnique(LE(s), HighBit(s[|s| - 1]) + Times8(|s| - 1));
      HighBitUnique(LE(s), len);
    }
  }

  // ---------- writer ----------

  /** The bits, and the end mark, leave the last word of the destination free: the encoder stores whole words. */
  predicate RoomFor(len: nat, dstSize: nat) {
    dstSize > 8 && len + 1 < Times8(dstSize - 8)
  }

  /** Bytes `mem` in memory and `bitPos` bits in the register together hold the `len` bits of `val`. */
  ghost predicate Holds(mem: seq<byte>, bitContainer: nat, bitPos: nat, val: nat, len: nat) {
    && bitContainer < Pow2(bitPos)
    && len == bitPos + Times8(|mem|)
    && val == LE(mem) + Shl(bitContainer, Times8(|mem|))
  }

  lemma {:induction false} HoldsLength(mem: seq<byte>, c: nat, p: nat, val: nat, len: nat)
    requires Holds(mem, c, p, val, len)
    ensures len == p + Times8(|mem|)
  {
  }

  lemma {:induction false} HoldsAdd(mem: seq<byte>, c: nat, p: nat, val: nat, len: nat, v: nat, n: nat)
    requires Holds(mem, c, p, val, len) && v < Pow2(n)
    ensures Holds(mem, c + Shl(v, p), p + n, val + Shl(v, len), len + n)
  {
    PushFits(c, p, v, n);
    ShlAdd(c, Shl(v, p), Times8(|mem|));
    ShlShl(v, p, Times8(|mem|));
  }

  /** Moving the low `k` bits of the register to memory keeps the value. */
  lemma {:induction false} MoveLow(c: nat, m: nat, k: nat)
    ensures Shl(c, m) == Shl(Low(c, k), m) + Shl(Shr(c, k), k + m)
  {
    var lo, hi := Low(c, k), Shl(Shr(c, k), k);
    Split(c, k);
    assert c == lo + hi;
    ShlAdd(lo, hi, m);
    ShlShl(Shr(c, k), k, m);
  }

  lemma {:induction false} HoldsFlush(mem: seq<byte>, c: nat, p: nat, val: nat, len: nat, k: nat)
    requires Holds(mem, c, p, val, len) && Times8(k) <= p
    ensures Holds(mem + ToLE(c, k), Shr(c, Times8(k)), p - Times8(k), val, len)
  {
    hide Shl, Shr, Low, LE, ToLE, Pow2;
    var w := ToLE(c, k);
    LEConcat(mem, w);
    LEToLE(c, k);
    MoveLow(c, Times8(|mem|), Times8(k));
    ShrBound(c, Times8(k), p - Times8(k));
  }

  /** With the end mark pushed and at most 7 bits left in the register, memory plus one byte is closed. */
  lemma {:induction false} HoldsClosed(mem: seq<byte>, c: nat, p: nat, val: nat, len: nat)
    requires Holds(mem, c, p, val + Pow2(len), len + 1) && val < Pow2(len) && p < 8
    ensures p == 0 ==> Represents(mem, val, len)
    ensures c < 256
    ensures p > 0 ==> Represents(mem + [c], val, len)
  {
    SmallPowers();
    Pow2Mono(p, 8);
    LEConcat(mem, [c]);
    ShlZero(Times8(|mem|));
  }

  /** The OR into the 64-bit register loses nothing. */
  lemma {:induction false} RegisterAdd(c: nat, p: nat, v: nat, n: nat)
    requires c < Pow2(p) && v < Pow2(n) && p + n < WORD
    ensures BitOr(c, Trunc64(Shl(v, p))) == c + Shl(v, p) < Pow2(p + n)
  {
    hide Shl, Pow2, BitOr;
    PushFits(c, p, v, n);
    OrIsSum(c, v, p);
    TruncSmall(Shl(v, p), p + n);
  }

  /** BIT_CStream_t. `val`/`len` are the bits pushed so far; `clamped` records a clamped flush. */
  class CStream {
    var bitContainer: nat
    var bitPos: nat
    const buf: array<byte>
    const startPtr: nat
    var ptr: nat
    const endPtr: nat
    ghost var val: nat
    ghost var len: nat
    ghost var clamped: bool

    /** The stream, which a flush without a check may have taken past `endPtr`. */
    ghost predicate Sound()
      reads this, buf
    {
      && startPtr < endPtr && endPtr + 8 <= buf.Length
      && startPtr <= ptr <= buf.Length
      && bitPos < WORD
      && bitContainer < Pow2(bitPos)
      && val < Pow2(len)
      && (clamped ==> ptr == endPtr && bitPos + Times8(endPtr - startPtr) <= len)
      && (!clamped ==> Holds(buf[startPtr..ptr], bitContainer, bitPos, val, len))
    }

    ghost predicate Valid()
      reads this, buf
    {
      Sound() && ptr <= endPtr && ptr + 8 <= buf.Length
    }

    /** Everything outside [startPtr, end) is as before. */
    twostate predicate FramedTo(end: nat)
      reads this, buf
    {
      forall k | 0 <= k < buf.Length && !(startPtr <= k < end) :: buf[k] == old(buf[k])
    }

    /** Everything outside the destination window [startPtr, endPtr + 8) is as before. */
    twostate predicate Framed()
      reads this, buf
    {
      forall k | 0 <= k < buf.Length && !(startPtr <= k < endPtr + 8) :: buf[k] == old(buf[k])
    }

    /** BIT_initCStream, for a capacity it accepts. */
    constructor (dst: array<byte>, start: nat, dstCapacity: nat)
      requires start + dstCapacity <= dst.Length
      requires dstCapacity > 8
      ensures Valid() && buf == dst && startPtr == start && endPtr == start + dstCapacity - 8
      ensures bitPos == 0 && val == 0 && len == 0 && !clamped
    {
      bitContainer, bitPos := 0, 0;
      buf, startPtr, ptr, endPtr := dst, start, start, start + dstCapacity - 8;
      val, len, clamped := 0, 0, false;
      new;
      assert Pow2(0) == 1;
      assert buf[startPtr..ptr] == [];
    }

    /** BIT_addBits: masks `value` to `nbBits` bits and ORs them in above the bits held. */
    method AddBits(value: nat, nbBits: nat)
      requires Sound()
      requires nbBits < MASK_SIZE && nbBits + bitPos < WORD
      modifies this`bitContainer, this`bitPos, this`val, this`len
      ensures Sound()
      ensures bitPos == old(bitPos) + nbBits
      ensures val == old(val) + Shl(Low(value, nbBits), old(len)) && len == old(len) + nbBits
    {
      Split(value, nbBits);
      AddMasked(Low(value, nbBits), nbBits);
    }

    /** BIT_addBitsFast: as AddBits, for a value that is already clean. */
    method AddBitsFast(value: nat, nbBits: nat)
      requires Sound()
      requires value < Pow2(nbBits) && nbBits + bitPos < WORD
      modifies this`bitContainer, this`bitPos, this`val, this`len
      ensures Sound()
      ensures bitPos == old(bitPos) + nbBits
      ensures val == old(val) + Shl(value, old(len)) && len == old(len) + nbBits
    {
      AddMasked(value, nbBits);
    }

    method AddMasked(v: nat, nbBits: nat)
      requires Sound()
      requires v < Pow2(nbBits) && nbBits + bitPos < WORD
      modifies this`bitContainer, this`bitPos, this`val, this`len
      ensures Sound()
      ensures bitPos == old(bitPos) + nbBits
      ensures val == old(val) + Shl(v, old(len)) && len == old(len) + nbBits
    {
      hide Pow2, Shl, LE, BitOr, Trunc64, Holds;
      RegisterAdd(bitContainer, bitPos, v, nbBits);
      PushFits(val, len, v, nbBits);
      ghost var mem := buf[startPtr..ptr];
      if !clamped { HoldsAdd(mem, bitContainer, bitPos, val, len, v, nbBits); }
      bitContainer := BitOr(bitContainer, Trunc64(Shl(v, bitPos)));
      val, len := val + Shl(v, len), len + nbBits;
      bitPos := bitPos + nbBits;
      assert buf[startPtr..ptr] == mem;
    }

    /** BIT_flushBits: whole bytes go to memory; a position past `endPtr` is clamped, silently and after the store. */
    method FlushBits()
      requires Sound() && ptr + 8 <= buf.Length
      modifies this`bitContainer, this`bitPos, this`ptr, this`clamped, buf
      ensures Valid() && FramedTo(if old(ptr) > endPtr then old(ptr) + 8 else endPtr + 8)
      ensures old(ptr) <= endPtr ==> Framed()
      ensures bitPos == Low(old(bitPos), 3) < 8
      ensures ptr < endPtr ==> buf[ptr] == bitContainer
      ensures old(clamped) ==> clamped
      ensures old(bitPos) <= 56 ==> buf[old(ptr) + 7] == 0
    {
      hide Pow2, Shl, Shr, Low, LE, ToLE, Holds;
      BytesAndBits(bitPos);
      ghost var c0 := bitContainer;
      var nbBytes := StoreRegister();
      if bitPos <= 56 { TopByte(c0, bitPos); }
      if !clamped { HoldsLength(buf[startPtr..ptr] + ToLE(c0, nbBytes), Shr(c0, Times8(nbBytes)), bitPos - Times8(nbBytes), val, len); }
      ptr := ptr + nbBytes;
      bitPos := Low(bitPos, 3);
      bitContainer := Shr(bitContainer, Times8(nbBytes));
      if ptr > endPtr {
        ptr := endPtr;
        clamped := true;
      }
    }

    /** BIT_flushBitsFast: as FlushBits, without the check. */
    method FlushBitsFast()
      requires Sound() && !clamped && ptr + 8 <= buf.Length
      modifies this`bitContainer, this`bitPos, this`ptr, buf
      ensures Sound() && FramedTo(old(ptr) + 8)
      ensures bitPos == Low(old(bitPos), 3) < 8
    {
      hide Pow2, Shl, Shr, Low, LE, ToLE, Holds;
      BytesAndBits(bitPos);
      var nbBytes := StoreRegister();
      ptr := ptr + nbBytes;
      bitPos := Low(bitPos, 3);
      bitContainer := Shr(bitContainer, Times8(nbBytes));
    }

    /** MEM_writeLEST of the register: the whole bytes it holds are in place, and so are the bits after them. */
    method StoreRegister() returns (nbBytes: nat)
      requires Sound() && ptr + 8 <= buf.Length
      modifies buf
      ensures nbBytes == Shr(bitPos, 3) < 8
      ensures buf[startPtr..ptr] == old(buf[startPtr..ptr]) && buf[ptr..ptr + 8] == ToLE(bitContainer, 8)
      ensures buf[startPtr..ptr + nbBytes] == old(buf[startPtr..ptr]) + ToLE(bitContainer, nbBytes)
      ensures Shr(bitContainer, Times8(nbBytes)) < Pow2(Low(bitPos, 3)) && buf[ptr + nbBytes] == Shr(bitContainer, Times8(nbBytes))
      ensures !clamped ==> Holds(buf[startPtr..ptr + nbBytes], Shr(bitContainer, Times8(nbBytes)), Low(bitPos, 3), val, len)
      ensures forall k | 0 <= k < buf.Length && !(ptr <= k < ptr + 8) :: buf[k] == old(buf[k])
    {
      hide Pow2, Shl, Shr, Low, LE, ToLE, Holds;
      BytesAndBits(bitPos);
      nbBytes := Shr(bitPos, 3);
      ghost var mem := buf[startPtr..ptr];
      StoreLEST(buf, startPtr, ptr, bitContainer);
      ghost var out := buf[startPtr..ptr + 8];
      ShrBound(bitContainer, Times8(nbBytes), Low(bitPos, 3));
      assert |mem| == ptr - startPtr;
      WrittenPrefix(out, mem, bitContainer, nbBytes, Low(bitPos, 3));
      assert buf[startPtr..ptr + nbBytes] == out[..|mem| + nbBytes];
      assert buf[ptr + nbBytes] == out[|mem| + nbBytes];
      assert buf[startPtr..ptr] == out[..|mem|];
      assert buf[ptr..ptr + 8] == out[|mem|..];
      if !clamped { HoldsFlush(mem, bitContainer, bitPos, val, len, nbBytes); }
    }

    /**
      BIT_closeCStream: adds the end mark. The stream is stored exactly if it takes less than the destination
      without its last word; 0 says that it does not.
     */
    method Close() returns (size: nat)
      requires Valid()
      requires bitPos + 1 < WORD
      modifies this`bitContainer, this`bitPos, this`ptr, this`clamped, this`val, this`len, buf
      ensures Framed()
      ensures startPtr + size <= endPtr
      ensures size != 0 ==> Represents(buf[startPtr..startPtr + size], old(val), old(len))
      ensures size != 0 ==> !clamped
      ensures size != 0 <==> RoomFor(old(len), endPtr + 8 - startPtr)
    {
      hide Pow2, Shl, LE, Holds, Represents;
      OneBit();
      AddBitsFast(1, 1);
      FlushBits();
      if !clamped { HoldsLength(buf[startPtr..ptr], bitContainer, bitPos, val, len); }
      if ptr >= endPtr { return 0; }
      size := ptr - startPtr + (if bitPos > 0 then 1 else 0);
      ShlOne(old(len));
      HoldsClosed(buf[startPtr..ptr], bitContainer, bitPos, old(val), old(len));
      assert bitPos > 0 ==> buf[startPtr..startPtr + size] == buf[startPtr..ptr] + [buf[ptr]];
    }
  }

  lemma {:induction false} OneBit()
    ensures 1 < Pow2(1)
  {
    assert Pow2(0) == 1;
  }

  /** The last of the 8 bytes of a register with at most 56 bits. */
  lemma {:induction false} TopByte(c: nat, p: nat)
    requires c < Pow2(p) && p <= 56
    ensures ToLE(c, 8)[7] == 0
  {
    hide Pow2, Shr, Low, ToLE;
    Pow2Mono(p, 56);
    ToLEAt(c, 8, 7);
    ShrBound(c, 56, 0);
    NothingLow(Shr(c, 56));
  }

  lemma {:induction false} NothingLow(x: nat)
    requires x < Pow2(0)
    ensures Low(x, 8) == 0
  {
    assert Pow2(0) == 1;
    LowSmall(0, 8);
  }

  /** MEM_writeLEST at `p`, seen from `start`. */
  method StoreLEST(buf: array<byte>, start: nat, p: nat, x: nat)
    requires start <= p && p + 8 <= buf.Length
    modifies buf
    ensures buf[start..p + 8] == old(buf[start..p]) + ToLE(x, 8)
    ensures forall k | 0 <= k < buf.Length && !(p <= k < p + 8) :: buf[k] == old(buf[k])
  {
    hide ToLE;
    var word := ToLE(x, 8);
    forall k | 0 <= k < 8 { buf[p + k] := word[k]; }
    assert buf[start..p + 8] == buf[start..p] + buf[p..p + 8];
  }

  /** After the 8-byte store, `k` more bytes of the stream are in memory and the next byte is the register. */
  lemma {:induction false} WrittenPrefix(out: seq<byte>, mem: seq<byte>, c: nat, k: nat, p: nat)
    requires k < 8 && p < 8 && Shr(c, Times8(k)) < Pow2(p)
    requires out == mem + ToLE(c, 8)
    ensures out[..|mem| + k] == mem + ToLE(c, k)
    ensures out[|mem| + k] == Shr(c, Times8(k))
  {
    ToLEPrefix(c, 8, k);
    ToLEAt(c, 8, k);
    Pow2Mono(p, 8);
    LowSmall(Shr(c, Times8(k)), 8);
  }

  // ---------- reader ----------

  /** Number of bits before the end mark. */
  ghost function BitLength(c: seq<byte>): nat
    requires |c| > 0 && c[|c| - 1] != 0
  {
    Times8(|c| - 1) + HighBit(c[|c| - 1])
  }

  /** What BIT_initDStream refuses. */
  function InitError(c: seq<byte>): Option<Error> {
    if |c| < 1 then Some(SrcSizeWrong)
    else if c[|c| - 1] == 0 then Some(if |c| >= 8 then Generic else CorruptionDetected)
    else None
  }

  datatype Status = Unfinished | EndOfBuffer | Completed | Overflow

  /** BIT_DStream_t over the `|src|` bytes of `src`; `start` is 0 and `limitPtr` is 8. */
  class DStream {
    const src: seq<byte>
    var bitContainer: nat
    var bitsConsumed: nat
    var ptr: nat

    ghost predicate Valid()
      reads this
    {
      && |src| > 0
      && (if |src| >= 8 then ptr + 8 <= |src| else ptr == 0)
      && bitContainer == Trunc64(Shr(LE(src), Times8(ptr)))
    }

    /** Number of bits not yet consumed; negative once the stream has been over-read. */
    ghost function Left(): int
      reads this
    {
      Times8(ptr) + WORD - bitsConsumed
    }

    /** The register is full, or holds every remaining bit. */
    ghost predicate Filled()
      reads this
    {
      ptr == 0 || bitsConsumed <= 8
    }

    /** BIT_initDStream on a non-empty source; without an end mark it reports an error to its caller. */
    constructor (source: seq<byte>)
      requires |source| > 0
      ensures Valid() && Filled() && src == source
      ensures src[|src| - 1] != 0 ==> Left() == Times8(|src| - 1) + HighBit(src[|src| - 1])
      ensures src[|src| - 1] == 0 ==> bitsConsumed == 0 && Left() == if |src| >= 8 then Times8(|src|) else WORD
      ensures bitsConsumed <= WORD
    {
      hide LE, Shr, Slice;
      var lastByte := source[|source| - 1];
      var consumed := if lastByte != 0 then 8 - HighBit(lastByte) else 0;
      if lastByte != 0 {
        SmallPowers();
        HighBitBelow(lastByte, 8);
      }
      src := source;
      if |source| >= 8 {
        ptr := |source| - 8;
        bitContainer := LE(source[|source| - 8..|source|]);
        bitsConsumed := consumed;
        WindowLoad(source, |source| - 8);
      } else {
        ptr := 0;
        bitContainer := LE(source);
        bitsConsumed := if lastByte != 0 then consumed + Times8(8 - |source|) else 0;
        ShortLoad(source);
      }
    }

    /** BIT_lookBits. */
    function LookBits(nbBits: nat): nat
      reads this
    {
      Low(Shr(bitContainer, ShiftCount(WORD - bitsConsumed - nbBits)), nbBits)
    }

    /** BIT_lookBitsFast. */
    function LookBitsFast(nbBits: nat): nat
      reads this
    {
      Shr(Trunc64(Shl(bitContainer, ShiftCount(bitsConsumed))), ShiftCount(WORD - nbBits))
    }

    /** BIT_endOfDStream. */
    predicate EndOfDStream()
      reads this
    {
      ptr == 0 && bitsConsumed == WORD
    }

    /** BIT_skipBits. */
    method SkipBits(nbBits: nat)
      modifies this`bitsConsumed
      ensures bitsConsumed == old(bitsConsumed) + nbBits
    {
      bitsConsumed := bitsConsumed + nbBits;
    }

    /** BIT_readBits. */
    method ReadBits(nbBits: nat) returns (value: nat)
      requires Valid()
      modifies this`bitsConsumed
      ensures bitsConsumed == old(bitsConsumed) + nbBits
      ensures value < Pow2(nbBits) && value == old(LookBits(nbBits))
      ensures old(bitsConsumed) + nbBits <= WORD ==> Left() >= 0 && value == Slice(LE(src), Left(), nbBits)
    {
      value := LookBits(nbBits);
      LookBitsIsSlice(this, nbBits);
      SkipBits(nbBits);
    }

    /** BIT_readBitsFast. */
    method ReadBitsFast(nbBits: nat) returns (value: nat)
      requires Valid()
      requires 1 <= nbBits <= WORD
      modifies this`bitsConsumed
      ensures bitsConsumed == old(bitsConsumed) + nbBits
      ensures value < Pow2(nbBits)
      ensures old(bitsConsumed) + nbBits <= WORD ==> Left() >= 0 && value == Slice(LE(src), Left(), nbBits)
    {
      value := LookBitsFast(nbBits);
      LookBitsFastIsSlice(this, nbBits);
      SkipBits(nbBits);
    }

    /** BIT_reloadDStreamFast. */
    method ReloadFast() returns (status: Status)
      requires Valid() && (ptr < 8 || bitsConsumed <= WORD)
      modifies this`bitContainer, this`bitsConsumed, this`ptr
      ensures Valid() && Left() == old(Left())
      ensures status == (if old(ptr) < 8 then Overflow else Unfinished) && ptr <= old(ptr)
      ensures status == Overflow ==> ptr == old(ptr) && bitsConsumed == old(bitsConsumed)
      ensures status == Unfinished ==> bitsConsumed < 8 && Left() > 0
    {
      hide Shr, Low, LE, Trunc64;
      if ptr < 8 { return Overflow; }
      BytesAndBits(bitsConsumed);
      ptr := ptr - Shr(bitsConsumed, 3);
      bitsConsumed := Low(bitsConsumed, 3);
      bitContainer := LE(src[ptr..ptr + 8]);
      WindowLoad(src, ptr);
      return Unfinished;
    }

    /**
      BIT_reloadDStream. It keeps the position in the stream, and refills the register from memory.
     */
    method Reload() returns (status: Status)
      requires Valid()
      modifies this`bitContainer, this`bitsConsumed, this`ptr
      ensures Valid() && Left() == old(Left()) && ptr <= old(ptr)
      ensures status == Overflow <==> old(bitsConsumed) > WORD
      ensures status == Overflow ==> ptr == old(ptr) && bitsConsumed == old(bitsConsumed)
      ensures status != Overflow ==> bitsConsumed <= WORD && Filled()
      ensures status == Unfinished ==> bitsConsumed < 8
      ensures status != Overflow ==> (status == Completed <==> Left() == 0)
      ensures status == Completed ==> EndOfDStream()
      ensures status == EndOfBuffer ==> ptr == 0
    {
      hide Shr, Low, LE, Trunc64;
      if bitsConsumed > WORD { return Overflow; }
      if ptr >= 8 {
        status := ReloadFast();
        return;
      }
      if ptr == 0 {
        return if bitsConsumed < WORD then EndOfBuffer else Completed;
      }
      BytesAndBits(bitsConsumed);
      var nbBytes := Shr(bitsConsumed, 3);
      status := Unfinished;
      if ptr < nbBytes {
        nbBytes := ptr;
        status := EndOfBuffer;
      }
      ptr := ptr - nbBytes;
      bitsConsumed := bitsConsumed - Times8(nbBytes);
      bitContainer := LE(src[ptr..ptr + 8]);
      WindowLoad(src, ptr);
    }
  }

  /** Loading the 8 bytes at `p` fills the register with the 64-bit window there. */
  lemma {:induction false} WindowLoad(s: seq<byte>, p: nat)
    requires p + 8 <= |s|
    ensures LE(s[p..p + 8]) == Trunc64(Shr(LE(s), Times8(p)))
  {
    LESlice(s, p, 8);
    var w: nat := 64;
    TruncIsLow(Shr(LE(s), Times8(p)), w);
  }

  lemma {:induction false} ShortLoad(s: seq<byte>)
    requires |s| <= 8
    ensures LE(s) == Trunc64(Shr(LE(s), 0))
  {
    LEBound(s);
    TruncSmall(LE(s), Times8(|s|));
  }

  lemma {:induction false} LookBitsIsSlice(d: DStream, n: nat)
    requires d.Valid()
    ensures d.LookBits(n) < Pow2(n)
    ensures d.bitsConsumed + n <= WORD ==>
              d.Left() - n >= 0 && d.LookBits(n) == Slice(LE(d.src), d.Left() - n, n)
  {
    hide LE, Low, Shr, Trunc64, Pow2, ShiftCount;
    if n == 0 { LowEmpty(); }
    var k := ShiftCount(WORD - d.bitsConsumed - n);
    ShiftCountSmall(WORD - d.bitsConsumed - n);
    Split(Shr(d.bitContainer, k), n);
    if d.bitsConsumed + n <= WORD && n > 0 {
      WindowSlice(LE(d.src), Times8(d.ptr), WORD - d.bitsConsumed - n, n);
    }
  }

  lemma {:induction false} LowEmpty()
    ensures forall x: nat :: Low(x, 0) == 0
  {
  }

  lemma {:induction false} LookBitsFastIsSlice(d: DStream, n: nat)
    requires d.Valid()
    requires 1 <= n <= WORD
    ensures d.LookBitsFast(n) < Pow2(n)
    ensures d.bitsConsumed + n <= WORD ==>
              d.Left() - n >= 0 && d.LookBitsFast(n) == Slice(LE(d.src), d.Left() - n, n)
    ensures WORD - n < d.bitsConsumed < WORD ==>
              d.LookBitsFast(n) == Shl(Slice(LE(d.src), Times8(d.ptr), WORD - d.bitsConsumed), n + d.bitsConsumed - WORD)
  {
    hide LE, Slice, Shl, Shr, Trunc64, ShiftCount;
    ShiftCountSmall(d.bitsConsumed);
    FastField(d.bitContainer, ShiftCount(d.bitsConsumed), n);
    if d.bitsConsumed + n <= WORD {
      WindowSlice(LE(d.src), Times8(d.ptr), WORD - d.bitsConsumed - n, n);
    } else if d.bitsConsumed < WORD {
      WindowSlice(LE(d.src), Times8(d.ptr), 0, WORD - d.bitsConsumed);
    }
  }

  /** The double shift of BIT_lookBitsFast, on a register with `c` bits consumed. */
  lemma {:induction false} FastField(x: nat, c: nat, n: nat)
    requires c < WORD && 1 <= n <= WORD
    ensures var v := Shr(Trunc64(Shl(x, c)), ShiftCount(WORD - n));
            v < Pow2(n)
            && v == if c + n <= WORD then Slice(x, WORD - c - n, n) else Shl(Slice(x, 0, WORD - c), n + c - WORD)
  {
    hide Pow2, Shl, Low, Trunc64, ShiftCount;
    var w: nat := 64;
    TruncIsLow(Shl(x, c), w);
    LowShl(x, w, c);
    Split(Shl(x, c), w);
    var b := w - n;
    assert ShiftCount(WORD - n) == b by { ShiftCountSmall(b); }
    ShrBound(Low(Shl(x, c), w), b, n);
    ShrShl(Low(x, w - c), c, b);
    if c + n <= w { ShrLow(x, w - c, b - c); }
  }
}
