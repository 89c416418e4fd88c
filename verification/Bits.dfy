/**
  Machine-word arithmetic over unbounded naturals: shifts, masks, the highest set bit, bitwise OR, and
  little-endian reads and writes of byte sequences. Everything recurses one bit at a time and uses only
  additions, so that every fact about it is linear.
 */
module Bits {

  type byte = x: int | 0 <= x < 256

  /** x >> 1. */
  function Half(x: nat): (h: nat)
    ensures h + h <= x <= h + h + 1
  {
    if x < 2 then 0 else 1 + Half(x - 2)
  }

  /** x & 1. */
  function Odd(x: nat): (b: nat)
    ensures b <= 1
  {
    x - Half(x) - Half(x)
  }

  /** x << n, before any truncation to a word. */
  function Shl(x: nat, n: nat): nat {
    if n == 0 then x else Shl(x, n - 1) + Shl(x, n - 1)
  }

  /** x >> n. */
  function Shr(x: nat, n: nat): nat {
    if n == 0 then x else Shr(Half(x), n - 1)
  }

  /** x & ((1 << n) - 1). */
  function Low(x: nat, n: nat): nat {
    if n == 0 then 0 else Odd(x) + Low(Half(x), n - 1) + Low(Half(x), n - 1)
  }

  /** 1 << n. */
  function Pow2(n: nat): (p: nat)
    ensures p >= 1
  {
    if n == 0 then 1 else Pow2(n - 1) + Pow2(n - 1)
  }

  /** Truncation to a 64-bit size_t. */
  function Trunc64(x: nat): nat {
    x % 0x1_0000_0000_0000_0000
  }

  /** Shift counts are taken modulo the register size. */
  function ShiftCount(x: int): nat {
    x % 64
  }

  lemma {:induction false} ShiftCountSmall(x: int)
    ensures 0 <= ShiftCount(x) < 64
    ensures 0 <= x < 64 ==> ShiftCount(x) == x
  {
  }

  /** Bits [lo, lo+n) of `x`. */
  function Slice(x: nat, lo: nat, n: nat): nat {
    Low(Shr(x, lo), n)
  }

  /** x & (1 << k). */
  predicate TestBit(x: nat, k: nat) {
    Odd(Shr(x, k)) == 1
  }

  /** BIT_highbit32: index of the highest set bit. */
  function HighBit(x: nat): (h: nat)
    requires x > 0
    ensures Pow2(h) <= x < Pow2(h) + Pow2(h)
  {
    if x == 1 then 0 else 1 + HighBit(Half(x))
  }

  /** Bitwise OR of two words. */
  function BitOr(x: nat, y: nat): nat
    decreases x + y
  {
    if x == 0 then y
    else if y == 0 then x
    else (if Odd(x) == 1 || Odd(y) == 1 then 1 else 0) + BitOr(Half(x), Half(y)) + BitOr(Half(x), Half(y))
  }

  /** Number of bits in `n` bytes. */
  function Times8(n: nat): nat {
    n + n + n + n + n + n + n + n
  }

  /** MEM_readLE on the bytes of `s`. */
  function LE(s: seq<byte>): (v: nat) {
    if |s| == 0 then 0 else s[0] + Shl(LE(s[1..]), 8)
  }

  /** The low byte of `x`. */
  function LowByte(x: nat): (b: byte) {
    ByteBound(x);
    Low(x, 8)
  }

  /** The low `n` bytes of `x`: what MEM_writeLE stores. */
  function ToLE(x: nat, n: nat): (s: seq<byte>)
    ensures |s| == n
    decreases n
  {
    if n == 0 then [] else [LowByte(x)] + ToLE(Shr(x, 8), n - 1)
  }

  // ---------- halves ----------

  lemma {:induction false} HalfUnique(x: nat, h: nat)
    requires h + h <= x <= h + h + 1
    ensures Half(x) == h
  {
  }

  // ---------- powers of two ----------

  lemma {:induction false} PowNext(n: nat)
    ensures Pow2(n + 1) == Pow2(n) + Pow2(n)
  {
  }

  lemma {:induction false} Pow2Mono(a: nat, b: nat)
    requires a <= b
    ensures Pow2(a) <= Pow2(b)
    decreases b
  {
    if a < b { Pow2Mono(a, b - 1); }
  }

  lemma {:induction false} Pow2Strict(a: nat, b: nat)
    requires a < b
    ensures Pow2(a) + Pow2(a) <= Pow2(b)
  {
    Pow2Mono(a + 1, b);
  }

  lemma {:induction false} Pow2IsShl(a: nat, b: nat)
    ensures Shl(Pow2(a), b) == Pow2(a + b)
  {
    if b > 0 { Pow2IsShl(a, b - 1); }
  }

  lemma {:induction false} HighBitUnique(x: nat, h: nat)
    requires x > 0
    requires Pow2(h) <= x < Pow2(h) + Pow2(h)
    ensures HighBit(x) == h
  {
    var k := HighBit(x);
    if k < h { Pow2Strict(k, h); }
    if h < k { Pow2Strict(h, k); }
  }

  lemma {:induction false} HighBitBelow(x: nat, n: nat)
    requires 0 < x < Pow2(n)
    ensures HighBit(x) < n
  {
    if n <= HighBit(x) { Pow2Mono(n, HighBit(x)); }
  }

  lemma {:induction false} SmallPowers()
    ensures Pow2(1) == 2 && Pow2(3) == 8 && Pow2(4) == 16 && Pow2(7) == 128 && Pow2(8) == 256
  {
    assert Pow2(0) == 1 && Pow2(1) == 2 && Pow2(2) == 4 && Pow2(3) == 8;
    assert Pow2(5) == 32 && Pow2(6) == 64;
  }

  // ---------- shifts ----------

  lemma {:induction false} ShlAdd(x: nat, y: nat, n: nat)
    ensures Shl(x + y, n) == Shl(x, n) + Shl(y, n)
  {
    if n > 0 { ShlAdd(x, y, n - 1); }
  }

  lemma {:induction false} ShlZero(n: nat)
    ensures Shl(0, n) == 0
  {
    if n > 0 { ShlZero(n - 1); }
  }

  lemma {:induction false} ShlShl(x: nat, a: nat, b: nat)
    ensures Shl(Shl(x, a), b) == Shl(x, a + b)
  {
    if b > 0 { ShlShl(x, a, b - 1); }
  }

  lemma {:induction false} ShlMono(x: nat, y: nat, n: nat)
    requires x <= y
    ensures Shl(x, n) <= Shl(y, n)
  {
    if n > 0 { ShlMono(x, y, n - 1); }
  }

  lemma {:induction false} ShlOne(n: nat)
    ensures Shl(1, n) == Pow2(n)
  {
    if n > 0 { ShlOne(n - 1); }
  }

  lemma {:induction false} ShrShr(x: nat, a: nat, b: nat)
    ensures Shr(Shr(x, a), b) == Shr(x, a + b)
  {
    if a > 0 { ShrShr(Half(x), a - 1, b); }
  }

  lemma {:induction false} HalfOfShl(x: nat, n: nat)
    requires n > 0
    ensures Half(Shl(x, n)) == Shl(x, n - 1) && Odd(Shl(x, n)) == 0
  {
    HalfUnique(Shl(x, n), Shl(x, n - 1));
  }

  lemma {:induction false} ShrShl(x: nat, a: nat, b: nat)
    ensures Shr(Shl(x, a), b) == if b < a then Shl(x, a - b) else Shr(x, b - a)
  {
    if a > 0 && b > 0 {
      HalfOfShl(x, a);
      ShrShl(x, a - 1, b - 1);
    }
  }

  // ---------- splitting a word at bit n ----------

  lemma {:induction false} Split(x: nat, n: nat)
    ensures x == Low(x, n) + Shl(Shr(x, n), n)
    ensures Low(x, n) < Pow2(n)
  {
    if n > 0 { Split(Half(x), n - 1); }
  }

  lemma {:induction false} Join(r: nat, q: nat, n: nat)
    requires r < Pow2(n)
    ensures Low(r + Shl(q, n), n) == r
    ensures Shr(r + Shl(q, n), n) == q
  {
    if n > 0 {
      HalfUnique(r + Shl(q, n), Half(r) + Shl(q, n - 1));
      Join(Half(r), q, n - 1);
    }
  }

  lemma {:induction false} LowSmall(x: nat, n: nat)
    requires x < Pow2(n)
    ensures Low(x, n) == x && Shr(x, n) == 0
  {
    ShlZero(n);
    Join(x, 0, n);
  }

  lemma {:induction false} ByteBound(x: nat)
    ensures Low(x, 8) < 256
  {
    Split(x, 8);
    SmallPowers();
  }

  lemma {:induction false} ShrBound(x: nat, k: nat, n: nat)
    requires x < Pow2(k + n)
    ensures Shr(x, k) < Pow2(n)
  {
    if k > 0 { ShrBound(Half(x), k - 1, n); }
  }

  lemma {:induction false} ShlBound(v: nat, n: nat, t: nat)
    requires v < Pow2(n)
    ensures Shl(v, t) + Pow2(t) <= Pow2(t + n)
  {
    if t > 0 { ShlBound(v, n, t - 1); }
  }

  lemma {:induction false} HalfOfLow(x: nat, n: nat)
    requires n > 0
    ensures Half(Low(x, n)) == Low(Half(x), n - 1) && Odd(Low(x, n)) == Odd(x)
  {
    HalfUnique(Low(x, n), Low(Half(x), n - 1));
  }

  lemma {:induction false} LowLow(x: nat, a: nat, b: nat)
    requires a <= b
    ensures Low(Low(x, b), a) == Low(x, a)
  {
    if a > 0 {
      HalfOfLow(x, b);
      LowLow(Half(x), a - 1, b - 1);
    }
  }

  lemma {:induction false} ShrLow(x: nat, w: nat, b: nat)
    requires b <= w
    ensures Shr(Low(x, w), b) == Low(Shr(x, b), w - b)
  {
    if b > 0 {
      HalfOfLow(x, w);
      ShrLow(Half(x), w - 1, b - 1);
    }
  }

  lemma {:induction false} LowShl(x: nat, w: nat, b: nat)
    requires b <= w
    ensures Low(Shl(x, b), w) == Shl(Low(x, w - b), b)
  {
    if b > 0 {
      HalfOfShl(x, b);
      LowShl(x, w - 1, b - 1);
    }
  }

  lemma {:induction false} HalfOfSum(a: nat, b: nat)
    ensures Half(a + b) == Half(a) + Half(Odd(a) + b) && Odd(a + b) == Odd(Odd(a) + b)
  {
    HalfUnique(a + b, Half(a) + Half(Odd(a) + b));
  }

  lemma {:induction false} OddSum(a: nat, b: nat)
    ensures Odd(a + b) == if Odd(a) == Odd(b) then 0 else 1
  {
    HalfUnique(a + b, Half(a) + Half(b) + (if Odd(a) == 1 && Odd(b) == 1 then 1 else 0));
  }

  lemma {:induction false} ShiftNone(x: nat)
    ensures Shr(x, 0) == x && Shl(x, 0) == x
  {
  }

  /** The first bits of a number. */
  lemma {:induction false} SliceFirst(x: nat, n: nat)
    ensures Slice(x, 0, n) == Low(x, n)
  {
    hide Low;
    ShiftNone(x);
  }

  /** A field of a field is a field of the whole. */
  lemma {:induction false} SliceSlice(x: nat, a: nat, w: nat, b: nat, n: nat)
    requires b + n <= w
    ensures Slice(Slice(x, a, w), b, n) == Slice(x, a + b, n)
  {
    ShrLow(Shr(x, a), w, b);
    ShrShr(x, a, b);
    LowLow(Shr(x, a + b), n, w - b);
  }

  lemma {:induction false} SliceLow(x: nat, m: nat, lo: nat, n: nat)
    requires lo + n <= m
    ensures Slice(Low(x, m), lo, n) == Slice(x, lo, n)
  {
    SliceSlice(x, 0, m, lo, n);
  }

  /** Reading back the field `v` pushed above the `t` bits `s`: the field, and the bits left. */
  lemma {:induction false} SliceTop(x: nat, t: nat, n: nat, s: nat, v: nat)
    requires s < Pow2(t) && v < Pow2(n)
    requires Low(x, t + n) == s + Shl(v, t)
    ensures Slice(x, t, n) == v
    ensures Low(x, t) == s
  {
    Join(s, v, t);
    LowLow(x, t, t + n);
    SliceLow(x, t + n, t, n);
    LowSmall(v, n);
  }

  lemma {:induction false} PushFits(s: nat, t: nat, v: nat, n: nat)
    requires s < Pow2(t) && v < Pow2(n)
    ensures s + Shl(v, t) < Pow2(t + n)
  {
    ShlBound(v, n, t);
  }

  // ---------- 64-bit truncation ----------

  function Pow256(n: nat): (p: nat)
    ensures p >= 1
  {
    if n == 0 then 1 else 256 * Pow256(n - 1)
  }

  lemma {:induction false} ShlByte(x: nat)
    ensures Shl(x, 8) == 256 * x
  {
    assert Shl(x, 0) == x && Shl(x, 1) == x + x && Shl(x, 2) == 4 * x && Shl(x, 3) == 8 * x;
    assert Shl(x, 4) == 16 * x && Shl(x, 5) == 32 * x && Shl(x, 6) == 64 * x && Shl(x, 7) == 128 * x;
  }

  /** A field of at most `n` bytes. */
  lemma {:induction false} BytesBound(k: nat, n: nat)
    requires k <= Times8(n)
    ensures Pow2(k) <= Pow256(n)
    decreases n
  {
    if k >= 8 {
      Pow2IsShl(k - 8, 8);
      ShlByte(Pow2(k - 8));
      BytesBound(k - 8, n - 1);
    } else if k > 0 {
      Pow2Mono(k, 7);
      SmallPowers();
    }
  }

  lemma {:induction false} WordBound(k: nat)
    requires k <= 64
    ensures Pow2(k) <= 0x1_0000_0000_0000_0000
  {
    BytesBound(k, 8);
  }

  function Times256(x: nat, n: nat): nat {
    if n == 0 then x else 256 * Times256(x, n - 1)
  }

  lemma {:induction false} ShlBytes(x: nat, n: nat)
    ensures Shl(x, Times8(n)) == Times256(x, n)
  {
    if n > 0 {
      ShlShl(x, Times8(n - 1), 8);
      ShlByte(Shl(x, Times8(n - 1)));
      ShlBytes(x, n - 1);
    }
  }

  lemma {:induction false} Times256Word(x: nat)
    ensures Times256(x, 8) == 0x1_0000_0000_0000_0000 * x
  {
    assert Times256(x, 1) == 256 * Times256(x, 0);
    assert Times256(x, 2) == 256 * Times256(x, 1);
    assert Times256(x, 3) == 256 * Times256(x, 2);
    assert Times256(x, 4) == 256 * Times256(x, 3);
    assert Times256(x, 5) == 256 * Times256(x, 4);
    assert Times256(x, 6) == 256 * Times256(x, 5);
    assert Times256(x, 7) == 256 * Times256(x, 6);
  }

  /** The 64-bit truncation is a mask. */
  lemma {:induction false} TruncIsLow(x: nat, w: nat)
    requires w == 64
    ensures Trunc64(x) == Low(x, w)
  {
    hide Low, Shl, Shr, Pow2, Times256;
    Split(x, w);
    WordBound(w);
    ShlBytes(Shr(x, w), 8);
    Times256Word(Shr(x, w));
  }

  lemma {:induction false} TruncSmall(x: nat, n: nat)
    requires x < Pow2(n) && n <= 64
    ensures Trunc64(x) == x
  {
    WordBound(n);
  }

  /** A field of a 64-bit window is a field of the whole. */
  lemma {:induction false} WindowSlice(x: nat, a: nat, b: nat, n: nat)
    requires b + n <= 64
    ensures Slice(Trunc64(Shr(x, a)), b, n) == Slice(x, a + b, n)
  {
    hide Trunc64;
    var w: nat := 64;
    TruncIsLow(Shr(x, a), w);
    SliceSlice(x, a, w, b, n);
  }

  /** Whole bytes and remaining bits of a bit count. */
  lemma {:induction false} BytesAndBits(n: nat)
    ensures n == Times8(Shr(n, 3)) + Low(n, 3) && Low(n, 3) < 8
  {
    Split(n, 3);
    SmallPowers();
    var q := Shr(n, 3);
    assert Shl(q, 0) == q && Shl(q, 1) == q + q && Shl(q, 2) == q + q + q + q;
  }

  // ---------- bitwise OR ----------

  lemma {:induction false} OrIsSum(x: nat, v: nat, n: nat)
    requires x < Pow2(n)
    ensures BitOr(x, Shl(v, n)) == x + Shl(v, n)
  {
    if n > 0 && x > 0 && Shl(v, n) > 0 {
      HalfOfShl(v, n);
      OrIsSum(Half(x), v, n - 1);
    }
  }

  // ---------- little-endian numbers ----------

  lemma {:induction false} LEConcat(a: seq<byte>, b: seq<byte>)
    ensures LE(a + b) == LE(a) + Shl(LE(b), Times8(|a|))
  {
    if |a| == 0 {
      assert a + b == b;
    } else {
      assert (a + b)[1..] == a[1..] + b;
      LEConcat(a[1..], b);
      ShlAdd(LE(a[1..]), Shl(LE(b), Times8(|a| - 1)), 8);
      ShlShl(LE(b), Times8(|a| - 1), 8);
    }
  }

  lemma {:induction false} LEBound(a: seq<byte>)
    ensures LE(a) < Pow2(Times8(|a|))
  {
    if |a| > 0 {
      LEBound(a[1..]);
      SmallPowers();
      PushFits(a[0], 8, LE(a[1..]), Times8(|a| - 1));
    }
  }

  lemma {:induction false} LowParts(x: nat, a: nat, b: nat)
    ensures Low(x, a + b) == Low(x, a) + Shl(Low(Shr(x, a), b), a)
  {
    hide Low, Shr, Shl, Pow2;
    LowLow(x, a, a + b);
    ShrLow(x, a + b, a);
    Split(Low(x, a + b), a);
  }

  lemma {:induction false} LEToLE(x: nat, n: nat)
    ensures LE(ToLE(x, n)) == Low(x, Times8(n))
    decreases n
  {
    hide Shr, Shl, Low, ToLE, LE;
    ToLEUnfold(x, n);
    if n > 0 {
      LEToLE(Shr(x, 8), n - 1);
      LowParts(x, 8, Times8(n - 1));
      LEUnfold(LowByte(x), ToLE(Shr(x, 8), n - 1));
    }
  }

  lemma {:induction false} ToLEUnfold(x: nat, n: nat)
    ensures ToLE(x, n) == if n == 0 then [] else [LowByte(x)] + ToLE(Shr(x, 8), n - 1)
    ensures LE([]) == 0 && Low(x, 0) == 0 && LowByte(x) == Low(x, 8)
  {
    ByteBound(x);
  }

  lemma {:induction false} LEUnfold(b: byte, s: seq<byte>)
    ensures LE([b] + s) == b + Shl(LE(s), 8)
  {
    assert ([b] + s)[1..] == s;
  }

  lemma {:induction false} ToLEAt(x: nat, n: nat, k: nat)
    requires k < n
    ensures ToLE(x, n)[k] == Slice(x, Times8(k), 8)
    decreases n
  {
    if k > 0 {
      ToLEAt(Shr(x, 8), n - 1, k - 1);
      ShrShr(x, 8, Times8(k - 1));
    }
  }

  lemma {:induction false} ToLEPrefix(x: nat, n: nat, k: nat)
    requires k <= n
    ensures ToLE(x, n)[..k] == ToLE(x, k)
    decreases n
  {
    if k > 0 {
      ToLEPrefix(Shr(x, 8), n - 1, k - 1);
      assert ToLE(x, n)[..k] == [LowByte(x)] + ToLE(Shr(x, 8), n - 1)[..k - 1];
    }
  }

  /** A window of bytes is the corresponding bit field. */
  lemma {:induction false} LEWindow(a: seq<byte>, b: seq<byte>, c: seq<byte>)
    ensures LE(b) == Slice(LE(a + b + c), Times8(|a|), Times8(|b|))
  {
    hide LE, Shl, Low, Shr, Pow2;
    assert a + b + c == a + (b + c);
    LEConcat(a, b + c);
    LEConcat(b, c);
    LEBound(a);
    LEBound(b);
    Join(LE(a), LE(b + c), Times8(|a|));
    Join(LE(b), LE(c), Times8(|b|));
  }

  lemma {:induction false} LESlice(s: seq<byte>, p: nat, n: nat)
    requires p + n <= |s|
    ensures LE(s[p..p + n]) == Slice(LE(s), Times8(p), Times8(n))
  {
    hide LE, Slice;
    LEWindow(s[..p], s[p..p + n], s[p + n..]);
    assert s[..p] + s[p..p + n] + s[p + n..] == s;
  }
}
