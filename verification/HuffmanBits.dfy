/**
  Bit strings in byte arrays as in huffman.c: bit `i` is bit `i` % 8 of byte `i` / 8, counted from the least
  significant one. Bytes are filled bit by bit.
 */
module HuffmanBits {
  import opened Bits

  /** numbytes_from_numbits. */
  function NumBytes(numbits: nat): nat {
    Shr(numbits, 3) + (if Low(numbits, 3) == 0 then 0 else 1)
  }

  /** get_bit; false outside the array. */
  predicate GetBit(bytes: seq<byte>, i: nat) {
    Shr(i, 3) < |bytes| && TestBit(bytes[Shr(i, 3)], Low(i, 3))
  }

  /** `v` |= `b` << `k`. */
  function SetBit(v: nat, k: nat, b: bool): nat {
    if b then BitOr(v, Shl(1, k)) else v
  }

  /** The first bits in `bytes` are `bits`. */
  ghost predicate Carries(bytes: seq<byte>, bits: seq<bool>) {
    |bits| <= Times8(|bytes|) && forall i: nat | i < |bits| :: GetBit(bytes, i) == bits[i]
  }

  /** `bytes` are the bytes that `bits` take, and the rest of the last byte is still clear. */
  ghost predicate Filled(bytes: seq<byte>, bits: seq<bool>) {
    && |bytes| == NumBytes(|bits|) && Carries(bytes, bits)
    && (Low(|bits|, 3) != 0 ==> bytes[|bytes| - 1] < Pow2(Low(|bits|, 3)))
  }

  lemma {:induction false} TestLow(x: nat, k: nat, i: nat)
    requires i < k
    ensures TestBit(Low(x, k), i) == TestBit(x, i)
  {
    HalfOfLow(x, k);
    if i > 0 { TestLow(Half(x), k - 1, i - 1); }
  }

  lemma {:induction false} SetBitIs(v: nat, k: nat, b: bool)
    requires v < Pow2(k)
    ensures SetBit(v, k, b) < Pow2(k + 1) && TestBit(SetBit(v, k, b), k) == b
    ensures forall i: nat | i < k :: TestBit(SetBit(v, k, b), i) == TestBit(v, i)
  {
    var q := if b then 1 else 0;
    var w := v + Shl(q, k);
    OrIsSum(v, 1, k);
    ShlZero(k);
    assert SetBit(v, k, b) == w;
    Join(v, q, k);
    PushFits(v, k, q, 1);
    forall i: nat | i < k ensures TestBit(w, i) == TestBit(v, i) { TestLow(w, k, i); }
  }

  /** The place of bit `i` is determined. */
  lemma {:induction false} Place(q: nat, k: nat)
    requires k < 8
    ensures Shr(Times8(q) + k, 3) == q && Low(Times8(q) + k, 3) == k
  {
    BytesAndBits(Times8(q) + k);
  }

  lemma {:induction false} NumBytesBound(n: nat)
    ensures n <= Times8(NumBytes(n)) < n + 8
    ensures NumBytes(n + 1) == if Low(n, 3) == 0 then NumBytes(n) + 1 else NumBytes(n)
    ensures Shr(n, 3) == if Low(n, 3) == 0 then NumBytes(n) else NumBytes(n) - 1
    ensures Low(n + 1, 3) == if Low(n, 3) == 7 then 0 else Low(n, 3) + 1
  {
    hide Shr, Low;
    BytesAndBits(n);
    var q, k := Shr(n, 3), Low(n, 3);
    if k < 7 { Place(q, k + 1); } else { Place(q + 1, 0); }
  }

  /** The bytes after one more bit: a new byte if the last one is full. */
  function Extended(bytes: seq<byte>, n: nat): seq<byte> {
    if Low(n, 3) == 0 then bytes + [0] else bytes
  }

  /** One bit at the end. */
  lemma {:induction false} FillNext(bytes: seq<byte>, bits: seq<bool>, b: bool)
    requires Filled(bytes, bits)
    ensures var n := |bits|; var e := Extended(bytes, n);
            && |e| == Shr(n, 3) + 1 && SetBit(e[Shr(n, 3)], Low(n, 3), b) < 256
            && Filled(e[Shr(n, 3) := SetBit(e[Shr(n, 3)], Low(n, 3), b)], bits + [b])
  {
    hide Shr, Low, Pow2, SetBit, TestBit;
    var n := |bits|;
    var q, k := Shr(n, 3), Low(n, 3);
    var e := Extended(bytes, n);
    NumBytesBound(n);
    BytesAndBits(n);
    FirstPower();
    SetBitIs(e[q], k, b);
    Pow2Mono(k + 1, 8);
    SmallPowers();
    var w := SetBit(e[q], k, b);
    forall i: nat | i < n + 1 ensures GetBit(e[q := w], i) == (bits + [b])[i] { KeptBit(bytes, bits, b, w, i); }
  }

  lemma {:induction false} FirstPower()
    ensures Pow2(0) == 1
  {
  }

  lemma {:induction false} KeptBit(bytes: seq<byte>, bits: seq<bool>, b: bool, w: byte, i: nat)
    requires Carries(bytes, bits) && |bytes| == NumBytes(|bits|) && i < |bits| + 1
    requires var n := |bits|; var e := Extended(bytes, n);
             && |e| == Shr(n, 3) + 1 && TestBit(w, Low(n, 3)) == b
             && forall j: nat | j < Low(n, 3) :: TestBit(w, j) == TestBit(e[Shr(n, 3)], j)
    ensures GetBit(Extended(bytes, |bits|)[Shr(|bits|, 3) := w], i) == (bits + [b])[i]
  {
    hide Shr, Low, TestBit;
    var n := |bits|;
    NumBytesBound(n);
    BytesAndBits(n);
    BytesAndBits(i);
    if i < n { assert GetBit(bytes, i) == bits[i]; }
  }

  // ---------- numbers in network byte order ----------

  function Reversed(s: seq<byte>): (r: seq<byte>)
    ensures |r| == |s|
  {
    if |s| == 0 then [] else Reversed(s[1..]) + [s[0]]
  }

  lemma {:induction false} ReversedTwice(s: seq<byte>)
    ensures Reversed(Reversed(s)) == s
  {
    if |s| > 0 {
      ReversedTwice(s[1..]);
      ReversedSnoc(Reversed(s[1..]), s[0]);
    }
  }

  lemma {:induction false} ReversedSnoc(s: seq<byte>, x: byte)
    ensures Reversed(s + [x]) == [x] + Reversed(s)
  {
    if |s| > 0 {
      assert (s + [x])[1..] == s[1..] + [x];
      ReversedSnoc(s[1..], x);
    }
  }

  /** The four bytes of htonl(`x`), for a 32-bit `x`. */
  function ToNet(x: nat): (s: seq<byte>)
    ensures |s| == 4
  {
    Reversed(ToLE(x, 4))
  }

  /** ntohl of four bytes. */
  function FromNet(s: seq<byte>): nat {
    LE(Reversed(s))
  }

  lemma {:induction false} NetRoundTrip(x: nat)
    ensures FromNet(ToNet(x)) == Low(x, 32)
  {
    ReversedTwice(ToLE(x, 4));
    LEToLE(x, 4);
  }
}
