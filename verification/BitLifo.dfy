/**
  The law of the bit stream: what is pushed last is read first. Any fields, with any flushes in between that
  keep the register below 64 bits, come back in reverse order, whether the stream is shorter or longer than
  the register.
 */
module BitLifo {
  import opened Bits
  import opened BitStream

  /** Fields that AddBits accepts. */
  ghost predicate Fields(fields: seq<BitString>) {
    forall i | 0 <= i < |fields| :: fields[i].len < MASK_SIZE && fields[i].val < Pow2(fields[i].len)
  }

  /** The first `n` fields, each on top of those before it. */
  ghost function Stack(fields: seq<BitString>, n: nat): BitString
    requires n <= |fields|
  {
    if n == 0 then BitString(0, 0)
    else
      var below := Stack(fields, n - 1);
      BitString(below.val + Shl(fields[n - 1].val, below.len), below.len + fields[n - 1].len)
  }

  /** Bits held in the register after `n` fields, when `flush[i]` says whether a flush follows field `i`. */
  function Held(fields: seq<BitString>, flush: seq<bool>, n: nat): nat
    requires n <= |fields| == |flush|
  {
    if n == 0 then 0
    else
      var held := Held(fields, flush, n - 1) + fields[n - 1].len;
      if flush[n - 1] then Low(held, 3) else held
  }

  /** The flushes keep the register below 64 bits, the end mark included. */
  ghost predicate KeepsUp(fields: seq<BitString>, flush: seq<bool>) {
    && |fields| == |flush|
    && (forall i: nat {:trigger Held(fields, flush, i)} | i < |fields| :: Held(fields, flush, i) + fields[i].len < WORD)
    && Held(fields, flush, |fields|) + 1 < WORD
  }

  lemma {:induction false} StackFits(fields: seq<BitString>, n: nat)
    requires Fields(fields) && n <= |fields|
    ensures Stack(fields, n).val < Pow2(Stack(fields, n).len)
  {
    if n == 0 {
      assert Pow2(0) == 1;
    } else {
      StackFits(fields, n - 1);
      PushFits(Stack(fields, n - 1).val, Stack(fields, n - 1).len, fields[n - 1].val, fields[n - 1].len);
    }
  }

  /** The top field of a stack, and what is below it. */
  lemma {:induction false} StackTop(fields: seq<BitString>, n: nat, stream: nat)
    requires Fields(fields) && 0 < n <= |fields| && Low(stream, Stack(fields, n).len) == Stack(fields, n).val
    ensures var below := Stack(fields, n - 1);
            Slice(stream, below.len, fields[n - 1].len) == fields[n - 1].val && Low(stream, below.len) == below.val
            && Stack(fields, n).len == below.len + fields[n - 1].len && fields[n - 1].len < MASK_SIZE && (n == 1 ==> below.len == 0)
  {
    hide Slice, Low, Shl, Pow2;
    StackFits(fields, n - 1);
    var below := Stack(fields, n - 1);
    SliceTop(stream, below.len, fields[n - 1].len, below.val, fields[n - 1].val);
  }

  /** The writer after `n` fields. */
  ghost predicate Wrote(bitC: CStream, dst: array<byte>, fields: seq<BitString>, flush: seq<bool>, n: nat)
    requires n <= |fields| == |flush|
    reads bitC, bitC.buf
  {
    && bitC.Valid() && bitC.buf == dst && bitC.startPtr == 0 && bitC.endPtr + 8 == dst.Length
    && bitC.bitPos == Held(fields, flush, n) && bitC.val == Stack(fields, n).val && bitC.len == Stack(fields, n).len
  }

  /** One field, and the flush after it if there is one. */
  method WriteField(bitC: CStream, dst: array<byte>, fields: seq<BitString>, flush: seq<bool>, i: nat)
    requires Fields(fields) && KeepsUp(fields, flush) && i < |fields| && Wrote(bitC, dst, fields, flush, i)
    modifies bitC, dst
    ensures Wrote(bitC, dst, fields, flush, i + 1)
  {
    hide Fields, KeepsUp, CStream.Sound, Pow2, Shl, Low, Half, Odd;
    FieldFits(fields, flush, i);
    bitC.AddBits(fields[i].val, fields[i].len);
    if flush[i] { bitC.FlushBits(); }
  }

  lemma {:induction false} FieldFits(fields: seq<BitString>, flush: seq<bool>, i: nat)
    requires Fields(fields) && KeepsUp(fields, flush) && i < |fields|
    ensures fields[i].len < MASK_SIZE && Low(fields[i].val, fields[i].len) == fields[i].val
    ensures |flush| == |fields| && Held(fields, flush, i) + fields[i].len < WORD
  {
    hide Held, Low;
    LowSmall(fields[i].val, fields[i].len);
  }

  /** The writer. */
  method WriteFields(dst: array<byte>, fields: seq<BitString>, flush: seq<bool>) returns (size: nat)
    requires Fields(fields) && KeepsUp(fields, flush) && dst.Length > 8
    modifies dst
    ensures size <= dst.Length && (size != 0 <==> RoomFor(Stack(fields, |fields|).len, dst.Length))
    ensures size != 0 ==> Represents(dst[..size], Stack(fields, |fields|).val, Stack(fields, |fields|).len)
  {
    assert Held(fields, flush, |fields|) + 1 < WORD;
    hide Represents, Fields, KeepsUp, CStream.Sound, Pow2, Shl;
    var bitC := new CStream(dst, 0, dst.Length);
    for i := 0 to |fields|
      invariant Wrote(bitC, dst, fields, flush, i)
    {
      WriteField(bitC, dst, fields, flush, i);
    }
    size := bitC.Close();
    assert dst[0..0 + size] == dst[..size];
  }

  /** The reader is at the top of the first `n` fields. */
  ghost predicate At(d: DStream, fields: seq<BitString>, n: nat)
    reads d
  {
    d.Valid() && n <= |fields| && d.Left() == Stack(fields, n).len && Low(LE(d.src), Stack(fields, n).len) == Stack(fields, n).val
  }

  lemma {:induction false} FieldReady(d: DStream, fields: seq<BitString>, n: nat)
    requires Fields(fields) && 0 < n <= |fields| && At(d, fields, n) && d.Filled() && d.bitsConsumed <= WORD
    ensures d.Valid() && d.bitsConsumed + fields[n - 1].len <= WORD
    ensures Slice(LE(d.src), d.Left() - fields[n - 1].len, fields[n - 1].len) == fields[n - 1].val
    ensures Stack(fields, n - 1).len == d.Left() - fields[n - 1].len
    ensures Low(LE(d.src), Stack(fields, n - 1).len) == Stack(fields, n - 1).val
  {
    hide Stack, Fields, Slice, Low, LE, DStream.Valid, Pow2, Shl, Shr, HighBit, Trunc64;
    StackTop(fields, n, LE(d.src));
    assert d.Left() == Stack(fields, n).len;
    assert Stack(fields, n).len == Stack(fields, n - 1).len + fields[n - 1].len;
  }

  lemma {:induction false} NowAt(d: DStream, fields: seq<BitString>, n: nat)
    requires d.Valid() && n <= |fields| && Stack(fields, n).len == d.Left() && Low(LE(d.src), Stack(fields, n).len) == Stack(fields, n).val
    ensures At(d, fields, n) && (n == 0 ==> d.Left() == 0)
  {
    assert Stack(fields, 0).len == 0;
    hide Stack, Low, LE, DStream.Valid;
  }

  /** One field: it is in the register, and is read as it was pushed. */
  method ReadField(d: DStream, ghost fields: seq<BitString>, ghost n: nat, nbBits: nat) returns (value: nat)
    requires Fields(fields) && 0 < n <= |fields| && nbBits == fields[n - 1].len && At(d, fields, n)
    requires d.Filled() && d.bitsConsumed <= WORD
    modifies d
    ensures value == fields[n - 1].val && At(d, fields, n - 1) && d.Filled() && d.bitsConsumed <= WORD
    ensures n == 1 ==> d.EndOfDStream()
  {
    FieldReady(d, fields, n);
    hide At, Stack, Fields, Slice, Low, LE, DStream.Valid, DStream.Filled, DStream.EndOfDStream;
    value := d.ReadBits(nbBits);
    var status := d.Reload();
    NowAt(d, fields, n - 1);
  }

  method OpenFields(c: seq<byte>, ghost fields: seq<BitString>) returns (d: DStream)
    requires Fields(fields) && Represents(c, Stack(fields, |fields|).val, Stack(fields, |fields|).len)
    ensures fresh(d) && At(d, fields, |fields|) && d.Filled() && d.bitsConsumed <= WORD
  {
    hide Stack, Represents, Low, LE, DStream.Valid;
    RepresentsUnique(c, Stack(fields, |fields|).val, Stack(fields, |fields|).len);
    RepresentsLow(c, Stack(fields, |fields|).val, Stack(fields, |fields|).len);
    d := new DStream(c);
  }

  /**
    Any fields of fewer than 32 bits come back last first, and with the last one the stream is exactly used
    up, for every schedule of flushes that keeps the register below 64 bits and every destination with room for
    the fields.
   */
  method LifoRoundTrip(fields: seq<BitString>, flush: seq<bool>, dstCapacity: nat) returns (size: nat, back: seq<nat>, ended: bool)
    requires Fields(fields) && KeepsUp(fields, flush) && dstCapacity > 8
    ensures size <= dstCapacity && (size != 0 <==> RoomFor(Stack(fields, |fields|).len, dstCapacity))
    ensures size != 0 ==> |back| == |fields| && forall i | 0 <= i < |fields| :: back[i] == fields[|fields| - 1 - i].val
    ensures size != 0 && |fields| > 0 ==> ended
  {
    hide *;
    back, ended := [], false;
    var dst := new byte[dstCapacity];
    size := WriteFields(dst, fields, flush);
    if size == 0 { return; }
    var d := OpenFields(dst[..size], fields);
    var n: nat := |fields|;
    while n > 0
      invariant n + |back| == |fields| && At(d, fields, n) && d.Filled() && d.bitsConsumed <= WORD
      invariant forall i | 0 <= i < |back| :: back[i] == fields[|fields| - 1 - i].val
      invariant n == 0 && |fields| > 0 ==> d.EndOfDStream()
    {
      var value := ReadField(d, fields, n, fields[n - 1].len);
      back := back + [value];
      n := n - 1;
    }
    ended := d.EndOfDStream();
  }
}
