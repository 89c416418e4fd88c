/**
  Huff0 streams: a source coded backwards with a canonical code, decoded forwards with the single-symbol
  table, in one stream or in four.
 */
module HufStream {
  import opened Bits
  import opened BitStream
  import opened Errors
  import opened HufHeight
  import opened HufCode
  import opened HufX1
  import opened HufWalk

  // ---------- what a source codes to ----------

  ghost predicate SourceCoded(lens: seq<nat>, src: seq<nat>) {
    forall i | 0 <= i < |src| :: src[i] < |lens| && lens[src[i]] > 0
  }

  /** The code of symbol `s` pushed on top of the bits `e`. */
  ghost function PushCode(lens: seq<nat>, M: nat, e: BitString, s: nat): BitString {
    if s < |lens| then BitString(e.val + Shl(ValueOf(lens, M, s), e.len), e.len + lens[s]) else e
  }

  /** The bits of `src[i..]`, coded backwards. */
  ghost function CodeBits(lens: seq<nat>, M: nat, src: seq<nat>, i: nat): BitString
    requires i <= |src|
    decreases |src| - i
  {
    if i == |src| then BitString(0, 0) else PushCode(lens, M, CodeBits(lens, M, src, i + 1), src[i])
  }

  /** Number of bits that `n` symbols may take. */
  function Times12(n: nat): nat {
    Times8(n) + n + n + n + n
  }

  lemma {:induction false} CodeBitsFit(lens: seq<nat>, M: nat, src: seq<nat>, i: nat)
    requires FullCode(lens, M) && SourceCoded(lens, src) && i <= |src|
    ensures CodeBits(lens, M, src, i).val < Pow2(CodeBits(lens, M, src, i).len)
    decreases |src| - i
  {
    if i == |src| {
      assert Pow2(0) == 1;
    } else {
      CodeBitsFit(lens, M, src, i + 1);
      PushCodeFits(lens, M, CodeBits(lens, M, src, i + 1), src[i]);
    }
  }

  lemma {:induction false} PushCodeFits(lens: seq<nat>, M: nat, e: BitString, s: nat)
    requires FullCode(lens, M) && s < |lens| && lens[s] > 0 && e.val < Pow2(e.len)
    ensures PushCode(lens, M, e, s).val < Pow2(PushCode(lens, M, e, s).len)
  {
    hide ValueOf, Shl, Pow2;
    ValueFits(lens, M, s);
    PushFits(e.val, e.len, ValueOf(lens, M, s), lens[s]);
  }

  lemma {:induction false} CodeBitsLength(lens: seq<nat>, M: nat, src: seq<nat>, i: nat)
    requires FullCode(lens, M) && M <= HUF_TABLELOG_MAX && SourceCoded(lens, src) && i <= |src|
    ensures CodeBits(lens, M, src, i).len <= Times12(|src| - i)
    decreases |src| - i
  {
    if i < |src| {
      CodeBitsLength(lens, M, src, i + 1);
      assert lens[src[i]] <= M;
    }
  }

  // ---------- HUF_compress1X ----------

  ghost predicate Pushed(bitC: CStream, lens: seq<nat>, M: nat, src: seq<nat>, i: nat)
    requires i <= |src|
    reads bitC`val, bitC`len
  {
    bitC.val == CodeBits(lens, M, src, i).val && bitC.len == CodeBits(lens, M, src, i).len
  }

  /** HUF_encodeSymbol, for the symbol before position `i`. */
  method EncodeSymbol(bitC: CStream, src: seq<nat>, i: nat, table: seq<CElt>, ghost lens: seq<nat>, ghost M: nat)
    requires bitC.Valid() && FullCode(lens, M) && M <= HUF_TABLELOG_MAX && CodeTable(table, lens, M)
    requires SourceCoded(lens, src) && 0 < i <= |src| && Pushed(bitC, lens, M, src, i)
    requires bitC.bitPos + HUF_TABLELOG_MAX < WORD
    modifies bitC`bitContainer, bitC`bitPos, bitC`val, bitC`len
    ensures bitC.Valid() && bitC.bitPos <= old(bitC.bitPos) + HUF_TABLELOG_MAX
    ensures Pushed(bitC, lens, M, src, i - 1)
  {
    ghost var s := src[i - 1];
    assert CodeBits(lens, M, src, i - 1) == PushCode(lens, M, CodeBits(lens, M, src, i), s);
    ValueFits(lens, M, s);
    assert table[s].nbBits == lens[s] <= M;
    hide FullCode, CodeBits, ValueOf, Shl, Pow2, CStream.Sound;
    var c := table[src[i - 1]];
    bitC.AddBitsFast(c.val, c.nbBits);
  }

  /** The 0 to 3 symbols past the last multiple of four, then four symbols per flush. */
  method EncodeAll(bitC: CStream, src: seq<nat>, table: seq<CElt>, ghost lens: seq<nat>, ghost M: nat)
    requires bitC.Valid() && bitC.bitPos == 0 && Pushed(bitC, lens, M, src, |src|)
    requires FullCode(lens, M) && M <= HUF_TABLELOG_MAX && CodeTable(table, lens, M) && SourceCoded(lens, src)
    modifies bitC, bitC.buf
    ensures bitC.Valid() && bitC.Framed() && bitC.bitPos < 8
    ensures Pushed(bitC, lens, M, src, 0)
  {
    hide FullCode, CodeTable, SourceCoded, CodeBits, Pushed, Low, CStream.Sound;
    ghost var q := Fours(|src|);
    var n := |src|;
    var rest := Low(|src|, 2);
    if rest == 3 {
      EncodeSymbol(bitC, src, n, table, lens, M);
      n := n - 1;
    }
    if rest >= 2 {
      EncodeSymbol(bitC, src, n, table, lens, M);
      n := n - 1;
    }
    if rest >= 1 {
      EncodeSymbol(bitC, src, n, table, lens, M);
      n := n - 1;
      bitC.FlushBits();
    }
    while n > 0
      invariant bitC.Valid() && bitC.Framed() && bitC.bitPos < 8
      invariant n == q + q + q + q && n <= |src| && Pushed(bitC, lens, M, src, n)
    {
      EncodeSymbol(bitC, src, n, table, lens, M);
      EncodeSymbol(bitC, src, n - 1, table, lens, M);
      EncodeSymbol(bitC, src, n - 2, table, lens, M);
      EncodeSymbol(bitC, src, n - 3, table, lens, M);
      bitC.FlushBits();
      n, q := n - 4, q - 1;
    }
  }

  lemma {:induction false} Fours(n: nat) returns (q: nat)
    ensures n == Low(n, 2) + q + q + q + q && Low(n, 2) <= 3
  {
    q := Half(Half(n));
    assert Low(n, 2) == Odd(n) + Low(Half(n), 1) + Low(Half(n), 1);
    assert Low(Half(n), 1) == Odd(Half(n)) + Low(q, 0) + Low(q, 0);
  }

  /**
    HUF_compress1X_usingCTable. On success the destination holds the closed stream of the source's code;
    0 says that there is no room for it.
   */
  method Compress1X(dst: array<byte>, start: nat, dstSize: nat, src: seq<nat>, table: seq<CElt>, ghost lens: seq<nat>, ghost M: nat)
    returns (size: nat)
    requires start + dstSize <= dst.Length
    requires FullCode(lens, M) && M <= HUF_TABLELOG_MAX && CodeTable(table, lens, M) && SourceCoded(lens, src)
    modifies dst
    ensures size <= dstSize && (size != 0 <==> RoomFor(CodeBits(lens, M, src, 0).len, dstSize))
    ensures var e := CodeBits(lens, M, src, 0); size != 0 ==> Represents(dst[start..start + size], e.val, e.len)
    ensures forall k | 0 <= k < dst.Length && !(start <= k < start + dstSize) :: dst[k] == old(dst[k])
  {
    if dstSize < 8 { return 0; }
    if dstSize <= 8 { return 0; } // BIT_initCStream refuses
    assert CodeBits(lens, M, src, |src|) == BitString(0, 0);
    hide FullCode, CodeTable, SourceCoded, CodeBits, Represents, CStream.Sound;
    var bitC := new CStream(dst, start, dstSize);
    EncodeAll(bitC, src, table, lens, M);
    size := bitC.Close();
  }

  // ---------- the reference decoder and the code ----------

  /** The table is that of the code `lens`. */
  ghost predicate TableOf(lens: seq<nat>, dt: seq<DEltX1>, dtLog: nat) {
    1 <= dtLog <= HUF_TABLELOG_MAX && FullCode(lens, dtLog) && TableX1(dt, lens, dtLog)
  }

  /** The lookups of the single-symbol table. */
  ghost function Steps1(dt: seq<DEltX1>): (steps: seq<Step>)
    ensures |steps| == |dt|
  {
    seq(|dt|, x requires 0 <= x < |dt| => Step([dt[x].symbol], dt[x].nbBits))
  }

  /** The top bits of a field. */
  lemma {:induction false} SliceHead(x: nat, lo: nat, n: nat, nb: nat)
    requires nb <= n
    ensures Shr(Slice(x, lo, n), n - nb) == Slice(x, lo + n - nb, nb)
  {
    ShrLow(Shr(x, lo), n, n - nb);
    ShrShr(x, lo, n - nb);
  }

  /** The bits of a window are the next ones, as far as there are any. */
  lemma {:induction false} WindowHead(stream: nat, k: nat, D: nat, nb: nat)
    requires 1 <= nb <= D && nb <= k
    ensures Shr(Window(stream, k, D), D - nb) == Slice(stream, k - nb, nb)
  {
    hide Slice, Shl, Shr;
    if k >= D {
      SliceHead(stream, k - D, D, nb);
    } else {
      SliceFirst(stream, k);
      ShrShl(Slice(stream, 0, k), D - k, D - nb);
      SliceHead(stream, 0, k, nb);
    }
  }

  lemma {:induction false} WindowBound(stream: nat, k: nat, D: nat)
    requires 1 <= D <= HUF_TABLELOG_MAX
    ensures Window(stream, k, D) < Pow2(D)
  {
    hide Shl, Shr, Low, Pow2, Trunc64;
    if k == 0 {
      ShiftNone(stream);
      FastField(stream, 0, D);
    } else if k >= D {
      Split(Shr(stream, k - D), D);
    } else {
      Split(stream, k);
      ShlBound(Low(stream, k), k, D - k);
    }
  }

  lemma {:induction false} CodeBitsAfter(lens: seq<nat>, M: nat, a: seq<nat>, src: seq<nat>, i: nat)
    requires i <= |src|
    ensures CodeBits(lens, M, a + src, |a| + i) == CodeBits(lens, M, src, i)
    decreases |src| - i
  {
    if i < |src| { CodeBitsAfter(lens, M, a, src, i + 1); }
  }

  /** The next symbol, and the rest. */
  lemma {:induction false} CodeBitsFirst(lens: seq<nat>, M: nat, src: seq<nat>)
    requires |src| > 0
    ensures CodeBits(lens, M, src, 0) == PushCode(lens, M, CodeBits(lens, M, src[1..], 0), src[0])
  {
    assert src == src[..1] + src[1..];
    CodeBitsAfter(lens, M, src[..1], src[1..], 0);
  }

  /** The last `k` bits of the stream are the code of `src`. */
  ghost predicate Spells(lens: seq<nat>, M: nat, src: seq<nat>, stream: nat, k: nat) {
    SourceCoded(lens, src) && CodeBits(lens, M, src, 0) == BitString(Low(stream, k), k)
  }

  lemma {:induction false} SpellsNothing(lens: seq<nat>, M: nat, stream: nat, k: nat)
    ensures Spells(lens, M, [], stream, k) <==> k == 0
  {
  }

  /** The stream spells `src` exactly if its next bits are the code of the first symbol, and those after them spell the rest. */
  lemma {:induction false} SpellsFirst(lens: seq<nat>, M: nat, src: seq<nat>, stream: nat, k: nat)
    requires FullCode(lens, M) && |src| > 0 && src[0] < |lens| && lens[src[0]] > 0
    ensures Spells(lens, M, src, stream, k) <==>
            && lens[src[0]] <= k && Slice(stream, k - lens[src[0]], lens[src[0]]) == ValueOf(lens, M, src[0])
            && Spells(lens, M, src[1..], stream, k - lens[src[0]])
  {
    hide ValueOf, Slice, CodeBits, Shl, Low, FullCode;
    var s, rest := src[0], src[1..];
    var l, e := lens[s], CodeBits(lens, M, rest, 0);
    CodeBitsFirst(lens, M, src);
    ValueFits(lens, M, s);
    CodedFirst(lens, src);
    if SourceCoded(lens, rest) {
      CodeBitsFit(lens, M, rest, 0);
      if l <= k { TopField(stream, k - l, l); }
      if Spells(lens, M, src, stream, k) { SliceTop(stream, e.len, l, e.val, ValueOf(lens, M, s)); }
    }
  }

  lemma {:induction false} CodedFirst(lens: seq<nat>, src: seq<nat>)
    requires |src| > 0
    ensures SourceCoded(lens, src) <==> src[0] < |lens| && lens[src[0]] > 0 && SourceCoded(lens, src[1..])
  {
    if SourceCoded(lens, src[1..]) && src[0] < |lens| && lens[src[0]] > 0 {
      forall i | 0 <= i < |src| ensures src[i] < |lens| && lens[src[i]] > 0 { assert i > 0 ==> src[i] == src[1..][i - 1]; }
    }
  }

  lemma {:induction false} TopField(x: nat, lo: nat, n: nat)
    ensures Low(x, lo + n) == Low(x, lo) + Shl(Slice(x, lo, n), lo)
  {
    hide Low, Shr, Shl;
    ShrLow(x, lo + n, lo);
    LowLow(x, lo, lo + n);
    Split(Low(x, lo + n), lo);
  }

  lemma {:induction false} CellFound(dt: seq<DEltX1>, lens: seq<nat>, M: nat, x: nat, s: nat)
    requires FullCode(lens, M) && TableX1(dt, lens, M) && x < Pow2(M)
    requires s < |lens| && 1 <= lens[s] <= M && Shr(x, M - lens[s]) == ValueOf(lens, M, s)
    ensures x < |dt| && dt[x] == DEltX1(s, lens[s])
  {
    assert Matches(lens, M, x, s);
    assert CellX1(dt[x], lens, M, x);
    DecodeUnique(lens, M, x, s, dt[x].symbol);
  }

  lemma {:induction false} CellHas(dt: seq<DEltX1>, lens: seq<nat>, M: nat, x: nat)
    requires TableX1(dt, lens, M) && x < Pow2(M)
    ensures x < |dt|
    ensures var s := dt[x].symbol; s < |lens| && 1 <= lens[s] == dt[x].nbBits <= M && Shr(x, M - lens[s]) == ValueOf(lens, M, s)
  {
    assert CellX1(dt[x], lens, M, x);
  }

  lemma {:induction false} StepsOk1(lens: seq<nat>, dt: seq<DEltX1>, dtLog: nat)
    requires TableOf(lens, dt, dtLog)
    ensures StepsOk(Steps1(dt), dtLog)
  {
    hide FullCode;
    forall x: nat | x < |dt| ensures 1 <= dt[x].nbBits <= dtLog { CellHas(dt, lens, dtLog, x); }
  }

  /** The reference decoder finds a source exactly if the stream spells it. */
  lemma {:induction false} WalkSpells(lens: seq<nat>, dt: seq<DEltX1>, M: nat, stream: nat, k: nat, n: nat)
    requires TableOf(lens, dt, M)
    ensures var w := Walk(Steps1(dt), M, stream, k, n); w.Some? ==> Spells(lens, M, w.value, stream, k)
    decreases n
  {
    hide TableOf, Spells, Window, Slice, ValueOf, FullCode, TableX1;
    var w := Walk(Steps1(dt), M, stream, k, n);
    if n == 0 {
      SpellsNothing(lens, M, stream, k);
    } else if w.Some? {
      TableParts(lens, dt, M);
      WindowBound(stream, k, M);
      var x := Window(stream, k, M);
      CellHas(dt, lens, M, x);
      var c := dt[x];
      WalkSpells(lens, dt, M, stream, k - c.nbBits, n - 1);
      WindowHead(stream, k, M, c.nbBits);
      var rest := Walk(Steps1(dt), M, stream, k - c.nbBits, n - 1);
      assert w.value == [c.symbol] + rest.value;
      assert w.value[1..] == rest.value;
      SpellsFirst(lens, M, w.value, stream, k);
    }
  }

  lemma {:induction false} TableParts(lens: seq<nat>, dt: seq<DEltX1>, dtLog: nat)
    requires TableOf(lens, dt, dtLog)
    ensures 1 <= dtLog <= HUF_TABLELOG_MAX && FullCode(lens, dtLog) && TableX1(dt, lens, dtLog) && |dt| == Pow2(dtLog)
  {
    hide FullCode;
  }

  lemma {:induction false} SpelledWalk(lens: seq<nat>, dt: seq<DEltX1>, M: nat, stream: nat, k: nat, src: seq<nat>)
    requires TableOf(lens, dt, M) && Spells(lens, M, src, stream, k)
    ensures Walk(Steps1(dt), M, stream, k, |src|) == Some(src)
    decreases |src|
  {
    hide TableOf, Spells, Window, Slice, ValueOf, FullCode, TableX1;
    if |src| == 0 {
      SpellsNothing(lens, M, stream, k);
    } else {
      TableParts(lens, dt, M);
      WindowBound(stream, k, M);
      SpelledFirst(lens, M, src, stream, k);
      SpellsFirst(lens, M, src, stream, k);
      var s := src[0];
      WindowHead(stream, k, M, lens[s]);
      CellFound(dt, lens, M, Window(stream, k, M), s);
      SpelledWalk(lens, dt, M, stream, k - lens[s], src[1..]);
      assert [s] + src[1..] == src;
    }
  }

  lemma {:induction false} SpelledFirst(lens: seq<nat>, M: nat, src: seq<nat>, stream: nat, k: nat)
    requires FullCode(lens, M) && Spells(lens, M, src, stream, k) && |src| > 0
    ensures src[0] < |lens| && 1 <= lens[src[0]] <= M
  {
    hide CodeBits, Low;
  }

  /** A stream holds the code of a source exactly if its bits up to the end mark spell it. */
  lemma {:induction false} HoldsSpelled(c: seq<byte>, lens: seq<nat>, M: nat, src: seq<nat>)
    requires FullCode(lens, M) && SourceCoded(lens, src) && |c| > 0 && c[|c| - 1] != 0
    ensures Represents(c, CodeBits(lens, M, src, 0).val, CodeBits(lens, M, src, 0).len) <==> Spells(lens, M, src, LE(c), BitLength(c))
  {
    hide CodeBits, LE, FullCode, SourceCoded;
    var e := CodeBits(lens, M, src, 0);
    LastByteMark(c);
    if Represents(c, e.val, e.len) {
      RepresentsUnique(c, e.val, e.len);
      RepresentsLow(c, e.val, e.len);
    }
    if Spells(lens, M, src, LE(c), BitLength(c)) {
      var t := BitLength(c);
      RepresentsLow(c, LE(c) - Pow2(t), t);
    }
  }

  // ---------- one decoding step ----------

  /** HUF_decodeSymbolX1. */
  method DecodeSymbolX1(d: DStream, dt: seq<DEltX1>, dtLog: nat, ghost h: Aim, ghost j: nat) returns (c: nat)
    requires d.Valid() && AimOk(h) && h.steps == Steps1(dt) && h.D == dtLog && OnWay(h, d, j) && Served(d, dtLog)
    requires h.result.Some? ==> j < h.n
    modifies d`bitsConsumed
    ensures d.Valid() && OnWay(h, d, j + 1) && NextAre(h, j, [c])
    ensures d.bitsConsumed <= old(d.bitsConsumed) + dtLog
  {
    hide LE, Shr, Trunc64, Pow2, Track, NextAre, DStream.LookBitsFast;
    AnyStep(h, d);
    var val := d.LookBitsFast(dtLog);
    c := dt[val].symbol;
    StepOn(h, d, j, Step([c], dt[val].nbBits));
    d.SkipBits(dt[val].nbBits);
  }

  // ---------- whole streams ----------

  method OneSymbolX1(d: DStream, dst: array<nat>, base: nat, j: nat, dt: seq<DEltX1>, dtLog: nat, ghost h: Aim)
    requires Lane(h, d, dst[..], base, j) && Served(d, dtLog) && h.steps == Steps1(dt) && h.D == dtLog
    requires base + j < dst.Length && j < h.n
    modifies d`bitsConsumed, dst
    ensures Lane(h, d, dst[..], base, j + 1)
    ensures d.bitsConsumed <= old(d.bitsConsumed) + dtLog
    ensures Untouched(old(dst[..]), dst[..], base + j, base + j + 1)
  {
    hide OnWay, Served, AimOk, DStream.Valid;
    var c := DecodeSymbolX1(d, dt, dtLog, h, j);
    ghost var before := dst[..];
    dst[base + j] := c;
    ResultLength(h);
    OutputGrows(h, before, dst[..], base, base + j, [c]);
  }

  lemma {:induction false} ResultLength(h: Aim)
    requires AimOk(h)
    ensures h.result.Some? ==> |h.result.value| == h.n
    ensures 1 <= h.D <= HUF_TABLELOG_MAX
  {
    hide StepsOk;
    assert StepsOk(h.steps, h.D);
    StepsLog(h.steps, h.D);
  }

  lemma {:induction false} StepsLog(steps: seq<Step>, D: nat)
    requires StepsOk(steps, D)
    ensures 1 <= D <= HUF_TABLELOG_MAX
  {
  }

  lemma {:induction false} LaneLog(h: Aim, d: DStream, out: seq<nat>, base: nat, j: nat)
    requires Lane(h, d, out, base, j)
    ensures d.Valid() && 1 <= h.D <= HUF_TABLELOG_MAX
  {
    hide OnWay, AimOk;
    ResultLength(h);
  }

  /** Four symbols from a full register. */
  method FourSymbolsX1(d: DStream, dst: array<nat>, base: nat, j: nat, dt: seq<DEltX1>, dtLog: nat, ghost h: Aim)
    requires Lane(h, d, dst[..], base, j) && d.Filled() && h.steps == Steps1(dt) && h.D == dtLog
    requires base + j + 4 <= dst.Length && j + 4 <= h.n
    modifies d`bitsConsumed, dst
    ensures Lane(h, d, dst[..], base, j + 4)
    ensures d.ptr == 0 || d.bitsConsumed <= 56
    ensures Untouched(old(dst[..]), dst[..], base + j, base + j + 4)
  {
    hide Lane, Untouched, DStream.Valid;
    LaneLog(h, d, dst[..], base, j);
    ghost var out := dst[..];
    OneSymbolX1(d, dst, base, j, dt, dtLog, h);
    ghost var a := dst[..];
    OneSymbolX1(d, dst, base, j + 1, dt, dtLog, h);
    UntouchedNext(out, a, dst[..], base + j, base + j + 1, base + j + 2);
    a := dst[..];
    OneSymbolX1(d, dst, base, j + 2, dt, dtLog, h);
    UntouchedNext(out, a, dst[..], base + j, base + j + 2, base + j + 3);
    a := dst[..];
    OneSymbolX1(d, dst, base, j + 3, dt, dtLog, h);
    UntouchedNext(out, a, dst[..], base + j, base + j + 3, base + j + 4);
  }

  /** The symbols for which there is no need to reload any more. */
  method RemainingX1(d: DStream, dst: array<nat>, base: nat, j0: nat, dt: seq<DEltX1>, dtLog: nat, ghost h: Aim, end: nat)
    requires Lane(h, d, dst[..], base, j0) && h.steps == Steps1(dt) && h.D == dtLog
    requires base + j0 <= end == base + h.n <= dst.Length
    requires d.ptr == 0 || d.bitsConsumed + Times12(end - base - j0) <= 43
    modifies d`bitsConsumed, dst
    ensures Finished(h, d, dst[..], base, end) && d.Valid()
    ensures Untouched(old(dst[..]), dst[..], base + j0, end)
  {
    hide Lane, Finished, Untouched, DStream.Valid;
    LaneLog(h, d, dst[..], base, j0);
    var j := j0;
    UntouchedNone(dst[..], base + j, base + j);
    while base + j < end
      invariant j0 <= j && base + j <= end && Lane(h, d, dst[..], base, j)
      invariant d.ptr == 0 || d.bitsConsumed + Times12(end - base - j) <= 43
      invariant Untouched(old(dst[..]), dst[..], base + j0, base + j)
    {
      ghost var out := dst[..];
      OneSymbolX1(d, dst, base, j, dt, dtLog, h);
      UntouchedNext(old(dst[..]), out, dst[..], base + j0, base + j, base + j + 1);
      j := j + 1;
    }
    LaneEnds(h, d, dst[..], base);
  }

  /** HUF_decodeStreamX1: the output up to `end`. */
  method DecodeStreamX1(d: DStream, dst: array<nat>, base: nat, j0: nat, end: nat, dt: seq<DEltX1>, dtLog: nat, ghost h: Aim)
    requires Lane(h, d, dst[..], base, j0) && h.steps == Steps1(dt) && h.D == dtLog && (d.ptr == 0 || d.bitsConsumed <= 56)
    requires base + j0 <= end == base + h.n <= dst.Length
    modifies d, dst
    ensures Finished(h, d, dst[..], base, end) && d.Valid()
    ensures Untouched(old(dst[..]), dst[..], base + j0, end)
  {
    hide Lane, Finished, Untouched, DStream.Valid;
    var j := j0;
    UntouchedNone(dst[..], base + j, base + j);
    var status := LaneReload(d, h, dst[..], base, j);
    while status == Unfinished && base + j + 3 < end
      invariant j0 <= j && base + j <= end && Lane(h, d, dst[..], base, j) && d.Filled()
      invariant (status == Unfinished ==> d.bitsConsumed < 8) && (status == Unfinished || d.ptr == 0)
      invariant Untouched(old(dst[..]), dst[..], base + j0, base + j)
      decreases end - j
    {
      ghost var out := dst[..];
      FourSymbolsX1(d, dst, base, j, dt, dtLog, h);
      UntouchedNext(old(dst[..]), out, dst[..], base + j0, base + j, base + j + 4);
      j := j + 4;
      status := LaneReload(d, h, dst[..], base, j);
    }
    ghost var out := dst[..];
    RemainingX1(d, dst, base, j, dt, dtLog, h, end);
    UntouchedNext(old(dst[..]), out, dst[..], base + j0, base + j, end);
  }

  /** The aim of a whole stream: what the reference decoder makes of it. */
  ghost function AimFor(steps: seq<Step>, D: nat, c: seq<byte>, n: nat): (h: Aim)
    requires StepsOk(steps, D) && InitError(c) == None
    ensures AimOk(h) && h.keep == h.result.Some?
  {
    var w := Walk(steps, D, LE(c), BitLength(c), n);
    Aim(steps, D, n, w, w.Some?)
  }

  /** What a decoder of one stream returns, by the reference decoder. */
  ghost predicate OneStream(steps: seq<Step>, D: nat, c: seq<byte>, n: nat, r: Result<nat>, out: seq<nat>)
    requires StepsOk(steps, D)
  {
    match InitError(c)
    case Some(e) => r == Err(e)
    case None =>
      var w := Walk(steps, D, LE(c), BitLength(c), n);
      if w.Some? then r == Ok(n) && out == w.value else r == Err(CorruptionDetected)
  }

  lemma {:induction false} IsOneStream(h: Aim, steps: seq<Step>, D: nat, c: seq<byte>, out: seq<nat>, r: Result<nat>, ended: bool)
    requires StepsOk(steps, D) && InitError(c) == None && h == AimFor(steps, D, c, |out|) && (ended <==> h.result.Some?)
    requires h.keep ==> h.result.Some? && out[0..|out|] == h.result.value
    requires r == if ended then Ok(|out|) else Err(CorruptionDetected)
    ensures OneStream(steps, D, c, |out|, r, out)
  {
    hide Walk, LE, StepsOk;
    assert out[0..|out|] == out;
  }

  /** The output is the one source that the stream holds, and there is none if an error is returned. */
  ghost predicate Only(c: seq<byte>, lens: seq<nat>, M: nat, r: Result<nat>, out: seq<nat>) {
    && (r.Ok? ==> HoldsSource(lens, M, c, out))
    && forall src: seq<nat> | |src| == |out| && HoldsSource(lens, M, c, src) :: r.Ok? && out == src
  }

  /** The stream holds the code of the source. */
  ghost predicate HoldsSource(lens: seq<nat>, M: nat, c: seq<byte>, src: seq<nat>) {
    SourceCoded(lens, src) && Represents(c, CodeBits(lens, M, src, 0).val, CodeBits(lens, M, src, 0).len)
  }

  lemma {:induction false} HoldsOpen(lens: seq<nat>, M: nat, c: seq<byte>, src: seq<nat>)
    requires HoldsSource(lens, M, c, src)
    ensures InitError(c) == None
  {
    hide CodeBits;
    RepresentsUnique(c, CodeBits(lens, M, src, 0).val, CodeBits(lens, M, src, 0).len);
  }

  /** What the reference decoder makes of a stream is the source that the stream holds. */
  lemma {:induction false} WalkHolds(lens: seq<nat>, dt: seq<DEltX1>, M: nat, c: seq<byte>, n: nat)
    requires TableOf(lens, dt, M) && InitError(c) == None
    ensures var w := Walk(Steps1(dt), M, LE(c), BitLength(c), n);
            && (w.Some? ==> HoldsSource(lens, M, c, w.value))
            && forall src: seq<nat> {:trigger HoldsSource(lens, M, c, src)} | |src| == n && HoldsSource(lens, M, c, src) :: w == Some(src)
  {
    hide TableOf, Walk, LE, Represents, CodeBits, FullCode, TableX1, SourceCoded, BitLength;
    TableParts(lens, dt, M);
    WalkSpells(lens, dt, M, LE(c), BitLength(c), n);
    var w := Walk(Steps1(dt), M, LE(c), BitLength(c), n);
    if w.Some? { HoldsSpelled(c, lens, M, w.value); }
    forall src: seq<nat> | |src| == n && HoldsSource(lens, M, c, src) ensures w == Some(src) {
      HoldsSpelled(c, lens, M, src);
      SpelledWalk(lens, dt, M, LE(c), BitLength(c), src);
    }
  }

  lemma {:induction false} OnlySource(lens: seq<nat>, dt: seq<DEltX1>, M: nat, c: seq<byte>, r: Result<nat>, out: seq<nat>)
    requires TableOf(lens, dt, M) && StepsOk(Steps1(dt), M) && OneStream(Steps1(dt), M, c, |out|, r, out)
    ensures Only(c, lens, M, r, out)
  {
    hide TableOf, StepsOk, HoldsSource, Walk, LE, BitLength;
    if InitError(c) == None {
      WalkHolds(lens, dt, M, c, |out|);
    } else {
      forall src: seq<nat> | |src| == |out| && HoldsSource(lens, M, c, src) ensures false { HoldsOpen(lens, M, c, src); }
    }
  }

  /**
    HUF_decompress1X1_usingDTable, for any bytes: it succeeds exactly if the stream is that of a source of the
    length of the output, and then that is the output.
   */
  method Decompress1X1(dst: array<nat>, cSrc: seq<byte>, dt: seq<DEltX1>, dtLog: nat, ghost lens: seq<nat>) returns (r: Result<nat>)
    requires TableOf(lens, dt, dtLog)
    modifies dst
    ensures r.Ok? ==> r.value == dst.Length
    ensures Only(cSrc, lens, dtLog, r, dst[..])
    ensures r.Err? ==> r.error == match InitError(cSrc) case Some(e) => e case None => CorruptionDetected
  {
    hide TableOf, Lane, Finished, AimOk, Walk, LE, DStream.Valid, Only, AimFor, OneStream, DStream.EndOfDStream, BitLength, StepsOk;
    StepsOk1(lens, dt, dtLog);
    var e := InitError(cSrc);
    if e.Some? {
      r := Err(e.value);
      NotOpened(Steps1(dt), dtLog, cSrc, dst.Length, r, dst[..]);
      OnlySource(lens, dt, dtLog, cSrc, r, dst[..]);
      return;
    }
    var d := new DStream(cSrc);
    ghost var h := AimFor(Steps1(dt), dtLog, cSrc, dst.Length);
    AimStarts(h, d, dst[..], 0, Steps1(dt), dtLog, cSrc, dst.Length);
    DecodeStreamX1(d, dst, 0, 0, dst.Length, dt, dtLog, h);
    FinishedIs(h, d, dst[..], 0, dst.Length);
    r := if d.EndOfDStream() then Ok(dst.Length) else Err(CorruptionDetected);
    IsOneStream(h, Steps1(dt), dtLog, cSrc, dst[..], r, d.EndOfDStream());
    OnlySource(lens, dt, dtLog, cSrc, r, dst[..]);
  }

  lemma {:induction false} NotOpened(steps: seq<Step>, D: nat, c: seq<byte>, n: nat, r: Result<nat>, out: seq<nat>)
    requires StepsOk(steps, D) && InitError(c).Some? && r == Err(InitError(c).value)
    ensures OneStream(steps, D, c, n, r, out)
  {
  }

  lemma {:induction false} AimStarts(h: Aim, d: DStream, out: seq<nat>, base: nat, steps: seq<Step>, D: nat, c: seq<byte>, n: nat)
    requires StepsOk(steps, D) && InitError(c) == None && h == AimFor(steps, D, c, n) && base <= |out|
    requires d.Valid() && d.src == c && d.Left() == Times8(|c| - 1) + HighBit(c[|c| - 1])
    ensures Lane(h, d, out, base, 0) && h.steps == steps && h.D == D && h.n == n && AimOk(h)
  {
    hide StepsOk, Walk, LE, DStream.Valid, DStream.Left, AimOk;
    LaneStarts(h, d, out, base);
  }

  lemma {:induction false} FinishedIs(h: Aim, d: DStream, out: seq<nat>, base: nat, end: nat)
    requires Finished(h, d, out, base, end)
    ensures d.EndOfDStream() <==> h.result.Some?
    ensures h.keep ==> base <= end <= |out| && h.result.Some? && out[base..end] == h.result.value
  {
  }
}
