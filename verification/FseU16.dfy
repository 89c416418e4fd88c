/**
  The single-state coder of fseU16.c. The state starts at 2^L instead of taking a first symbol for free, and
  the decoder stops by itself: when the stream is used up, and then when its state is 0.
 */
module FseU16 {
  import opened Bits
  import opened BitStream
  import opened Errors
  import opened FseWalk
  import opened FseSpread
  import opened FseTable
  import opened FseStream
  import opened FseBlock

  // ---------- what a block encodes to ----------

  /** Coding `src[i..]` backwards with the one state x1. */
  ghost function Chain(ct: CTable, src: seq<nat>, i: nat): Enc
    requires i <= |src|
    decreases |src| - i
  {
    if i == |src| then Enc(0, 0, Pow2(ct.tableLog), Pow2(ct.tableLog))
    else EncStep(ct, Chain(ct, src, i + 1), 0, src[i])
  }

  ghost function ChainBits(ct: CTable, src: seq<nat>): (nat, nat) {
    var e := Chain(ct, src, 0);
    (e.val + Shl(Low(e.x1, ct.tableLog), e.len), e.len + ct.tableLog)
  }

  lemma {:induction false} ChainOk(ct: CTable, t: seq<nat>, norm: seq<int>, L: nat, src: seq<nat>, i: nat)
    requires EncoderFor(ct, t, norm, L) && AllCoded(norm, src) && i <= |src|
    ensures EncOk(Chain(ct, src, i), L)
    decreases |src| - i
  {
    if i == |src| {
      assert ct.tableLog == L;
      assert Pow2(0) == 1;
    } else {
      ChainOk(ct, t, norm, L, src, i + 1);
      EncStepOk(ct, t, norm, L, Chain(ct, src, i + 1), 0, src[i]);
      hide EncStep, EncOk, EncoderFor;
    }
  }

  lemma {:induction false} ChainLength(ct: CTable, t: seq<nat>, norm: seq<int>, L: nat, src: seq<nat>, i: nat)
    requires EncoderFor(ct, t, norm, L) && AllCoded(norm, src) && i <= |src|
    ensures Chain(ct, src, i).len <= Times(L, |src| - i)
    decreases |src| - i
  {
    hide EncStep, EncOk, EncoderFor, Pow2;
    if i < |src| {
      ChainOk(ct, t, norm, L, src, i + 1);
      ChainLength(ct, t, norm, L, src, i + 1);
      StepLength(ct, t, norm, L, Chain(ct, src, i + 1), 0, src[i]);
    }
  }

  // ---------- FSE_compressU16_usingCTable ----------

  ghost predicate AtChain(bitC: CStream, c: CState, src: seq<nat>, ip: nat)
    requires ip <= |src|
    reads bitC, c
  {
    var e := Chain(c.ct, src, ip);
    bitC.val == e.val && bitC.len == e.len && c.value == e.x1
  }

  /** Codes the symbol before `ip`. */
  method EncodeBack(bitC: CStream, c: CState, src: seq<nat>, ip: nat, ghost t: seq<nat>, ghost norm: seq<int>)
    requires bitC.Valid()
    requires EncoderFor(c.ct, t, norm, c.ct.tableLog) && AllCoded(norm, src)
    requires 0 < ip <= |src| && AtChain(bitC, c, src, ip)
    requires bitC.bitPos + MAX_TABLELOG < WORD
    modifies c`value, bitC`bitContainer, bitC`bitPos, bitC`val, bitC`len
    ensures bitC.Valid() && bitC.bitPos <= old(bitC.bitPos) + MAX_TABLELOG
    ensures AtChain(bitC, c, src, ip - 1)
  {
    ghost var e := Chain(c.ct, src, ip);
    ChainOk(c.ct, t, norm, c.ct.tableLog, src, ip);
    assert Mine(e, 0) == e.x1;
    ghost var e' := EncStep(c.ct, e, 0, src[ip - 1]);
    assert Mine(e', 0) == e'.x1;
    assert Chain(c.ct, src, ip - 1) == e';
    hide EncoderFor, Chain, EncStep, Mine, Other, InRange, Coded, CStream.Sound;
    EncodeOne(bitC, c, src[ip - 1], e, 0, t, norm);
  }

  /** Codes the four symbols before `ip`, then flushes. */
  method EncodeFour(bitC: CStream, c: CState, src: seq<nat>, ip: nat, ghost t: seq<nat>, ghost norm: seq<int>)
    requires bitC.Valid() && bitC.bitPos < 8 && 4 <= ip <= |src|
    requires EncoderFor(c.ct, t, norm, c.ct.tableLog) && AllCoded(norm, src) && AtChain(bitC, c, src, ip)
    modifies c, bitC, bitC.buf
    ensures bitC.Valid() && bitC.Framed() && bitC.bitPos < 8 && AtChain(bitC, c, src, ip - 4)
  {
    hide EncoderFor, AllCoded, Shl, Low, Half, Odd, Chain, CStream.Sound;
    EncodeBack(bitC, c, src, ip, t, norm);
    EncodeBack(bitC, c, src, ip - 1, t, norm);
    EncodeBack(bitC, c, src, ip - 2, t, norm);
    EncodeBack(bitC, c, src, ip - 3, t, norm);
    bitC.FlushBits();
  }

  /** The two joins leave a multiple of four. */
  lemma {:induction false} JoinParts(n: nat) returns (q: nat)
    ensures n == (if TestBit(n, 0) then 1 else 0) + (if TestBit(n, 1) then 2 else 0) + q + q + q + q
  {
    q := Half(Half(n));
    assert Shr(n, 0) == n;
    assert Shr(n, 1) == Shr(Half(n), 0) == Half(n);
  }

  /** Joins to a multiple of four, then the main loop: four symbols, then a flush. */
  method EncodeAll(bitC: CStream, c: CState, src: seq<nat>, ghost t: seq<nat>, ghost norm: seq<int>)
    requires bitC.Valid() && bitC.bitPos == 0
    requires EncoderFor(c.ct, t, norm, c.ct.tableLog) && AllCoded(norm, src)
    requires AtChain(bitC, c, src, |src|)
    modifies c, bitC, bitC.buf
    ensures bitC.Valid() && bitC.Framed() && bitC.bitPos < 8
    ensures AtChain(bitC, c, src, 0)
  {
    hide EncoderFor, AllCoded, Shl, Low, Half, Odd, Chain, TestBit, CStream.Sound;
    var ip: nat := |src|;
    ghost var k := JoinParts(|src|);
    if TestBit(|src|, 0) {
      EncodeBack(bitC, c, src, ip, t, norm);
      ip := ip - 1;
      bitC.FlushBits();
    }
    if TestBit(|src|, 1) {
      EncodeBack(bitC, c, src, ip, t, norm);
      EncodeBack(bitC, c, src, ip - 1, t, norm);
      ip := ip - 2;
      bitC.FlushBits();
    }
    while ip > 0
      invariant bitC.Valid() && bitC.bitPos < 8 && bitC.Framed()
      invariant ip == k + k + k + k && ip <= |src|
      invariant AtChain(bitC, c, src, ip)
    {
      EncodeFour(bitC, c, src, ip, t, norm);
      ip := ip - 4;
      k := k - 1;
    }
  }

  lemma {:induction false} ChainEmpty(ct: CTable, t: seq<nat>, norm: seq<int>, src: seq<nat>)
    requires EncoderFor(ct, t, norm, ct.tableLog)
    ensures ct.tableLog <= MAX_TABLELOG
    ensures Chain(ct, src, |src|) == Enc(0, 0, Pow2(ct.tableLog), Pow2(ct.tableLog))
  {
  }

  /**
    FSE_compressU16_usingCTable, for a destination the stream accepts. On success it holds the closed
    stream of `ChainBits`; 0 says that there is no room for it.
   */
  method CompressU16UsingCTable(dst: array<byte>, start: nat, dstSize: nat, src: seq<nat>, ct: CTable,
                                ghost t: seq<nat>, ghost norm: seq<int>) returns (size: nat)
    requires start + dstSize <= dst.Length && dstSize > 8
    requires EncoderFor(ct, t, norm, ct.tableLog) && AllCoded(norm, src)
    modifies dst
    ensures size <= dstSize
    ensures size != 0 <==> RoomFor(ChainBits(ct, src).1, dstSize)
    ensures size != 0 ==> Represents(dst[start..start + size], ChainBits(ct, src).0, ChainBits(ct, src).1)
    ensures forall k | 0 <= k < dst.Length && !(start <= k < start + dstSize) :: dst[k] == old(dst[k])
  {
    hide EncoderFor, AllCoded, Shl, Low, Pow2, Chain, Represents, CStream.Sound, RoomFor, Times8;
    ChainEmpty(ct, t, norm, src);
    var bitC := new CStream(dst, start, dstSize);
    var c := new CState(ct);
    EncodeAll(bitC, c, src, t, norm);
    size := FinishChain(bitC, c, src);
  }

  /** The state, then the end mark. */
  method FinishChain(bitC: CStream, c: CState, src: seq<nat>) returns (size: nat)
    requires bitC.Valid() && bitC.bitPos < 8 && c.ct.tableLog <= MAX_TABLELOG
    requires AtChain(bitC, c, src, 0)
    modifies bitC, bitC.buf
    ensures bitC.Framed() && bitC.startPtr + size <= bitC.endPtr
    ensures size != 0 ==> Represents(bitC.buf[bitC.startPtr..bitC.startPtr + size], ChainBits(c.ct, src).0, ChainBits(c.ct, src).1)
    ensures size != 0 <==> RoomFor(ChainBits(c.ct, src).1, bitC.endPtr + 8 - bitC.startPtr)
  {
    hide Shl, Low, Chain, CStream.Sound, Represents;
    c.Flush(bitC);
    size := bitC.Close();
  }

  // ---------- FSE_decompressU16_usingDTable ----------

  /** The stream is the closed stream of the chain `h` describes. */
  ghost predicate HoldsChain(h: History, cSrc: seq<byte>, dt: DTable) {
    && EncoderFor(h.ct, h.t, h.norm, dt.tableLog) && AllCoded(h.norm, h.src)
    && Represents(cSrc, ChainBits(h.ct, h.src).0, ChainBits(h.ct, h.src).1)
  }

  ghost predicate Tables(h: History, dt: DTable) {
    DecoderFor(dt, h.t, h.norm, dt.tableLog)
    && (h.good ==> EncoderFor(h.ct, h.t, h.norm, dt.tableLog) && AllCoded(h.norm, h.src))
  }

  lemma {:induction false} ChainUndoes(h: History, dt: DTable, i: nat)
    requires h.good && Tables(h, dt) && i < |h.src|
    ensures Undoes(dt, Chain(h.ct, h.src, i), Chain(h.ct, h.src, i + 1), 0, h.src[i])
    ensures Mine(Chain(h.ct, h.src, i), 0) == Chain(h.ct, h.src, i).x1
    ensures Mine(Chain(h.ct, h.src, i + 1), 0) == Chain(h.ct, h.src, i + 1).x1
  {
    var e := Chain(h.ct, h.src, i + 1);
    assert Chain(h.ct, h.src, i) == EncStep(h.ct, e, 0, h.src[i]);
    assert Mine(e, 0) == e.x1;
    assert Mine(Chain(h.ct, h.src, i), 0) == Chain(h.ct, h.src, i).x1;
    ChainOk(h.ct, h.t, h.norm, dt.tableLog, h.src, i + 1);
    hide Chain, EncStep, EncoderFor, DecoderFor, InRange, Mine, Other, Undoes;
    StepUndoes(h.ct, dt, h.t, h.norm, e, 0, h.src[i]);
  }

  /** State 0 asks for at least one bit, so it cannot be the state of a free symbol. */
  lemma {:induction false} ZeroStops(h: History, dt: DTable, i: nat, state: nat)
    requires h.good && Tables(h, dt) && NoWholeTable(h.norm, dt.tableLog)
    requires i <= |h.src| && Chain(h.ct, h.src, i).len == 0
    requires state + Pow2(dt.tableLog) == Chain(h.ct, h.src, i).x1
    ensures state == 0 <==> i == |h.src|
  {
    if i < |h.src| {
      ChainUndoes(h, dt, i);
      CellZeroBits(dt, h.t, h.norm, dt.tableLog);
    }
  }

  // ---------- a symbol that owns the whole table ----------

  lemma {:induction false} OccAll(t: seq<nat>, n: nat, s: nat)
    requires n <= |t| && forall u | 0 <= u < n :: t[u] == s
    ensures Occ(t, n, s) == n
  {
    if n > 0 { OccAll(t, n - 1, s); }
  }

  /** In a table owned by one symbol only cell 0 has base state 0. */
  lemma {:induction false} OwnedCells(dt: DTable, t: seq<nat>, norm: seq<int>, u: nat)
    requires DecoderFor(dt, t, norm, dt.tableLog) && !NoWholeTable(norm, dt.tableLog)
    requires u < |dt.cells| && dt.cells[u].newState == 0
    ensures u == 0 && dt.cells[u].nbBits == 0
  {
    WholeTableIsFree(dt, t, norm);
    var s: nat :| s < |norm| && norm[s] >= Pow2(dt.tableLog);
    assert CellFor(dt.cells[u], t, norm, dt.tableLog, u);
    forall v: nat | v <= u ensures t[v] == s {
      NextStateBounds(t, norm, dt.tableLog, v);
      OnlyOwner(norm, dt.tableLog, s, t[v]);
    }
    OccAll(t, u, s);
    var x := NextState(t, norm, u);
    assert Shl(x, 0) == x;
  }

  /** Then every block is coded as if it were empty. */
  lemma {:induction false} WholeTableChain(h: History, dt: DTable, i: nat)
    requires h.good && Tables(h, dt) && !NoWholeTable(h.norm, dt.tableLog) && i <= |h.src|
    ensures Chain(h.ct, h.src, i).len == 0 && Chain(h.ct, h.src, i).x1 == Pow2(dt.tableLog)
    decreases |h.src| - i
  {
    assert h.ct.tableLog == dt.tableLog;
    if i < |h.src| {
      var e := Chain(h.ct, h.src, i);
      WholeTableChain(h, dt, i + 1);
      ChainUndoes(h, dt, i);
      ChainOk(h.ct, h.t, h.norm, dt.tableLog, h.src, i);
      assert |dt.cells| == Pow2(dt.tableLog);
      hide Chain, Low, Shl, Mine, Other;
      OwnedCells(dt, h.t, h.norm, e.x1 - Pow2(dt.tableLog));
    }
  }

  // ---------- the reference decoder ----------

  /**
    The symbols after the last bit, until the state is 0. The register is not reloaded any more: a symbol that asks for
    bits gets those of `word` again, `over` bits after its start having been taken like that before.
   */
  ghost function Rest(dt: DTable, word: nat, over: nat, state: nat, n: nat): (r: Option<seq<nat>>)
    ensures r.Some? ==> |r.value| <= n
    decreases n
  {
    if state == 0 then Some([])
    else if n == 0 || state >= |dt.cells| then None
    else
      var c := dt.cells[state];
      var v := Low(Shr(word, ShiftCount(-(over + c.nbBits))), c.nbBits);
      Prefixed(c.symbol, Rest(dt, word, over + c.nbBits, c.newState + v, n - 1))
  }

  /** Decoding with `left` bits of `stream` unread and room for `n` symbols: all bits must be used up exactly. */
  ghost function ChainRun(dt: DTable, stream: nat, left: int, state: nat, n: nat): (r: Option<seq<nat>>)
    ensures r.Some? ==> |r.value| <= n
    decreases n
  {
    if left < 0 then None
    else if left == 0 then Rest(dt, Trunc64(stream), 0, state, n)
    else if n == 0 || state >= |dt.cells| then None
    else
      var c := dt.cells[state];
      if left < c.nbBits then None
      else Prefixed(c.symbol, ChainRun(dt, stream, left - c.nbBits, c.newState + Slice(stream, left - c.nbBits, c.nbBits), n - 1))
  }

  /** Bits in the stream as the decoder sees it, which goes on without an end mark as well. */
  ghost function StartLeft(c: seq<byte>): nat
    requires |c| > 0
  {
    if c[|c| - 1] != 0 then BitLength(c) else if |c| >= 8 then Times8(|c|) else WORD
  }

  ghost function ChainStreamRun(dt: DTable, c: seq<byte>, n: nat): Option<seq<nat>>
    requires |c| > 0
  {
    var left := StartLeft(c) - dt.tableLog;
    ChainRun(dt, LE(c), left, StateBelow(LE(c), left, dt.tableLog), n)
  }

  // ---------- a block by the reference decoder ----------

  /** The state before position `i` of the chain, and what is left of its bits. */
  ghost predicate ChainAt(h: History, dt: DTable, i: nat, stream: nat, state: nat) {
    && i <= |h.src| && state + Pow2(dt.tableLog) == Chain(h.ct, h.src, i).x1 && state < |dt.cells|
    && Low(stream, Chain(h.ct, h.src, i).len) == Chain(h.ct, h.src, i).val
  }

  /** One decoding step goes on to the next position of the chain. */
  lemma {:induction false} ChainNext(h: History, dt: DTable, i: nat, stream: nat, state: nat)
    requires h.good && Tables(h, dt) && i < |h.src| && ChainAt(h, dt, i, stream, state)
    ensures var c, len, len' := dt.cells[state], Chain(h.ct, h.src, i).len, Chain(h.ct, h.src, i + 1).len;
            && c.symbol == h.src[i] && len == len' + c.nbBits
            && ChainAt(h, dt, i + 1, stream, c.newState + Slice(stream, len', c.nbBits))
  {
    hide Tables, Chain, Low, Slice, Pow2, Mine, Other, CellOf;
    ChainInTable(h, dt, i + 1);
    ChainUndoes(h, dt, i);
    DecodeStep(dt, Chain(h.ct, h.src, i), Chain(h.ct, h.src, i + 1), 0, h.src[i], stream);
    ReadsCell(dt, state, Mine(Chain(h.ct, h.src, i), 0));
  }

  lemma {:induction false} ChainInTable(h: History, dt: DTable, i: nat)
    requires h.good && Tables(h, dt) && i <= |h.src|
    ensures Pow2(dt.tableLog) <= Chain(h.ct, h.src, i).x1 < Pow2(dt.tableLog) + |dt.cells|
  {
    hide Chain, Pow2, EncoderFor, AllCoded, IsSpread, NormOk;
    assert |dt.cells| == Pow2(dt.tableLog);
    ChainOk(h.ct, h.t, h.norm, dt.tableLog, h.src, i);
  }

  lemma {:induction false} FreeFields(word: nat, stream: nat, k: nat, p: nat)
    ensures Low(Shr(word, k), 0) == 0 && Slice(stream, p, 0) == 0
  {
  }

  /** After the last bit, the rest of the chain costs nothing. */
  lemma {:induction false} RestRuns(h: History, dt: DTable, i: nat, stream: nat, state: nat, word: nat, n: nat)
    requires h.good && Tables(h, dt) && NoWholeTable(h.norm, dt.tableLog) && ChainAt(h, dt, i, stream, state)
    requires Chain(h.ct, h.src, i).len == 0
    ensures Rest(dt, word, 0, state, n) == if |h.src| - i <= n then Some(h.src[i..]) else None
    decreases |h.src| - i
  {
    hide Tables, NoWholeTable, Chain, Low, Slice, Shr, Pow2, ShiftCount;
    ZeroStops(h, dt, i, state);
    if i < |h.src| {
      ChainNext(h, dt, i, stream, state);
      var c := dt.cells[state];
      FreeFields(word, stream, ShiftCount(-(0 + c.nbBits)), 0);
      if n > 0 { RestRuns(h, dt, i + 1, stream, c.newState, word, n - 1); }
      assert h.src[i..] == [h.src[i]] + h.src[i + 1..];
    } else {
      assert h.src[i..] == [];
    }
  }

  /** From any position of the chain on, the reference decoder finds the rest of the source, if there is room. */
  lemma {:induction false} ChainRuns(h: History, dt: DTable, i: nat, stream: nat, state: nat, n: nat)
    requires h.good && Tables(h, dt) && NoWholeTable(h.norm, dt.tableLog) && ChainAt(h, dt, i, stream, state)
    ensures ChainRun(dt, stream, Chain(h.ct, h.src, i).len, state, n) == if |h.src| - i <= n then Some(h.src[i..]) else None
    decreases |h.src| - i
  {
    hide Tables, NoWholeTable, Low, Slice, Pow2, Rest, EncStep, Trunc64;
    var left := Chain(h.ct, h.src, i).len;
    if left == 0 {
      RestRuns(h, dt, i, stream, state, Trunc64(stream), n);
    } else {
      ChainNext(h, dt, i, stream, state);
      var c := dt.cells[state];
      if n > 0 { ChainRuns(h, dt, i + 1, stream, c.newState + Slice(stream, left - c.nbBits, c.nbBits), n - 1); }
      assert h.src[i..] == [h.src[i]] + h.src[i + 1..];
    }
  }

  /**
    The reference decoder finds the source in the closed stream of its chain, exactly if there is room for it; if a
    symbol owns the whole table, it finds nothing there.
   */
  lemma {:induction false} ChainStreamRuns(h: History, cSrc: seq<byte>, dt: DTable, n: nat)
    requires h.good && Tables(h, dt) && HoldsChain(h, cSrc, dt)
    ensures |cSrc| > 0
    ensures ChainStreamRun(dt, cSrc, n)
            == if !NoWholeTable(h.norm, dt.tableLog) then Some([]) else if |h.src| <= n then Some(h.src) else None
  {
    hide Tables, Chain, Low, Slice, LE, Pow2, NoWholeTable, ChainRun, EncoderFor, AllCoded, Represents;
    ChainLastByte(h, cSrc, dt);
    ChainStart(h, cSrc, dt);
    ChainInTable(h, dt, 0);
    var e, L := Chain(h.ct, h.src, 0), dt.tableLog;
    var state := Slice(LE(cSrc), e.len, L);
    if NoWholeTable(h.norm, L) {
      ChainRuns(h, dt, 0, LE(cSrc), state, n);
      assert h.src[0..] == h.src;
    } else {
      WholeTableChain(h, dt, 0);
      RestNothing(dt, LE(cSrc), n);
    }
  }

  lemma {:induction false} RestNothing(dt: DTable, stream: nat, n: nat)
    ensures ChainRun(dt, stream, 0, 0, n) == Some([])
  {
  }

  // ---------- the decoder ----------

  /** After `op` symbols, with bits left, the reference decoder would go on to the result `goal`. */
  ghost predicate ChainGoes(goal: Option<seq<nat>>, dt: DTable, stream: nat, left: int, state: nat, op: nat, n: nat) {
    && op <= n
    && match goal
       case Some(out) => op <= |out| && ChainRun(dt, stream, left, state, n - op) == Some(out[op..])
       case None => ChainRun(dt, stream, left, state, n - op) == None
  }

  /** The same after the last bit. */
  ghost predicate RestGoes(goal: Option<seq<nat>>, dt: DTable, word: nat, over: nat, state: nat, op: nat, n: nat) {
    && op <= n
    && match goal
       case Some(out) => op <= |out| && Rest(dt, word, over, state, n - op) == Some(out[op..])
       case None => Rest(dt, word, over, state, n - op) == None
  }

  lemma {:induction false} ChainGoesOn(goal: Option<seq<nat>>, dt: DTable, stream: nat, left: int, state: nat, op: nat, n: nat, next: nat)
    requires ChainGoes(goal, dt, stream, left, state, op, n) && 0 < left && op < n && state < |dt.cells|
    requires var c := dt.cells[state]; left >= c.nbBits ==> next == c.newState + Slice(stream, left - c.nbBits, c.nbBits)
    ensures ChainGoes(goal, dt, stream, left - dt.cells[state].nbBits, next, op + 1, n)
    ensures goal.Some? ==> op < |goal.value| && goal.value[op] == dt.cells[state].symbol
  {
    hide Slice, Rest;
    var c := dt.cells[state];
    if goal.Some? {
      var rest := ChainRun(dt, stream, left - c.nbBits, next, n - op - 1);
      assert [c.symbol] + rest.value == goal.value[op..];
      assert rest.value == goal.value[op..][1..] == goal.value[op + 1..];
    }
  }

  lemma {:induction false} RestGoesOn(goal: Option<seq<nat>>, dt: DTable, word: nat, over: nat, state: nat, op: nat, n: nat, next: nat)
    requires RestGoes(goal, dt, word, over, state, op, n) && op < n && 0 < state < |dt.cells|
    requires var c := dt.cells[state]; next == c.newState + Low(Shr(word, ShiftCount(-(over + c.nbBits))), c.nbBits)
    ensures RestGoes(goal, dt, word, over + dt.cells[state].nbBits, next, op + 1, n)
    ensures goal.Some? ==> op < |goal.value| && goal.value[op] == dt.cells[state].symbol
  {
    hide Low, Shr, ShiftCount;
    var c := dt.cells[state];
    if goal.Some? {
      var rest := Rest(dt, word, over + c.nbBits, next, n - op - 1);
      assert [c.symbol] + rest.value == goal.value[op..];
      assert rest.value == goal.value[op..][1..] == goal.value[op + 1..];
    }
  }

  /** First loop: until every bit of the stream is used. */
  method UntilCompleted(d: DStream, s: DState, dst: array<nat>, ghost t: seq<nat>, ghost norm: seq<int>, ghost goal: Option<seq<nat>>)
    returns (op: nat)
    requires d.Valid() && s.Valid() && d.Filled() && DecoderFor(s.dt, t, norm, s.dt.tableLog)
    requires ChainGoes(goal, s.dt, LE(d.src), d.Left(), s.state, 0, dst.Length)
    modifies s, d, dst
    ensures d.Valid() && s.Valid()
    ensures op <= dst.Length && ChainGoes(goal, s.dt, LE(d.src), d.Left(), s.state, op, dst.Length) && Output(goal, dst[..], op)
    ensures d.EndOfDStream() ==> d.Left() == 0
    ensures !d.EndOfDStream() ==> d.Left() < 0 || (d.Left() > 0 && op == dst.Length)
  {
    hide DecoderFor, ChainGoes, LE, DStream.Valid, DState.Valid;
    op := 0;
    var status := d.Reload();
    while (status == Unfinished || status == EndOfBuffer) && op < dst.Length
      invariant d.Valid() && s.Valid() && d.Filled()
      invariant op <= dst.Length && ChainGoes(goal, s.dt, LE(d.src), d.Left(), s.state, op, dst.Length) && Output(goal, dst[..], op)
      invariant status != Overflow ==> d.bitsConsumed <= WORD && (status == Completed <==> d.Left() == 0)
      invariant status == Overflow ==> d.bitsConsumed > WORD
    {
      StatesInTable(s, t, norm);
      ghost var x, left := s.state, d.Left();
      var symbol := s.DecodeSymbol(d, false, t, norm);
      ChainGoesOn(goal, s.dt, LE(d.src), left, x, op, dst.Length, s.state);
      dst[op] := symbol;
      op := op + 1;
      status := d.Reload();
    }
  }

  /** Second loop: the symbols after the last bit, until the state is 0. */
  method UntilZero(d: DStream, s: DState, dst: array<nat>, op0: nat, ghost t: seq<nat>, ghost norm: seq<int>, ghost goal: Option<seq<nat>>)
    returns (op: nat)
    requires d.Valid() && s.Valid() && DecoderFor(s.dt, t, norm, s.dt.tableLog) && d.EndOfDStream()
    requires op0 <= dst.Length && RestGoes(goal, s.dt, d.bitContainer, 0, s.state, op0, dst.Length) && Output(goal, dst[..], op0)
    modifies s`state, d`bitsConsumed, dst
    ensures op <= dst.Length && (s.state == 0 || op == dst.Length)
    ensures exists over: nat :: RestGoes(goal, s.dt, d.bitContainer, over, s.state, op, dst.Length)
    ensures Output(goal, dst[..], op)
  {
    hide DecoderFor, RestGoes, LE, DStream.Valid, DState.Valid, Low, Shr, ShiftCount;
    op := op0;
    ghost var over: nat := 0;
    while s.state != 0 && op < dst.Length
      invariant d.Valid() && s.Valid() && d.bitsConsumed == WORD + over
      invariant op <= dst.Length && RestGoes(goal, s.dt, d.bitContainer, over, s.state, op, dst.Length) && Output(goal, dst[..], op)
      decreases dst.Length - op
    {
      StatesInTable(s, t, norm);
      ghost var x := s.state;
      var symbol := s.DecodeSymbol(d, false, t, norm);
      RestGoesOn(goal, s.dt, d.bitContainer, over, x, op, dst.Length, s.state);
      over := over + s.dt.cells[x].nbBits;
      dst[op] := symbol;
      op := op + 1;
    }
  }

  lemma {:induction false} ChainOpens(e: Enc, L: nat, stream: nat)
    requires InRange(e.x1, L) && e.val < Pow2(e.len)
    requires Low(stream, e.len + L) == e.val + Shl(Low(e.x1, L), e.len)
    ensures Slice(stream, e.len, L) + Pow2(L) == e.x1
    ensures Low(stream, e.len) == e.val
  {
    hide Slice, Shl;
    StateBits(e.x1, L);
    SliceTop(stream, e.len, L, e.val, Low(e.x1, L));
  }

  lemma {:induction false} TablesLog(h: History, dt: DTable)
    requires h.good && Tables(h, dt)
    ensures h.ct.tableLog == dt.tableLog <= MAX_TABLELOG
  {
  }

  lemma {:induction false} ChainStart(h: History, cSrc: seq<byte>, dt: DTable)
    requires h.good && Tables(h, dt) && HoldsChain(h, cSrc, dt)
    ensures var e, L := Chain(h.ct, h.src, 0), dt.tableLog;
            L == h.ct.tableLog <= MAX_TABLELOG
            && Slice(LE(cSrc), e.len, L) + Pow2(L) == e.x1 && Low(LE(cSrc), e.len) == e.val
  {
    hide Low, Shl, Slice, LE, Pow2, Represents, EncoderFor, DecoderFor, AllCoded, Chain;
    var L := dt.tableLog;
    TablesLog(h, dt);
    ChainOk(h.ct, h.t, h.norm, L, h.src, 0);
    RepresentsLow(cSrc, ChainBits(h.ct, h.src).0, ChainBits(h.ct, h.src).1);
    ChainOpens(Chain(h.ct, h.src, 0), L, LE(cSrc));
  }

  lemma {:induction false} ChainLastByte(h: History, cSrc: seq<byte>, dt: DTable)
    requires h.good && HoldsChain(h, cSrc, dt)
    ensures |cSrc| > 0 && cSrc[|cSrc| - 1] != 0
    ensures ChainBits(h.ct, h.src).1 == HighBit(cSrc[|cSrc| - 1]) + Times8(|cSrc| - 1)
  {
    hide Represents, Chain;
    RepresentsUnique(cSrc, ChainBits(h.ct, h.src).0, ChainBits(h.ct, h.src).1);
  }

  /** With bits left, or too few, there is no result. */
  lemma {:induction false} NotEnded(goal: Option<seq<nat>>, dt: DTable, stream: nat, left: int, state: nat, op: nat, n: nat)
    requires ChainGoes(goal, dt, stream, left, state, op, n) && (left < 0 || (left > 0 && op == n))
    ensures goal == None
  {
  }

  lemma {:induction false} ToRest(goal: Option<seq<nat>>, d: DStream, dt: DTable, state: nat, op: nat, n: nat)
    requires d.Valid() && d.EndOfDStream() && ChainGoes(goal, dt, LE(d.src), 0, state, op, n)
    ensures RestGoes(goal, dt, d.bitContainer, 0, state, op, n)
  {
    hide LE, Rest, Trunc64;
    ShiftNone(LE(d.src));
  }

  lemma {:induction false} RestEnds(goal: Option<seq<nat>>, dt: DTable, word: nat, over: nat, state: nat, op: nat, n: nat)
    requires RestGoes(goal, dt, word, over, state, op, n) && (state == 0 || op == n)
    ensures if state == 0 then goal.Some? && |goal.value| == op else goal == None
  {
    assert goal.Some? ==> (goal.value[op..] == [] ==> |goal.value| == op);
  }

  /** The state, and what the reference decoder makes of the stream from there. */
  lemma {:induction false} StillFilled(cSrc: seq<byte>, dt: DTable, d: DStream, s: DState, n: nat)
    requires |cSrc| > 0 && dt.tableLog <= MAX_TABLELOG && s.dt == dt && d.src == cSrc && d.Left() == StartLeft(cSrc) - dt.tableLog
    requires d.Left() >= 0 ==> s.state == Slice(LE(cSrc), d.Left(), dt.tableLog)
    ensures ChainGoes(ChainStreamRun(dt, cSrc, n), dt, LE(cSrc), d.Left(), s.state, 0, n)
  {
    hide LE, Slice, Rest;
    var goal := ChainStreamRun(dt, cSrc, n);
    assert goal.Some? ==> goal.value[0..] == goal.value;
  }

  /**
    FSE_decompressU16_usingDTable: for any bytes, exactly what the reference decoder makes of them. On the stream of a
    chain it stops by itself after exactly the block; the exception is a table owned by one symbol, with which every
    block reads as empty (`ChainStreamRuns`).
   */
  method DecompressU16UsingDTable(dst: array<nat>, cSrc: seq<byte>, dt: DTable, ghost t: seq<nat>, ghost norm: seq<int>) returns (r: Result<nat>)
    requires |cSrc| > 0 && DecoderFor(dt, t, norm, dt.tableLog)
    modifies dst
    ensures match ChainStreamRun(dt, cSrc, dst.Length)
            case Some(out) => r == Ok(|out|) && |out| <= dst.Length && dst[..|out|] == out
            case None => r == Err(CorruptionDetected)
  {
    hide DecoderFor, ChainGoes, RestGoes, DStream.Valid, DState.Valid, LE, StateBelow, ChainStreamRun;
    LogBound(dt, t, norm);
    var d := new DStream(cSrc);
    ghost var left := d.Left();
    var s := new DState(dt, d);
    ghost var goal := ChainStreamRun(dt, cSrc, dst.Length);
    StillFilled(cSrc, dt, d, s, dst.Length);
    var op := UntilCompleted(d, s, dst, t, norm, goal);
    if !d.EndOfDStream() {
      NotEnded(goal, dt, LE(cSrc), d.Left(), s.state, op, dst.Length);
      return Err(CorruptionDetected);
    }
    ToRest(goal, d, dt, s.state, op, dst.Length);
    op := UntilZero(d, s, dst, op, t, norm, goal);
    ghost var over: nat :| RestGoes(goal, dt, d.bitContainer, over, s.state, op, dst.Length);
    RestEnds(goal, dt, d.bitContainer, over, s.state, op, dst.Length);
    if s.state != 0 { return Err(CorruptionDetected); }
    r := Ok(op);
  }

  /**
    Round trip of the single-state coder, for every source of coded symbols, the empty one included. It
    holds exactly when no symbol owns the whole table, or the source is empty.
   */
  method RoundTripU16(norm: seq<int>, tableLog: nat, src: seq<nat>, dstSize: nat, capacity: nat)
    returns (size: nat, r: Result<nat>, out: seq<nat>)
    requires NormOk(norm, tableLog) && tableLog <= U16_LIMITS.maxTableLog && |norm| - 1 <= U16_LIMITS.maxSymbolValue
    requires AllCoded(norm, src) && dstSize > 8
    ensures RoomFor(Times(tableLog, |src|) + tableLog, dstSize) ==> size != 0
    ensures size != 0 && NoWholeTable(norm, tableLog) && |src| <= capacity ==> r == Ok(|src|) && out == src
    ensures size != 0 && NoWholeTable(norm, tableLog) && |src| > capacity ==> r == Err(CorruptionDetected)
    ensures size != 0 && !NoWholeTable(norm, tableLog) ==> r == Ok(0) && out == []
  {
    r, out := Err(Generic), [];
    var cResult, t := BuildCTable(norm, tableLog, Pow2(tableLog));
    var dResult, t' := BuildDTable(norm, tableLog, U16_LIMITS);
    SpreadUnique(t, t', norm, tableLog);
    var ct, dt := cResult.value, dResult.value;
    var buffer := new byte[dstSize];
    ChainLength(ct, t, norm, tableLog, src, 0);
    size := CompressU16UsingCTable(buffer, 0, dstSize, src, ct, t, norm);
    if size == 0 { return; }
    var dst := new nat[capacity];
    ghost var h := History(true, ct, src, t, norm);
    assert Tables(h, dt) && HoldsChain(h, buffer[..size], dt);
    ChainStreamRuns(h, buffer[..size], dt, capacity);
    r := DecompressU16UsingDTable(dst, buffer[..size], dt, t, norm);
    if r.Ok? { out := dst[..r.value]; }
  }
}
