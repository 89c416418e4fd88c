/**
  FSE_decompress_usingDTable_generic, and the round trip of a whole block.
 */
module FseBlock {
  import opened Bits
  import opened BitStream
  import opened Errors
  import opened FseWalk
  import opened FseSpread
  import opened FseTable
  import opened FseStream

  /** Encoder and decoder tables of the same counters, and a source they can code. */
  ghost predicate Pair(ct: CTable, dt: DTable, t: seq<nat>, norm: seq<int>, src: seq<nat>) {
    && EncoderFor(ct, t, norm, dt.tableLog) && DecoderFor(dt, t, norm, dt.tableLog)
    && AllCoded(norm, src)
    && |src| > 2
  }

  /** No symbol owns the whole table. */
  ghost predicate NoWholeTable(norm: seq<int>, L: nat) {
    forall s | 0 <= s < |norm| :: norm[s] < Pow2(L)
  }

  // ---------- one decoding step against the encoder's history ----------

  lemma {:induction false} PairEncoder(ct: CTable, dt: DTable, t: seq<nat>, norm: seq<int>, src: seq<nat>)
    requires Pair(ct, dt, t, norm, src)
    ensures ct.tableLog == dt.tableLog && EncoderFor(ct, t, norm, ct.tableLog)
    ensures DecoderFor(dt, t, norm, dt.tableLog)
    ensures |dt.cells| == Pow2(dt.tableLog)
  {
  }

  /** The cell of `Mine(e, i)` undoes the coding of `s` from the history `e'` to the history `e`. */
  ghost predicate Undoes(dt: DTable, e: Enc, e': Enc, i: nat, s: nat) {
    var c := CellOf(dt, Mine(e, i));
    && e'.val < Pow2(e'.len)
    && c.symbol == s && c.nbBits <= MAX_TABLELOG
    && e.len == e'.len + c.nbBits
    && e.val == e'.val + Shl(Low(Mine(e', i), c.nbBits), e'.len)
    && c.newState + Low(Mine(e', i), c.nbBits) == Mine(e', i) - Pow2(dt.tableLog)
    && Other(e', i) == Other(e, i)
  }

  /** Coding `s` at `i` after the history `e` is undone by one decoding step. */
  lemma {:induction false} StepUndoes(ct: CTable, dt: DTable, t: seq<nat>, norm: seq<int>, e: Enc, i: nat, s: nat)
    requires EncoderFor(ct, t, norm, dt.tableLog) && DecoderFor(dt, t, norm, dt.tableLog)
    requires Coded(norm, s) && InRange(Mine(e, i), dt.tableLog) && e.val < Pow2(e.len)
    ensures Undoes(dt, EncStep(ct, e, i, s), e, i, s)
  {
    assert ct.tableLog == dt.tableLog <= MAX_TABLELOG;
    StepInverse(ct, dt, t, norm, dt.tableLog, Mine(e, i), s);
    hide EncoderFor, DecoderFor, StateIndex, NbBitsOut, Shl, Low, Pow2, Odd, InRange;
  }

  lemma {:induction false} HistoryStep(ct: CTable, dt: DTable, t: seq<nat>, norm: seq<int>, src: seq<nat>, i: nat)
    requires Pair(ct, dt, t, norm, src) && i + 3 <= |src|
    ensures Undoes(dt, Suffix(ct, src, i), Suffix(ct, src, i + 1), i, src[i])
  {
    assert Suffix(ct, src, i) == EncStep(ct, Suffix(ct, src, i + 1), i, src[i]);
    hide Suffix, EncStep, EncoderFor, DecoderFor, InRange, Mine, Other, Undoes;
    SuffixOk(ct, t, norm, dt.tableLog, src, i + 1);
    MineCases(Suffix(ct, src, i + 1), i);
    StepUndoes(ct, dt, t, norm, Suffix(ct, src, i + 1), i, src[i]);
  }

  lemma {:induction false} MineCases(e: Enc, i: nat)
    ensures (Mine(e, i) == e.x1 && Other(e, i) == e.x2) || (Mine(e, i) == e.x2 && Other(e, i) == e.x1)
  {
  }

  /** Decoding at `i` gives back the bits and the state before the symbol was coded. */
  lemma {:induction false} DecodeStep(dt: DTable, e: Enc, e': Enc, i: nat, s: nat, stream: nat)
    requires Undoes(dt, e, e', i, s)
    requires Low(stream, e.len) == e.val
    ensures var c := CellOf(dt, Mine(e, i));
            c.newState + Slice(stream, e'.len, c.nbBits) == Mine(e', i) - Pow2(dt.tableLog)
            && Low(stream, e'.len) == e'.val
  {
    hide Shl, Low, Slice, Pow2, Mine, Other;
    PopField(stream, e'.len, e'.val, Mine(e', i), CellOf(dt, Mine(e, i)).nbBits);
  }

  lemma {:induction false} PopField(stream: nat, len: nat, val: nat, x: nat, nb: nat)
    requires val < Pow2(len) && Low(stream, len + nb) == val + Shl(Low(x, nb), len)
    ensures Slice(stream, len, nb) == Low(x, nb) && Low(stream, len) == val
  {
    Split(x, nb);
    SliceTop(stream, len, nb, val, Low(x, nb));
  }

  /** The last two symbols cost no bits; decoding the first of them asks for at least one. */
  ghost predicate EndsRight(dt: DTable, e: Enc, i: nat, a: nat, b: nat) {
    && e.len == 0 && e.val == 0
    && CellOf(dt, Mine(e, i)).symbol == a && CellOf(dt, Mine(e, i)).nbBits >= 1
    && CellOf(dt, Other(e, i)).symbol == b
  }

  lemma {:induction false} DecodeLast(ct: CTable, dt: DTable, t: seq<nat>, norm: seq<int>, src: seq<nat>)
    requires Pair(ct, dt, t, norm, src) && NoWholeTable(norm, dt.tableLog)
    ensures EndsRight(dt, Suffix(ct, src, |src| - 2), |src| - 2, src[|src| - 2], src[|src| - 1])
  {
    var n := |src|;
    var a, b := src[n - 2], src[n - 1];
    assert Coded(norm, a) && Coded(norm, b) && norm[a] != Pow2(dt.tableLog);
    hide InRange, AllCoded, NoWholeTable, InitialIndex, IsSpread, NormOk, CTableFor, DTableFor, Pow2;
    InitialCell(ct, dt, t, norm, dt.tableLog, a);
    InitialCell(ct, dt, t, norm, dt.tableLog, b);
    hide EncoderFor, DecoderFor, Coded;
  }

  // ---------- the reference decoder ----------

  ghost function Prefixed(s: nat, rest: Option<seq<nat>>): Option<seq<nat>> {
    match rest
    case None => None
    case Some(t) => Some([s] + t)
  }

  /**
    Decoding from two states in turn, with `left` bits of `stream` unread and room for `n` symbols. A symbol takes the
    bits of its cell from the top of what is unread; if there are not enough, it and the symbol of the other state are
    the last two.
   */
  ghost function Run(dt: DTable, stream: nat, left: int, mine: nat, other: nat, n: nat): (r: Option<seq<nat>>)
    ensures r.Some? ==> 2 <= |r.value| <= n
    decreases n
  {
    if n < 2 || mine >= |dt.cells| || other >= |dt.cells| then None
    else
      var c := dt.cells[mine];
      if left < c.nbBits then Some([c.symbol, dt.cells[other].symbol])
      else Prefixed(c.symbol, Run(dt, stream, left - c.nbBits, other, c.newState + Slice(stream, left - c.nbBits, c.nbBits), n - 1))
  }

  /** A state as it is read below position `p`; nothing but zeros is read from before the start of a stream. */
  ghost function StateBelow(stream: nat, p: int, L: nat): nat {
    if p >= 0 then Slice(stream, p, L) else 0
  }

  /** What the reference decoder makes of a whole stream: the two states are its last fields. */
  ghost function StreamRun(dt: DTable, c: seq<byte>, n: nat): Option<seq<nat>>
    requires InitError(c) == None
  {
    var k, L := BitLength(c), dt.tableLog;
    Run(dt, LE(c), k - L - L, StateBelow(LE(c), k - L, L), StateBelow(LE(c), k - L - L, L), n)
  }

  // ---------- a block by the reference decoder ----------

  /** The block being decoded, when it is one of the encoder (`good`). */
  datatype History = History(good: bool, ct: CTable, src: seq<nat>, t: seq<nat>, norm: seq<int>)

  lemma {:induction false} MineSwaps(e: Enc, i: nat)
    ensures Mine(e, i + 1) == Other(e, i) && Other(e, i + 1) == Mine(e, i)
  {
    OddSum(i, 1);
  }

  /** The cell the decoder reads is the one of the encoder's state. */
  lemma {:induction false} ReadsCell(dt: DTable, state: nat, x: nat)
    requires state < |dt.cells| && state + Pow2(dt.tableLog) == x
    ensures CellOf(dt, x) == dt.cells[state]
  {
  }

  /** The states before position `i` of the history, and what is left of its bits. */
  ghost predicate At(dt: DTable, e: Enc, i: nat, stream: nat, mine: nat, other: nat) {
    && mine + Pow2(dt.tableLog) == Mine(e, i) && other + Pow2(dt.tableLog) == Other(e, i)
    && mine < |dt.cells| && other < |dt.cells| && Low(stream, e.len) == e.val
  }

  lemma {:induction false} HistoryInTable(ct: CTable, dt: DTable, t: seq<nat>, norm: seq<int>, src: seq<nat>, i: nat)
    requires Pair(ct, dt, t, norm, src) && i + 2 <= |src|
    ensures Pow2(dt.tableLog) <= Mine(Suffix(ct, src, i), i) < Pow2(dt.tableLog) + |dt.cells|
    ensures Pow2(dt.tableLog) <= Other(Suffix(ct, src, i), i) < Pow2(dt.tableLog) + |dt.cells|
  {
    hide Suffix, EncoderFor, DecoderFor, AllCoded, Pow2;
    PairEncoder(ct, dt, t, norm, src);
    SuffixOk(ct, t, norm, dt.tableLog, src, i);
    MineCases(Suffix(ct, src, i), i);
  }

  /** From any position of the history on, the reference decoder finds the rest of the source, if there is room. */
  lemma {:induction false} SuffixRuns(ct: CTable, dt: DTable, t: seq<nat>, norm: seq<int>, src: seq<nat>, i: nat, stream: nat, mine: nat, other: nat, n: nat)
    requires Pair(ct, dt, t, norm, src) && NoWholeTable(norm, dt.tableLog) && i + 2 <= |src|
    requires At(dt, Suffix(ct, src, i), i, stream, mine, other)
    ensures Run(dt, stream, Suffix(ct, src, i).len, mine, other, n) == if |src| - i <= n then Some(src[i..]) else None
    decreases |src| - i
  {
    hide Pair, NoWholeTable, Suffix, Low, Slice, Pow2, Mine, Other, CellOf;
    var e := Suffix(ct, src, i);
    ReadsCell(dt, mine, Mine(e, i));
    if i + 2 == |src| {
      DecodeLast(ct, dt, t, norm, src);
      ReadsCell(dt, other, Other(e, i));
      assert src[i..] == [src[i], src[i + 1]];
    } else {
      var e' := Suffix(ct, src, i + 1);
      HistoryStep(ct, dt, t, norm, src, i);
      DecodeStep(dt, e, e', i, src[i], stream);
      MineSwaps(e', i);
      HistoryInTable(ct, dt, t, norm, src, i + 1);
      var c := dt.cells[mine];
      if n >= 2 { SuffixRuns(ct, dt, t, norm, src, i + 1, stream, other, c.newState + Slice(stream, e'.len, c.nbBits), n - 1); }
      assert src[i..] == [src[i]] + src[i + 1..];
    }
  }

  /** Every cell of the table decodes without consuming a bit. */
  ghost predicate AllFree(dt: DTable) {
    forall u | 0 <= u < |dt.cells| :: dt.cells[u].nbBits == 0
  }

  /** Cells that cost no bit never end the stream. */
  lemma {:induction false} FreeNeverEnds(dt: DTable, stream: nat, left: nat, mine: nat, other: nat, n: nat)
    requires AllFree(dt)
    ensures Run(dt, stream, left, mine, other, n) == None
    decreases n
  {
    hide Slice;
    if n >= 2 && mine < |dt.cells| && other < |dt.cells| {
      var c := dt.cells[mine];
      FreeNeverEnds(dt, stream, left, other, c.newState + Slice(stream, left, 0), n - 1);
    }
  }

  // ---------- opening the stream ----------

  /** The bits of a block: what its two flushed states read as. */
  lemma {:induction false} BlockOpens(e: Enc, L: nat, stream: nat)
    requires EncOk(e, L)
    requires Low(stream, Flushed(e, L).1) == Flushed(e, L).0
    ensures Slice(stream, e.len + L, L) + Pow2(L) == e.x1
    ensures Slice(stream, e.len, L) + Pow2(L) == e.x2
    ensures Low(stream, e.len) == e.val
  {
    hide Slice, Shl;
    StateBits(e.x1, L);
    StateBits(e.x2, L);
    var v := e.val + Shl(Low(e.x2, L), e.len);
    PushFits(e.val, e.len, Low(e.x2, L), L);
    SliceTop(stream, e.len + L, L, v, Low(e.x1, L));
    SliceTop(stream, e.len, L, e.val, Low(e.x2, L));
  }

  lemma {:induction false} StateBits(x: nat, L: nat)
    requires InRange(x, L)
    ensures Low(x, L) == x - Pow2(L) < Pow2(L)
  {
    ShlOne(L);
    Join(x - Pow2(L), 1, L);
  }

  /** A symbol owning the whole table makes every cell free. */
  lemma {:induction false} WholeTableIsFree(dt: DTable, t: seq<nat>, norm: seq<int>)
    requires DecoderFor(dt, t, norm, dt.tableLog)
    requires !NoWholeTable(norm, dt.tableLog)
    ensures AllFree(dt)
  {
    var L := dt.tableLog;
    var s: nat :| s < |norm| && norm[s] >= Pow2(L);
    forall u: nat | u < |dt.cells| ensures dt.cells[u].nbBits == 0 {
      assert CellFor(dt.cells[u], t, norm, L, u);
      NextStateBounds(t, norm, L, u);
      OnlyOwner(norm, L, s, t[u]);
      SumMono(norm, s + 1, |norm|);
      var x := NextState(t, norm, u);
      assert Shl(x, 0) == x;
      SameBits(x, dt.cells[u].nbBits, 0, L);
    }
  }

  lemma {:induction false} OnlyOwner(norm: seq<int>, L: nat, s: nat, r: nat)
    requires NormOk(norm, L) && s < |norm| && norm[s] >= Pow2(L)
    requires r < |norm| && norm[r] != 0
    ensures r == s
  {
    SumMono(norm, s + 1, |norm|);
    SumMono(norm, r + 1, |norm|);
    if r < s { SumMono(norm, r + 1, s); }
    if s < r { SumMono(norm, s + 1, r); }
  }

  /** The stream is the closed stream of the block `h` describes. */
  ghost predicate HoldsBlock(h: History, cSrc: seq<byte>, dt: DTable) {
    Pair(h.ct, dt, h.t, h.norm, h.src) && Represents(cSrc, Block(h.ct, h.src).0, Block(h.ct, h.src).1)
  }

  /** The two final states of a block, as the decoder finds them. */
  lemma {:induction false} HistoryOpens(h: History, cSrc: seq<byte>, dt: DTable)
    requires HoldsBlock(h, cSrc, dt)
    ensures |h.src| > 2 && dt.tableLog == h.ct.tableLog <= MAX_TABLELOG
    ensures var e, L := Suffix(h.ct, h.src, 0), dt.tableLog;
            && Block(h.ct, h.src).1 == e.len + L + L && Low(LE(cSrc), e.len) == e.val
            && Slice(LE(cSrc), e.len + L, L) + Pow2(L) == e.x1 && Slice(LE(cSrc), e.len, L) + Pow2(L) == e.x2
  {
    hide Suffix, Represents, Low, Slice, LE, Pow2, Shl;
    PairEncoder(h.ct, dt, h.t, h.norm, h.src);
    SuffixOk(h.ct, h.t, h.norm, dt.tableLog, h.src, 0);
    RepresentsLow(cSrc, Block(h.ct, h.src).0, Block(h.ct, h.src).1);
    BlockOpens(Suffix(h.ct, h.src, 0), dt.tableLog, LE(cSrc));
    assert dt.tableLog <= MAX_TABLELOG;
  }

  /**
    The reference decoder finds the source in the closed stream of its block, exactly if there is room for it and no
    symbol owns the whole table.
   */
  lemma {:induction false} BlockRuns(h: History, cSrc: seq<byte>, dt: DTable, n: nat)
    requires HoldsBlock(h, cSrc, dt)
    ensures InitError(cSrc) == None
    ensures StreamRun(dt, cSrc, n) == if |h.src| <= n && NoWholeTable(h.norm, dt.tableLog) then Some(h.src) else None
  {
    hide Represents, Suffix, Low, Slice, LE, Pow2, Run, NoWholeTable, EncoderFor, DecoderFor, AllCoded;
    RepresentsUnique(cSrc, Block(h.ct, h.src).0, Block(h.ct, h.src).1);
    HistoryOpens(h, cSrc, dt);
    var e, L := Suffix(h.ct, h.src, 0), dt.tableLog;
    var x, y := Slice(LE(cSrc), e.len + L, L), Slice(LE(cSrc), e.len, L);
    MineFirst(e);
    HistoryInTable(h.ct, dt, h.t, h.norm, h.src, 0);
    if NoWholeTable(h.norm, L) {
      SuffixRuns(h.ct, dt, h.t, h.norm, h.src, 0, LE(cSrc), x, y, n);
      assert h.src[0..] == h.src;
    } else {
      WholeTableIsFree(dt, h.t, h.norm);
      FreeNeverEnds(dt, LE(cSrc), e.len, x, y, n);
    }
  }

  lemma {:induction false} MineFirst(e: Enc)
    ensures Mine(e, 0) == e.x1 && Other(e, 0) == e.x2
  {
  }

  // ---------- the decoder ----------

  /** After `op` symbols, the reference decoder would go on to the result `goal`. */
  ghost predicate Goes(goal: Option<seq<nat>>, dt: DTable, stream: nat, left: int, mine: nat, other: nat, op: nat, n: nat) {
    && op <= n
    && match goal
       case Some(out) => op <= |out| && Run(dt, stream, left, mine, other, n - op) == Some(out[op..])
       case None => Run(dt, stream, left, mine, other, n - op) == None
  }

  ghost predicate Going(goal: Option<seq<nat>>, d: DStream, mine: DState, other: DState, op: nat, n: nat)
    reads d, mine, other
  {
    Goes(goal, mine.dt, LE(d.src), d.Left(), mine.state, other.state, op, n)
  }

  /** The first `op` symbols are stored. */
  ghost predicate Output(goal: Option<seq<nat>>, dst: seq<nat>, op: nat) {
    goal.Some? ==> op <= |goal.value| && op <= |dst| && dst[..op] == goal.value[..op]
  }

  lemma {:induction false} GoesOn(goal: Option<seq<nat>>, dt: DTable, stream: nat, left: int, mine: nat, other: nat, op: nat, n: nat, next: nat)
    requires Goes(goal, dt, stream, left, mine, other, op, n) && op < n && mine < |dt.cells| && other < |dt.cells|
    requires var c := dt.cells[mine]; left >= c.nbBits && next == c.newState + Slice(stream, left - c.nbBits, c.nbBits)
    ensures Goes(goal, dt, stream, left - dt.cells[mine].nbBits, other, next, op + 1, n)
    ensures goal.Some? ==> op < |goal.value| && goal.value[op] == dt.cells[mine].symbol
  {
    hide Slice;
    var c := dt.cells[mine];
    if goal.Some? {
      var rest := Run(dt, stream, left - c.nbBits, other, next, n - op - 1);
      assert [c.symbol] + rest.value == goal.value[op..];
      assert rest.value == goal.value[op..][1..] == goal.value[op + 1..];
    }
  }

  lemma {:induction false} GoesEnd(goal: Option<seq<nat>>, dt: DTable, stream: nat, left: int, mine: nat, other: nat, op: nat, n: nat)
    requires Goes(goal, dt, stream, left, mine, other, op, n) && op + 2 <= n && mine < |dt.cells| && other < |dt.cells|
    requires left < dt.cells[mine].nbBits
    ensures goal.Some? && |goal.value| == op + 2
    ensures goal.value[op] == dt.cells[mine].symbol && goal.value[op + 1] == dt.cells[other].symbol
  {
    hide Slice;
    assert goal.Some? ==> goal.value[op..] == [dt.cells[mine].symbol, dt.cells[other].symbol];
  }

  lemma {:induction false} StatesInTable(s: DState, t: seq<nat>, norm: seq<int>)
    requires s.Valid() && DecoderFor(s.dt, t, norm, s.dt.tableLog)
    ensures s.state < |s.dt.cells| && s.dt.cells[s.state].nbBits <= MAX_TABLELOG
  {
    assert CellFor(s.dt.cells[s.state], t, norm, s.dt.tableLog, s.state);
  }

  /** One symbol. The step is that of the reference decoder, unless the bits did not suffice; then it has ended here. */
  method DecodeNext(d: DStream, mine: DState, other: DState, fast: bool, ghost t: seq<nat>, ghost norm: seq<int>,
                    ghost goal: Option<seq<nat>>, ghost op: nat, ghost n: nat) returns (symbol: nat)
    requires d.Valid() && mine.Valid() && other.Valid() && mine != other && mine.dt == other.dt
    requires DecoderFor(mine.dt, t, norm, mine.dt.tableLog) && (fast ==> mine.dt.fastMode)
    requires Going(goal, d, mine, other, op, n) && op < n && (d.Filled() || d.bitsConsumed + MAX_TABLELOG <= WORD)
    modifies mine`state, d`bitsConsumed
    ensures d.Valid() && mine.Valid() && d.bitsConsumed <= old(d.bitsConsumed) + MAX_TABLELOG
    ensures d.bitsConsumed <= WORD ==> Going(goal, d, other, mine, op + 1, n)
    ensures d.bitsConsumed <= WORD && goal.Some? ==> op < |goal.value| && symbol == goal.value[op]
    ensures d.bitsConsumed > WORD && op + 2 <= n ==>
              && goal.Some? && |goal.value| == op + 2 && symbol == goal.value[op]
              && other.state < |other.dt.cells| && goal.value[op + 1] == other.dt.cells[other.state].symbol
  {
    hide DecoderFor, Goes, Slice, LE, DStream.Valid, DState.Valid;
    StatesInTable(mine, t, norm);
    StatesInTable(other, t, norm);
    ghost var x, left := mine.state, d.Left();
    symbol := mine.DecodeSymbol(d, fast, t, norm);
    if d.bitsConsumed <= WORD {
      GoesOn(goal, mine.dt, LE(d.src), left, x, other.state, op, n, mine.state);
    } else if op + 2 <= n {
      GoesEnd(goal, mine.dt, LE(d.src), left, x, other.state, op, n);
    }
  }

  /**
    Half a round of the tail: one symbol from one state, and when that over-reads the stream, one from the
    other state.
   */
  method TailHalf(d: DStream, mine: DState, other: DState, fast: bool, dst: array<nat>, op0: nat, ghost t: seq<nat>, ghost norm: seq<int>,
                  ghost goal: Option<seq<nat>>) returns (op: nat, done: bool)
    requires d.Valid() && mine.Valid() && other.Valid() && mine != other && mine.dt == other.dt
    requires DecoderFor(mine.dt, t, norm, mine.dt.tableLog) && (fast ==> mine.dt.fastMode)
    requires op0 + 2 <= dst.Length && d.Filled()
    requires Going(goal, d, mine, other, op0, dst.Length) && Output(goal, dst[..], op0)
    modifies mine, other, d, dst
    ensures d.Valid() && mine.Valid() && other.Valid()
    ensures op == if done then op0 + 2 else op0 + 1
    ensures !done ==> d.Filled() && Going(goal, d, other, mine, op, dst.Length) && Output(goal, dst[..], op)
    ensures done ==> goal.Some? && dst[..op] == goal.value
  {
    hide DecoderFor, Goes, LE, DStream.Valid, DState.Valid, DStream.Filled;
    ghost var left := d.Left();
    var symbol := DecodeNext(d, mine, other, fast, t, norm, goal, op0, dst.Length);
    dst[op0] := symbol;
    op := op0 + 1;
    done := false;
    var status := d.Reload();
    if status == Overflow {
      symbol := other.DecodeSymbol(d, fast, t, norm);
      dst[op] := symbol;
      op := op + 1;
      done := true;
      assert dst[..op] == goal.value;
    }
  }

  /** The main loop: four symbols per reload. */
  method DecodeQuads(d: DStream, s1: DState, s2: DState, fast: bool, dst: array<nat>, ghost t: seq<nat>, ghost norm: seq<int>,
                     ghost goal: Option<seq<nat>>) returns (op: nat)
    requires d.Valid() && s1.Valid() && s2.Valid() && s1 != s2 && s1.dt == s2.dt
    requires DecoderFor(s1.dt, t, norm, s1.dt.tableLog) && (fast ==> s1.dt.fastMode)
    requires d.Filled() && Going(goal, d, s1, s2, 0, dst.Length)
    modifies s1, s2, d, dst
    ensures d.Valid() && s1.Valid() && s2.Valid() && d.Filled()
    ensures op <= dst.Length && Going(goal, d, s1, s2, op, dst.Length) && Output(goal, dst[..], op)
  {
    hide DecoderFor, Goes, LE, DStream.Valid, DState.Valid;
    op := 0;
    var status := d.Reload();
    while status == Unfinished && op + 3 < dst.Length
      invariant d.Valid() && s1.Valid() && s2.Valid() && d.Filled()
      invariant op <= dst.Length && Going(goal, d, s1, s2, op, dst.Length) && Output(goal, dst[..], op)
      invariant status == Unfinished ==> d.bitsConsumed < 8
      decreases dst.Length - op
    {
      QuadRound(d, s1, s2, fast, dst, op, t, norm, goal);
      op := op + 4;
      status := d.Reload();
    }
  }

  /** Four symbols from a register holding at least 57 bits. */
  method QuadRound(d: DStream, s1: DState, s2: DState, fast: bool, dst: array<nat>, op: nat, ghost t: seq<nat>, ghost norm: seq<int>,
                   ghost goal: Option<seq<nat>>)
    requires d.Valid() && s1.Valid() && s2.Valid() && s1 != s2 && s1.dt == s2.dt
    requires DecoderFor(s1.dt, t, norm, s1.dt.tableLog) && (fast ==> s1.dt.fastMode)
    requires op + 4 <= dst.Length && Going(goal, d, s1, s2, op, dst.Length) && Output(goal, dst[..], op) && d.bitsConsumed < 8
    modifies s1`state, s2`state, d`bitsConsumed, dst
    ensures d.Valid() && s1.Valid() && s2.Valid() && d.bitsConsumed <= WORD
    ensures Going(goal, d, s1, s2, op + 4, dst.Length) && Output(goal, dst[..], op + 4)
  {
    hide DecoderFor, Goes, LE, DStream.Valid, DState.Valid, DStream.Filled;
    var n := dst.Length;
    var a := DecodeNext(d, s1, s2, fast, t, norm, goal, op, n);
    var b := DecodeNext(d, s2, s1, fast, t, norm, goal, op + 1, n);
    var c := DecodeNext(d, s1, s2, fast, t, norm, goal, op + 2, n);
    var e := DecodeNext(d, s2, s1, fast, t, norm, goal, op + 3, n);
    dst[op], dst[op + 1], dst[op + 2], dst[op + 3] := a, b, c, e;
  }

  /** The tail: one symbol per reload, until the stream is over-read. */
  method DecodeTail(d: DStream, s1: DState, s2: DState, fast: bool, dst: array<nat>, op0: nat, ghost t: seq<nat>, ghost norm: seq<int>,
                    ghost goal: Option<seq<nat>>) returns (r: Result<nat>)
    requires d.Valid() && s1.Valid() && s2.Valid() && s1 != s2 && s1.dt == s2.dt
    requires DecoderFor(s1.dt, t, norm, s1.dt.tableLog) && (fast ==> s1.dt.fastMode)
    requires op0 <= dst.Length && d.Filled() && Going(goal, d, s1, s2, op0, dst.Length) && Output(goal, dst[..], op0)
    modifies s1, s2, d, dst
    ensures r == match goal case Some(out) => Ok(|out|) case None => Err(DstSizeTooSmall)
    ensures goal.Some? ==> |goal.value| <= dst.Length && dst[..|goal.value|] == goal.value
  {
    hide DecoderFor, Goes, DStream.Valid, DState.Valid, DStream.Filled, LE;
    var op := op0;
    while true
      invariant d.Valid() && s1.Valid() && s2.Valid() && d.Filled()
      invariant op <= dst.Length && Going(goal, d, s1, s2, op, dst.Length) && Output(goal, dst[..], op)
      decreases dst.Length - op
    {
      NoRoom(goal, s1.dt, LE(d.src), d.Left(), s1.state, s2.state, op, dst.Length);
      if op + 2 > dst.Length { return Err(DstSizeTooSmall); }
      var done: bool;
      op, done := TailHalf(d, s1, s2, fast, dst, op, t, norm, goal);
      if done { return Ok(op); }
      NoRoom(goal, s1.dt, LE(d.src), d.Left(), s2.state, s1.state, op, dst.Length);
      if op + 2 > dst.Length { return Err(DstSizeTooSmall); }
      op, done := TailHalf(d, s2, s1, fast, dst, op, t, norm, goal);
      if done { return Ok(op); }
    }
  }

  lemma {:induction false} NoRoom(goal: Option<seq<nat>>, dt: DTable, stream: nat, left: int, mine: nat, other: nat, op: nat, n: nat)
    requires Goes(goal, dt, stream, left, mine, other, op, n)
    ensures op + 2 > n ==> goal == None
  {
  }

  /** Nothing but zeros is read from before the start of a short stream. */
  lemma {:induction false} NothingThere(d: DStream, n: nat)
    requires d.Valid() && d.ptr == 0 && |d.src| <= 4 && -32 <= d.Left() - n < 0
    ensures d.LookBits(n) == 0
  {
    hide LE, Low, Shr, Pow2, Trunc64, ShiftCount;
    LEBound(d.src);
    Pow2Mono(Times8(|d.src|), 32);
    TruncSmall(LE(d.src), 32);
    ShiftNone(LE(d.src));
    WrappedShift(d.Left() - n);
    var k := ShiftCount(d.Left() - n);
    Pow2Mono(32, k);
    LowSmall(LE(d.src), k);
    Pow2Mono(0, n);
    OneOnly(n);
    LowSmall(0, n);
  }

  lemma {:induction false} WrappedShift(x: int)
    requires -32 <= x < 0
    ensures ShiftCount(x) == 64 + x
  {
  }

  lemma {:induction false} OneOnly(n: nat)
    ensures Pow2(n) > 0
  {
  }

  /** Both states as FSE_initDState reads them. */
  method OpenStates(d: DStream, dt: DTable) returns (s1: DState, s2: DState)
    requires d.Valid() && d.Filled() && d.bitsConsumed <= WORD && dt.tableLog <= MAX_TABLELOG
    requires InitError(d.src) == None && d.Left() == BitLength(d.src)
    modifies d
    ensures d.Valid() && d.Filled() && fresh(s1) && fresh(s2) && s1 != s2 && s1.dt == s2.dt == dt && s1.Valid() && s2.Valid()
    ensures d.Left() == BitLength(d.src) - dt.tableLog - dt.tableLog
    ensures s1.state == StateBelow(LE(d.src), BitLength(d.src) - dt.tableLog, dt.tableLog)
    ensures s2.state == StateBelow(LE(d.src), BitLength(d.src) - dt.tableLog - dt.tableLog, dt.tableLog)
  {
    hide Slice, LE, Pow2, DStream.Valid, DState.Valid, DStream.LookBits, ShiftCount;
    ghost var k, L := d.Left(), dt.tableLog;
    ShortStream(d.src);
    if k < L { NothingThere(d, L); }
    s1 := new DState(dt, d);
    if k < L + L { NothingThere(d, L); }
    s2 := new DState(dt, d);
  }

  lemma {:induction false} ShortStream(c: seq<byte>)
    requires InitError(c) == None
    ensures BitLength(c) < MAX_TABLELOG + MAX_TABLELOG ==> |c| <= 4
  {
  }

  /**
    FSE_decompress_usingDTable: for any bytes, exactly what the reference decoder makes of them. On the stream of a
    block that is the block, exactly when no symbol owns the whole table and `dst` is large enough (`BlockRuns`).
   */
  method DecompressUsingDTable(dst: array<nat>, cSrc: seq<byte>, dt: DTable, ghost t: seq<nat>, ghost norm: seq<int>) returns (r: Result<nat>)
    requires DecoderFor(dt, t, norm, dt.tableLog)
    modifies dst
    ensures match InitError(cSrc)
            case Some(e) => r == Err(e)
            case None => Decoded(StreamRun(dt, cSrc, dst.Length), r, dst[..])
  {
    hide DecoderFor, DStream.Valid, DState.Valid, LE, StateBelow, StreamRun, Goes;
    if |cSrc| < 1 { return Err(SrcSizeWrong); }
    if cSrc[|cSrc| - 1] == 0 { return Err(if |cSrc| >= 8 then Generic else CorruptionDetected); }
    LogBound(dt, t, norm);
    var d := new DStream(cSrc);
    var s1, s2 := OpenStates(d, dt);
    ghost var goal := StreamRun(dt, cSrc, dst.Length);
    FirstGoes(dt, cSrc, dst.Length);
    var op := DecodeQuads(d, s1, s2, dt.fastMode, dst, t, norm, goal);
    r := DecodeTail(d, s1, s2, dt.fastMode, dst, op, t, norm, goal);
  }

  lemma {:induction false} LogBound(dt: DTable, t: seq<nat>, norm: seq<int>)
    requires DecoderFor(dt, t, norm, dt.tableLog)
    ensures dt.tableLog <= MAX_TABLELOG
  {
  }

  lemma {:induction false} FirstGoes(dt: DTable, c: seq<byte>, n: nat)
    requires InitError(c) == None
    ensures var k, L := BitLength(c), dt.tableLog;
            Goes(StreamRun(dt, c, n), dt, LE(c), k - L - L, StateBelow(LE(c), k - L, L), StateBelow(LE(c), k - L - L, L), 0, n)
  {
    hide Run, LE, StateBelow;
    var goal := StreamRun(dt, c, n);
    assert goal.Some? ==> goal.value[0..] == goal.value;
  }

  /** The result and the output for what the reference decoder finds. */
  ghost predicate Decoded(goal: Option<seq<nat>>, r: Result<nat>, out: seq<nat>) {
    match goal
    case Some(src) => r == Ok(|src|) && |src| <= |out| && out[..|src|] == src
    case None => r == Err(DstSizeTooSmall)
  }

  /**
    Whole-stream round trip. A block of at least 3 coded symbols, compressed with the table of `norm` into
    any buffer with room for its bits and decompressed with the decoding table of `norm`, comes back unchanged;
    the one exception is a table owned by a single symbol, which the decoder always rejects.
   */
  method RoundTrip(norm: seq<int>, tableLog: nat, src: seq<nat>, dstSize: nat, capacity: nat)
    returns (size: nat, r: Result<nat>, out: seq<nat>)
    requires NormOk(norm, tableLog) && tableLog <= BYTE_LIMITS.maxTableLog && |norm| - 1 <= BYTE_LIMITS.maxSymbolValue
    requires AllCoded(norm, src)
    ensures |src| <= 2 || dstSize <= 8 ==> size == 0
    ensures |src| > 2 && RoomFor(Times(tableLog, |src|), dstSize) ==> size != 0
    ensures size != 0 && NoWholeTable(norm, tableLog) && |src| <= capacity ==> r == Ok(|src|) && out == src
    ensures size != 0 && !(NoWholeTable(norm, tableLog) && |src| <= capacity) ==> r == Err(DstSizeTooSmall)
  {
    r, out := Err(Generic), [];
    var cResult, t := BuildCTable(norm, tableLog, Pow2(tableLog));
    var dResult, t' := BuildDTable(norm, tableLog, BYTE_LIMITS);
    SpreadUnique(t, t', norm, tableLog);
    var ct, dt := cResult.value, dResult.value;
    var buffer := new byte[dstSize + Times(tableLog, |src|) + 8];
    ReachBound(ct, t, norm, src, dstSize);
    if 2 <= |src| { BlockLength(ct, t, norm, src); }
    size := CompressUsingCTable(buffer, 0, dstSize, src, ct, t, norm);
    if size == 0 { return; }
    var dst := new nat[capacity];
    BlockRuns(History(true, ct, src, t, norm), buffer[..size], dt, capacity);
    r := DecompressUsingDTable(dst, buffer[..size], dt, t, norm);
    if r.Ok? { out := dst[..r.value]; }
  }
}
