/**
  FSE block coding: two interleaved states over one backward bit stream, and the whole-stream round trip.
 */
module FseStream {
  import opened Bits
  import opened BitStream
  import opened FseWalk
  import opened FseSpread
  import opened FseTable

  // ---------- one state ----------

  /** Every symbol of the source has a non-zero counter. */
  ghost predicate AllCoded(norm: seq<int>, src: seq<nat>) {
    forall i | 0 <= i < |src| :: Coded(norm, src[i])
  }

  /** FSE_CState_t. */
  class CState {
    var value: nat
    const ct: CTable

    /** FSE_initCState. */
    constructor (table: CTable)
      ensures ct == table && value == Pow2(table.tableLog)
    {
      ct := table;
      value := Pow2(table.tableLog);
    }

    /** FSE_initCState2: takes the first symbol for free. */
    constructor FromSymbol(table: CTable, symbol: nat)
      requires symbol < |table.symbolTT| && 0 <= InitialIndex(table, symbol) < |table.stateTable|
      ensures ct == table && value == table.stateTable[InitialIndex(table, symbol)]
    {
      ct := table;
      value := table.stateTable[InitialIndex(table, symbol)];
    }

    /** FSE_encodeSymbol. */
    method EncodeSymbol(bitC: CStream, symbol: nat)
      requires bitC.Sound()
      requires symbol < |ct.symbolTT| && 0 <= StateIndex(ct, value, symbol) < |ct.stateTable|
      requires NbBitsOut(ct, value, symbol) <= MAX_TABLELOG && bitC.bitPos + MAX_TABLELOG < WORD
      modifies this`value, bitC`bitContainer, bitC`bitPos, bitC`val, bitC`len
      ensures bitC.Sound()
      ensures bitC.bitPos <= old(bitC.bitPos) + MAX_TABLELOG
      ensures var nb := NbBitsOut(ct, old(value), symbol);
              bitC.val == old(bitC.val) + Shl(Low(old(value), nb), old(bitC.len)) && bitC.len == old(bitC.len) + nb
      ensures value == ct.stateTable[StateIndex(ct, old(value), symbol)]
    {
      var nbBitsOut := NbBitsOut(ct, value, symbol);
      bitC.AddBits(value, nbBitsOut);
      value := ct.stateTable[StateIndex(ct, value, symbol)];
    }

    /** FSE_flushCState. */
    method Flush(bitC: CStream)
      requires bitC.Sound() && ct.tableLog <= MAX_TABLELOG && bitC.bitPos + MAX_TABLELOG < WORD
      requires bitC.ptr + 8 <= bitC.buf.Length
      modifies bitC, bitC.buf
      ensures bitC.Valid() && bitC.bitPos < 8
      ensures bitC.FramedTo(if old(bitC.ptr) > bitC.endPtr then old(bitC.ptr) + 8 else bitC.endPtr + 8)
      ensures old(bitC.ptr) <= bitC.endPtr ==> bitC.Framed()
      ensures old(bitC.bitPos) < 8 ==> bitC.buf[old(bitC.ptr) + 7] == 0
      ensures bitC.val == old(bitC.val) + Shl(Low(value, ct.tableLog), old(bitC.len))
      ensures bitC.len == old(bitC.len) + ct.tableLog
    {
      hide CStream.Sound, Shl, Low, Pow2;
      bitC.AddBits(value, ct.tableLog);
      bitC.FlushBits();
    }
  }

  /** FSE_DState_t. */
  class DState {
    var state: nat
    const dt: DTable

    ghost predicate Valid()
      reads this
    {
      state < Pow2(dt.tableLog)
    }

    /** FSE_initDState. */
    constructor (table: DTable, bitD: DStream)
      requires bitD.Valid()
      modifies bitD
      ensures dt == table && Valid() && bitD.Valid()
      ensures bitD.Left() == old(bitD.Left()) - table.tableLog
      ensures state == old(bitD.LookBits(table.tableLog)) && bitD.ptr <= old(bitD.ptr)
      ensures old(bitD.bitsConsumed) + table.tableLog <= WORD ==>
                bitD.Filled() && bitD.bitsConsumed <= WORD
                && bitD.Left() >= 0 && state == Slice(LE(bitD.src), bitD.Left(), table.tableLog)
    {
      dt := table;
      new;
      state := bitD.ReadBits(table.tableLog);
      var status := bitD.Reload();
    }

    /** FSE_decodeSymbol, or FSE_decodeSymbolFast when `fast`. */
    method DecodeSymbol(bitD: DStream, fast: bool, ghost t: seq<nat>, ghost norm: seq<int>) returns (symbol: nat)
      requires Valid() && bitD.Valid()
      requires DecoderFor(dt, t, norm, dt.tableLog)
      requires fast ==> dt.fastMode
      modifies this`state, bitD`bitsConsumed
      ensures Valid() && bitD.Valid()
      ensures old(state) < |dt.cells|
      ensures var c := dt.cells[old(state)];
              symbol == c.symbol && bitD.bitsConsumed == old(bitD.bitsConsumed) + c.nbBits
              && (!fast ==> state == c.newState + old(bitD.LookBits(dt.cells[state].nbBits)))
              && (bitD.bitsConsumed <= WORD ==>
                    bitD.Left() >= 0 && state == c.newState + Slice(LE(bitD.src), bitD.Left(), c.nbBits))
    {
      hide NormOk, IsSpread;
      var c := dt.cells[state];
      var lowBits: nat;
      assert CellFor(c, t, norm, dt.tableLog, state);
      if fast {
        lowBits := bitD.ReadBitsFast(c.nbBits);
      } else {
        lowBits := bitD.ReadBits(c.nbBits);
      }
      DecodeStaysInTable(dt, t, norm, dt.tableLog, state, lowBits);
      state := c.newState + lowBits;
      symbol := c.symbol;
    }
  }

  // ---------- what a block encodes to ----------

  /** The bits pushed and the two states after coding some suffix of the source. */
  datatype Enc = Enc(val: nat, len: nat, x1: nat, x2: nat)

  function Lookup(s: seq<nat>, i: int): nat {
    if 0 <= i < |s| then s[i] else 0
  }

  ghost function StartState(ct: CTable, s: nat): nat {
    if s < |ct.symbolTT| then Lookup(ct.stateTable, InitialIndex(ct, s)) else 0
  }

  ghost function BitsPushed(ct: CTable, x: nat, s: nat): nat {
    if s < |ct.symbolTT| then NbBitsOut(ct, x, s) else 0
  }

  ghost function NextX(ct: CTable, x: nat, s: nat): nat {
    if s < |ct.symbolTT| then Lookup(ct.stateTable, StateIndex(ct, x, s)) else 0
  }

  /** The state that codes position `i`, and the other one. */
  ghost function Mine(e: Enc, i: nat): nat {
    if Odd(i) == 0 then e.x1 else e.x2
  }

  ghost function Other(e: Enc, i: nat): nat {
    if Odd(i) == 0 then e.x2 else e.x1
  }

  /** Coding `s` at position `i`: even positions use state 1, odd positions state 2. */
  ghost function EncStep(ct: CTable, e: Enc, i: nat, s: nat): Enc {
    var x := Mine(e, i);
    var nb := BitsPushed(ct, x, s);
    var v, x' := e.val + Shl(Low(x, nb), e.len), NextX(ct, x, s);
    if Odd(i) == 0 then Enc(v, e.len + nb, x', e.x2) else Enc(v, e.len + nb, e.x1, x')
  }

  /** Coding `src[i..]` backwards. */
  ghost function Suffix(ct: CTable, src: seq<nat>, i: nat): Enc
    requires i + 2 <= |src|
    decreases |src| - i
  {
    var n := |src|;
    if i == n - 2 then
      var a, b := StartState(ct, src[n - 2]), StartState(ct, src[n - 1]);
      if Odd(n) == 0 then Enc(0, 0, a, b) else Enc(0, 0, b, a)
    else
      EncStep(ct, Suffix(ct, src, i + 1), i, src[i])
  }

  /** Flushing state 2, then state 1. */
  ghost function Flushed(e: Enc, L: nat): (nat, nat) {
    (e.val + Shl(Low(e.x2, L), e.len) + Shl(Low(e.x1, L), e.len + L), e.len + L + L)
  }

  /** The bits of the whole block. */
  ghost function Block(ct: CTable, src: seq<nat>): (nat, nat)
    requires 2 <= |src|
  {
    Flushed(Suffix(ct, src, 0), ct.tableLog)
  }

  lemma {:induction false} EncodeInRange(ct: CTable, t: seq<nat>, norm: seq<int>, L: nat, x: nat, s: nat)
    requires EncoderFor(ct, t, norm, L) && Coded(norm, s) && InRange(x, L)
    ensures s < |ct.symbolTT| == |norm|
    ensures NbBitsOut(ct, x, s) <= L
    ensures 0 <= StateIndex(ct, x, s) < |ct.stateTable|
    ensures InRange(ct.stateTable[StateIndex(ct, x, s)], L)
  {
    var u := StepTarget(ct, t, norm, L, x, s);
  }

  lemma {:induction false} StartInRange(ct: CTable, t: seq<nat>, norm: seq<int>, L: nat, s: nat)
    requires EncoderFor(ct, t, norm, L) && Coded(norm, s)
    ensures s < |ct.symbolTT| && 0 <= InitialIndex(ct, s) < |ct.stateTable|
    ensures InRange(ct.stateTable[InitialIndex(ct, s)], L)
  {
    var u := StartTarget(ct, t, norm, L, s);
  }

  /** Both states are in range and the value fits its length. */
  ghost predicate EncOk(e: Enc, L: nat) {
    InRange(e.x1, L) && InRange(e.x2, L) && e.val < Pow2(e.len)
  }

  lemma {:induction false} EncStepOk(ct: CTable, t: seq<nat>, norm: seq<int>, L: nat, e: Enc, i: nat, s: nat)
    requires EncoderFor(ct, t, norm, L) && Coded(norm, s) && EncOk(e, L)
    ensures EncOk(EncStep(ct, e, i, s), L)
  {
    hide EncoderFor, InRange, NbBitsOut, StateIndex, Shl, Low, Odd, Pow2;
    var x := Mine(e, i);
    EncodeInRange(ct, t, norm, L, x, s);
    var nb := NbBitsOut(ct, x, s);
    Split(x, nb);
    PushFits(e.val, e.len, Low(x, nb), nb);
  }

  lemma {:induction false} SuffixOk(ct: CTable, t: seq<nat>, norm: seq<int>, L: nat, src: seq<nat>, i: nat)
    requires EncoderFor(ct, t, norm, L) && AllCoded(norm, src) && i + 2 <= |src|
    ensures EncOk(Suffix(ct, src, i), L)
    decreases |src| - i
  {
    if i == |src| - 2 {
      assert Pow2(0) == 1;
      StartInRange(ct, t, norm, L, src[|src| - 1]);
      StartInRange(ct, t, norm, L, src[|src| - 2]);
    } else {
      SuffixOk(ct, t, norm, L, src, i + 1);
      EncStepOk(ct, t, norm, L, Suffix(ct, src, i + 1), i, src[i]);
      hide EncStep, EncOk, EncoderFor;
    }
  }

  /** No symbol takes more than `L` bits. */
  lemma {:induction false} SuffixLength(ct: CTable, t: seq<nat>, norm: seq<int>, L: nat, src: seq<nat>, i: nat)
    requires EncoderFor(ct, t, norm, L) && AllCoded(norm, src) && i + 2 <= |src|
    ensures Suffix(ct, src, i).len <= Times(L, |src| - 2 - i)
    decreases |src| - i
  {
    hide EncStep, EncOk, EncoderFor, Pow2;
    if i < |src| - 2 {
      SuffixOk(ct, t, norm, L, src, i + 1);
      SuffixLength(ct, t, norm, L, src, i + 1);
      StepLength(ct, t, norm, L, Suffix(ct, src, i + 1), i, src[i]);
    }
  }

  lemma {:induction false} StepLength(ct: CTable, t: seq<nat>, norm: seq<int>, L: nat, e: Enc, i: nat, s: nat)
    requires EncoderFor(ct, t, norm, L) && Coded(norm, s) && EncOk(e, L)
    ensures e.len <= EncStep(ct, e, i, s).len <= e.len + L
  {
    hide EncoderFor, InRange, NbBitsOut, StateIndex, Shl, Low, Odd, Pow2;
    EncodeInRange(ct, t, norm, L, Mine(e, i), s);
  }

  /** A block takes at most the table log for each of its symbols. */
  lemma {:induction false} BlockLength(ct: CTable, t: seq<nat>, norm: seq<int>, src: seq<nat>)
    requires EncoderFor(ct, t, norm, ct.tableLog) && AllCoded(norm, src) && 2 <= |src|
    ensures Block(ct, src).1 <= Times(ct.tableLog, |src|)
  {
    hide Suffix, EncoderFor, Shl, Low;
    var L := ct.tableLog;
    SuffixLength(ct, t, norm, L, src, 0);
    TimesSum(L, |src| - 2, 2);
    assert Times(L, 1) == L;
  }

  // ---------- the table determines the block ----------

  /** Two places of one symbol that are equally far along its cells are the same. */
  lemma {:induction false} SamePlace(t: seq<nat>, u: nat, v: nat)
    requires u < |t| && v < |t| && t[u] == t[v] && Occ(t, u, t[u]) == Occ(t, v, t[v])
    ensures u == v
  {
    if u < v { OccMono(t, u + 1, v, t[u]); }
    if v < u { OccMono(t, v + 1, u, t[u]); }
  }

  /** At most one shift brings a state into the range of its symbol. */
  lemma {:induction false} SameShift(x: nat, f: nat, n: nat, m: nat)
    requires f <= Shr(x, n) < f + f && f <= Shr(x, m) < f + f
    ensures n == m
  {
    hide Shr, Half;
    if n < m { ShrShr(x, n, m - n); ShrHalves(Shr(x, n), m - n); }
    if m < n { ShrShr(x, m, n - m); ShrHalves(Shr(x, m), n - m); }
  }

  lemma {:induction false} ShrHalves(x: nat, n: nat)
    requires n > 0
    ensures Shr(x, n) + Shr(x, n) <= x
  {
    if n > 1 { ShrHalves(Half(x), n - 1); }
  }

  lemma {:induction false} SameStep(a: CTable, b: CTable, t: seq<nat>, norm: seq<int>, L: nat, x: nat, s: nat)
    requires EncoderFor(a, t, norm, L) && EncoderFor(b, t, norm, L) && Coded(norm, s) && InRange(x, L)
    ensures BitsPushed(a, x, s) == BitsPushed(b, x, s) && NextX(a, x, s) == NextX(b, x, s)
  {
    hide EncoderFor, InRange, NbBitsOut, StateIndex, Occ, Shr, Pow2;
    var u := StepTarget(a, t, norm, L, x, s);
    var v := StepTarget(b, t, norm, L, x, s);
    SymbolAt(a, t, norm, L, s);
    SymbolAt(b, t, norm, L, s);
    CellRank(t, norm, L, u);
    CellRank(t, norm, L, v);
    SameShift(x, Freq(norm[s]), NbBitsOut(a, x, s), NbBitsOut(b, x, s));
    SamePlace(t, u, v);
  }

  lemma {:induction false} SameStart(a: CTable, b: CTable, t: seq<nat>, norm: seq<int>, L: nat, s: nat)
    requires EncoderFor(a, t, norm, L) && EncoderFor(b, t, norm, L) && Coded(norm, s)
    ensures StartState(a, s) == StartState(b, s)
  {
    hide EncoderFor, InitialIndex, Occ, Pow2;
    var u := StartTarget(a, t, norm, L, s);
    var v := StartTarget(b, t, norm, L, s);
    SamePlace(t, u, v);
  }

  lemma {:induction false} SameSuffix(a: CTable, b: CTable, t: seq<nat>, norm: seq<int>, L: nat, src: seq<nat>, i: nat)
    requires EncoderFor(a, t, norm, L) && EncoderFor(b, t, norm, L) && AllCoded(norm, src) && i + 2 <= |src|
    ensures Suffix(a, src, i) == Suffix(b, src, i)
    decreases |src| - i
  {
    hide EncoderFor, InRange, StartState, BitsPushed, NextX;
    if i == |src| - 2 {
      SameStart(a, b, t, norm, L, src[|src| - 1]);
      SameStart(a, b, t, norm, L, src[|src| - 2]);
    } else {
      SameSuffix(a, b, t, norm, L, src, i + 1);
      SuffixOk(a, t, norm, L, src, i + 1);
      SameStep(a, b, t, norm, L, Mine(Suffix(a, src, i + 1), i), src[i]);
    }
  }

  /** All encoding tables for the same counters give the same block. */
  lemma {:induction false} SameBlock(a: CTable, b: CTable, t: seq<nat>, norm: seq<int>, L: nat, src: seq<nat>)
    requires EncoderFor(a, t, norm, L) && EncoderFor(b, t, norm, L) && AllCoded(norm, src) && 2 <= |src|
    ensures Block(a, src) == Block(b, src)
  {
    hide Suffix, Flushed;
    SameSuffix(a, b, t, norm, L, src, 0);
  }

  // ---------- FSE_compress_usingCTable_generic ----------

  /** Codes `symbol` with the state `c` after the history `e`. */
  method EncodeOne(bitC: CStream, c: CState, symbol: nat, ghost e: Enc, ghost i: nat, ghost t: seq<nat>, ghost norm: seq<int>)
    requires bitC.Sound()
    requires EncoderFor(c.ct, t, norm, c.ct.tableLog) && Coded(norm, symbol) && InRange(Mine(e, i), c.ct.tableLog)
    requires bitC.val == e.val && bitC.len == e.len && c.value == Mine(e, i)
    requires bitC.bitPos + MAX_TABLELOG < WORD
    modifies c`value, bitC`bitContainer, bitC`bitPos, bitC`val, bitC`len
    ensures bitC.Sound() && bitC.bitPos <= old(bitC.bitPos) + MAX_TABLELOG
    ensures var e' := EncStep(c.ct, e, i, symbol);
            bitC.val == e'.val && bitC.len == e'.len && c.value == Mine(e', i) && Other(e', i) == Other(e, i)
  {
    assert c.ct.tableLog <= MAX_TABLELOG;
    EncodeInRange(c.ct, t, norm, c.ct.tableLog, c.value, symbol);
    hide EncoderFor, Shl, Low, StateIndex, NbBitsOut, InRange, Coded, Odd, CStream.Sound;
    c.EncodeSymbol(bitC, symbol);
  }

  /** Codes the symbol at `i` with the state `c`. */
  method EncodePrev(bitC: CStream, c: CState, src: seq<nat>, i: nat, ghost t: seq<nat>, ghost norm: seq<int>)
    requires bitC.Sound()
    requires EncoderFor(c.ct, t, norm, c.ct.tableLog) && AllCoded(norm, src)
    requires i + 3 <= |src|
    requires var e := Suffix(c.ct, src, i + 1);
             bitC.val == e.val && bitC.len == e.len && c.value == Mine(e, i)
    requires bitC.bitPos + MAX_TABLELOG < WORD
    modifies c`value, bitC`bitContainer, bitC`bitPos, bitC`val, bitC`len
    ensures bitC.Sound() && bitC.bitPos <= old(bitC.bitPos) + MAX_TABLELOG
    ensures var e := Suffix(c.ct, src, i);
            bitC.val == e.val && bitC.len == e.len && c.value == Mine(e, i)
            && Other(e, i) == Other(Suffix(c.ct, src, i + 1), i)
  {
    assert Suffix(c.ct, src, i) == EncStep(c.ct, Suffix(c.ct, src, i + 1), i, src[i]);
    hide EncoderFor, Suffix, EncStep, Other, Odd, Coded, CStream.Sound;
    SuffixOk(c.ct, t, norm, c.ct.tableLog, src, i + 1);
    EncodeOne(bitC, c, src[i], Suffix(c.ct, src, i + 1), i, t, norm);
  }

  ghost predicate At(bitC: CStream, c1: CState, c2: CState, src: seq<nat>, ip: nat)
    requires ip + 2 <= |src|
    reads bitC, c1, c2
  {
    var e := Suffix(c1.ct, src, ip);
    bitC.val == e.val && bitC.len == e.len && c1.value == e.x1 && c2.value == e.x2
  }

  /** Codes positions ip-1 (state 2) and ip-2 (state 1), where ip is twice `half`. */
  method EncodePair(bitC: CStream, c1: CState, c2: CState, src: seq<nat>, ip: nat, ghost half: nat,
                    ghost t: seq<nat>, ghost norm: seq<int>)
    requires bitC.Sound() && c1 != c2 && c1.ct == c2.ct
    requires EncoderFor(c1.ct, t, norm, c1.ct.tableLog) && AllCoded(norm, src)
    requires ip == half + half && 2 <= ip && ip + 2 <= |src|
    requires At(bitC, c1, c2, src, ip)
    requires bitC.bitPos + MAX_TABLELOG + MAX_TABLELOG < WORD
    modifies c1`value, c2`value, bitC`bitContainer, bitC`bitPos, bitC`val, bitC`len
    ensures bitC.Sound() && bitC.bitPos <= old(bitC.bitPos) + MAX_TABLELOG + MAX_TABLELOG
    ensures At(bitC, c1, c2, src, ip - 2)
  {
    hide EncoderFor, Suffix, AllCoded;
    EncodePrev(bitC, c2, src, ip - 1, t, norm);
    EncodePrev(bitC, c1, src, ip - 2, t, norm);
  }

  /** FSE_BLOCKBOUND: from this size of the destination on, the flushes are not checked. */
  function BlockBound(srcSize: nat): nat {
    srcSize + Shr(srcSize, 7) + 4 + 8
  }

  /** How far the unchecked flushes store: a word at the place of the bits before the two final states. */
  ghost function FastReach(ct: CTable, src: seq<nat>): (n: nat)
    requires 2 <= |src|
  {
    Shr(Suffix(ct, src, 0).len, 3) + 8
  }

  /** The bytes that may change: the destination, or what the flushes store into once they are not checked. */
  ghost function BlockReach(ct: CTable, src: seq<nat>, dstSize: nat): (n: nat)
    ensures n >= dstSize
  {
    if |src| > 2 && dstSize >= BlockBound(|src|) && FastReach(ct, src) > dstSize then FastReach(ct, src) else dstSize
  }

  /** If the stream has room, no flush has stored outside the destination. */
  lemma {:induction false} RoomIsInside(ct: CTable, src: seq<nat>, dstSize: nat)
    requires 2 <= |src| && RoomFor(Block(ct, src).1, dstSize)
    ensures BlockReach(ct, src, dstSize) == dstSize
  {
    hide Suffix, Shr, Shl, Low;
    BytesAndBits(Suffix(ct, src, 0).len);
  }

  /** Memory that is enough for the stores of any block. */
  lemma {:induction false} ReachBound(ct: CTable, t: seq<nat>, norm: seq<int>, src: seq<nat>, dstSize: nat)
    requires EncoderFor(ct, t, norm, ct.tableLog) && AllCoded(norm, src)
    ensures BlockReach(ct, src, dstSize) <= dstSize + Times(ct.tableLog, |src|) + 8
  {
    hide EncoderFor, AllCoded, Shr, Low, Shl, Times, Suffix;
    if 2 <= |src| {
      BlockLength(ct, t, norm, src);
      BytesAndBits(Suffix(ct, src, 0).len);
    }
  }

  /** With a table log of at most 8, no block is longer than the destinations that are not checked. */
  lemma {:induction false} SmallLogInside(ct: CTable, t: seq<nat>, norm: seq<int>, src: seq<nat>, dstSize: nat)
    requires EncoderFor(ct, t, norm, ct.tableLog) && AllCoded(norm, src) && ct.tableLog <= 8
    ensures BlockReach(ct, src, dstSize) == dstSize
  {
    hide EncoderFor, AllCoded, Shr, Low, Shl, Times, Suffix;
    if 2 <= |src| {
      SuffixLength(ct, t, norm, ct.tableLog, src, 0);
      EightTimes(ct.tableLog, |src| - 2);
      BytesAndBits(Suffix(ct, src, 0).len);
    }
  }

  lemma {:induction false} EightTimes(L: nat, n: nat)
    requires L <= 8
    ensures Times(L, n) <= Times8(n)
  {
    if n > 0 { EightTimes(L, n - 1); }
  }

  /** A symbol of one cell takes the whole table log. */
  lemma {:induction false} RareStep(ct: CTable, t: seq<nat>, norm: seq<int>, L: nat, x: nat, s: nat)
    requires EncoderFor(ct, t, norm, L) && s < |norm| && Freq(norm[s]) == 1 && InRange(x, L)
    ensures s < |ct.symbolTT| && NbBitsOut(ct, x, s) == L
  {
    hide EncoderFor, NbBitsOut, StateIndex, Shr, Low, Pow2, Shl, NextState, CTableFor;
    var u := StepTarget(ct, t, norm, L, x, s);
    EncoderParts(ct, t, norm, L);
    CellRank(t, norm, L, u);
    OnlyState(t, norm, u);
    var nb := NbBitsOut(ct, x, s);
    Split(x, nb);
    ShlOne(nb);
    if nb < L { Pow2Next(nb, L); }
  }

  lemma {:induction false} EncoderParts(ct: CTable, t: seq<nat>, norm: seq<int>, L: nat)
    requires EncoderFor(ct, t, norm, L)
    ensures NormOk(norm, L) && IsSpread(t, norm, L) && ct.tableLog == L
  {
  }

  lemma {:induction false} OnlyState(t: seq<nat>, norm: seq<int>, u: nat)
    requires u < |t| && t[u] < |norm| && Freq(norm[t[u]]) == 1 && Occ(t, u, t[u]) < 1
    ensures NextState(t, norm, u) == 1
  {
  }

  lemma {:induction false} Pow2Next(a: nat, b: nat)
    requires a < b
    ensures Pow2(a) + Pow2(a) <= Pow2(b)
  {
    Pow2Mono(a + 1, b);
  }

  lemma {:induction false} RareLength(ct: CTable, t: seq<nat>, norm: seq<int>, src: seq<nat>, i: nat)
    requires EncoderFor(ct, t, norm, ct.tableLog) && AllCoded(norm, src) && i + 2 <= |src|
    requires forall k | 0 <= k < |src| :: Freq(norm[src[k]]) == 1
    ensures Suffix(ct, src, i).len == Times(ct.tableLog, |src| - 2 - i)
    decreases |src| - i
  {
    hide EncOk, EncoderFor, Pow2, NbBitsOut, StateIndex, Shl, Low, Odd;
    if i < |src| - 2 {
      RareLength(ct, t, norm, src, i + 1);
      SuffixOk(ct, t, norm, ct.tableLog, src, i + 1);
      var e := Suffix(ct, src, i + 1);
      MineInRange(e, i, ct.tableLog);
      RareStep(ct, t, norm, ct.tableLog, Mine(e, i), src[i]);
    }
  }

  lemma {:induction false} MineInRange(e: Enc, i: nat, L: nat)
    requires EncOk(e, L)
    ensures InRange(Mine(e, i), L)
  {
  }

  /**
    Sources for which the unchecked flushes store past the destination: with a table log of 12, any 22 symbols
    or more of one cell each, in exactly the size from which on nothing is checked.
   */
  lemma {:induction false} FlushesPastBound(ct: CTable, t: seq<nat>, norm: seq<int>, src: seq<nat>)
    requires EncoderFor(ct, t, norm, 12) && AllCoded(norm, src) && |src| >= 22
    requires forall k | 0 <= k < |src| :: Freq(norm[src[k]]) == 1
    ensures ct.tableLog == 12 && BlockReach(ct, src, BlockBound(|src|)) > BlockBound(|src|)
  {
    hide EncoderFor, AllCoded, Suffix, Shr, Freq;
    EncoderParts(ct, t, norm, 12);
    RareLength(ct, t, norm, src, 0);
    TwelveTimes(|src| - 2);
    var len := Suffix(ct, src, 0).len;
    BytesAndBits(len);
    EighthBound(|src|);
  }

  lemma {:induction false} TwelveTimes(n: nat)
    ensures Times(12, n) == 12 * n
  {
    if n > 0 { TwelveTimes(n - 1); }
  }

  lemma {:induction false} EighthBound(n: nat)
    ensures Times8(Shr(n, 7)) <= n
  {
    hide Shr, Low;
    BytesAndBits(n);
    ShrShr(n, 3, 4);
    Split(Shr(n, 3), 4);
    ShlAtLeast(Shr(n, 7), 4);
  }

  lemma {:induction false} ShlAtLeast(x: nat, n: nat)
    ensures x <= Shl(x, n)
  {
    if n > 0 { ShlAtLeast(x, n - 1); }
  }

  /** The coder before a flush, checked or not; all stores end at `end` at the latest. */
  ghost predicate Coding(bitC: CStream, fast: bool, end: nat)
    reads bitC, bitC.buf
  {
    && bitC.Sound() && (if fast then !bitC.clamped else bitC.ptr <= bitC.endPtr)
    && bitC.endPtr + 8 <= end <= bitC.buf.Length
  }

  /** The unchecked stores for a history that is part of the block end at `FastReach` at the latest. */
  ghost predicate Reaches(bitC: CStream, fast: bool, end: nat, ct: CTable, src: seq<nat>)
    requires 2 <= |src|
  {
    fast ==> bitC.startPtr + FastReach(ct, src) <= end
  }

  lemma {:induction false} LengthGrows(ct: CTable, t: seq<nat>, norm: seq<int>, src: seq<nat>, i: nat, j: nat)
    requires EncoderFor(ct, t, norm, ct.tableLog) && AllCoded(norm, src) && i <= j && j + 2 <= |src|
    ensures Suffix(ct, src, j).len <= Suffix(ct, src, i).len
    decreases j - i
  {
    hide EncStep, EncOk, EncoderFor, Pow2;
    if i < j {
      LengthGrows(ct, t, norm, src, i + 1, j);
      SuffixOk(ct, t, norm, ct.tableLog, src, i + 1);
      StepLength(ct, t, norm, ct.tableLog, Suffix(ct, src, i + 1), i, src[i]);
    }
  }

  lemma {:induction false} NextStore(bitC: CStream, c1: CState, c2: CState, src: seq<nat>, ip: nat, fast: bool, end: nat,
                                     t: seq<nat>, norm: seq<int>)
    requires Coding(bitC, fast, end) && ip + 2 <= |src| && At(bitC, c1, c2, src, ip) && Reaches(bitC, fast, end, c1.ct, src)
    requires EncoderFor(c1.ct, t, norm, c1.ct.tableLog) && AllCoded(norm, src)
    ensures bitC.ptr + 8 <= end
    ensures fast && ip == 0 && bitC.bitPos < 8 ==> bitC.ptr + 8 == bitC.startPtr + FastReach(c1.ct, src)
  {
    hide EncoderFor, AllCoded, Suffix, Holds, Pow2, Shr, Low;
    if fast {
      LengthGrows(c1.ct, t, norm, src, 0, ip);
      HoldsLength(bitC.buf[bitC.startPtr..bitC.ptr], bitC.bitContainer, bitC.bitPos, bitC.val, bitC.len);
      BytesAndBits(Suffix(c1.ct, src, 0).len);
    }
  }

  /** FSE_FLUSHBITS. */
  method Flush(bitC: CStream, fast: bool, ghost end: nat)
    requires Coding(bitC, fast, end) && bitC.ptr + 8 <= end
    modifies bitC`bitContainer, bitC`bitPos, bitC`ptr, bitC`clamped, bitC.buf
    ensures Coding(bitC, fast, end) && bitC.FramedTo(end) && bitC.bitPos < 8
  {
    hide CStream.Sound;
    if fast { bitC.FlushBitsFast(); } else { bitC.FlushBits(); }
  }

  /**
    FSE_compress_usingCTable. On success the destination holds the closed stream of `Block`; 0 says that there
    is no room for it, or that the source is too short. From `BlockBound` on the flushes are not checked:
    `dst` is the memory, which goes on as far as they store. They store past the destination only if there
    is no room.
   */
  method CompressUsingCTable(dst: array<byte>, start: nat, dstSize: nat, src: seq<nat>, ct: CTable,
                             ghost t: seq<nat>, ghost norm: seq<int>) returns (size: nat)
    requires start + BlockReach(ct, src, dstSize) <= dst.Length
    requires EncoderFor(ct, t, norm, ct.tableLog) && AllCoded(norm, src)
    modifies dst
    ensures size <= dstSize
    ensures size != 0 <==> |src| > 2 && RoomFor(Block(ct, src).1, dstSize)
    ensures size != 0 ==> Represents(dst[start..start + size], Block(ct, src).0, Block(ct, src).1)
    ensures size != 0 ==> BlockReach(ct, src, dstSize) == dstSize
    ensures BlockReach(ct, src, dstSize) > dstSize ==> dst[start + BlockReach(ct, src, dstSize) - 1] == 0
    ensures forall k | 0 <= k < dst.Length && !(start <= k < start + BlockReach(ct, src, dstSize)) :: dst[k] == old(dst[k])
  {
    hide EncoderFor, AllCoded, Shl, Suffix, At, Block, Represents, CStream.Sound, Times8, RoomFor, TestBit, BlockBound, FastReach;
    NoRoom(dstSize);
    if |src| <= 2 { return 0; }
    var fast := dstSize >= BlockBound(|src|);
    ghost var reach := BlockReach(ct, src, dstSize);
    if dstSize <= 8 {
      ShortIsChecked(|src|, dstSize);
      return 0;
    }
    size := CompressGeneric(dst, start, dstSize, src, ct, fast, start + reach, t, norm);
    if size != 0 { RoomIsInside(ct, src, dstSize); }
  }

  lemma {:induction false} ShortIsChecked(srcSize: nat, dstSize: nat)
    requires dstSize <= 8
    ensures dstSize < BlockBound(srcSize)
  {
  }

  /** FSE_compress_usingCTable_generic, for a destination that BIT_initCStream accepts. */
  method CompressGeneric(dst: array<byte>, start: nat, dstSize: nat, src: seq<nat>, ct: CTable, fast: bool, ghost end: nat,
                         ghost t: seq<nat>, ghost norm: seq<int>) returns (size: nat)
    requires |src| > 2 && dstSize > 8 && start + dstSize <= end <= dst.Length
    requires fast ==> start + FastReach(ct, src) <= end
    requires EncoderFor(ct, t, norm, ct.tableLog) && AllCoded(norm, src)
    modifies dst
    ensures size <= dstSize
    ensures size != 0 <==> RoomFor(Block(ct, src).1, dstSize)
    ensures size != 0 ==> Represents(dst[start..start + size], Block(ct, src).0, Block(ct, src).1)
    ensures fast && FastReach(ct, src) > dstSize ==> dst[start + FastReach(ct, src) - 1] == 0
    ensures forall k | 0 <= k < dst.Length && !(start <= k < end) :: dst[k] == old(dst[k])
  {
    hide EncoderFor, AllCoded, Shl, Suffix, At, Block, Represents, CStream.Sound, Times8, RoomFor, TestBit, FastReach;
    var bitC := new CStream(dst, start, dstSize);
    var c1, c2, ip := StartStates(bitC, src, ct, fast, end, t, norm);
    EncodeRest(bitC, c1, c2, src, ip, fast, end, t, norm);
    size := FinishBlock(bitC, c1, c2, src, fast, end, t, norm);
  }

  lemma {:induction false} NoRoom(dstSize: nat)
    ensures dstSize <= 8 ==> forall len :: !RoomFor(len, dstSize)
  {
  }

  lemma {:induction false} SuffixStart(ct: CTable, t: seq<nat>, norm: seq<int>, src: seq<nat>)
    requires EncoderFor(ct, t, norm, ct.tableLog) && AllCoded(norm, src) && |src| > 2
    ensures ct.tableLog <= MAX_TABLELOG
    ensures var a, b := src[|src| - 2], src[|src| - 1];
            a < |ct.symbolTT| && b < |ct.symbolTT|
            && 0 <= InitialIndex(ct, a) < |ct.stateTable| && 0 <= InitialIndex(ct, b) < |ct.stateTable|
            && (var xa, xb := ct.stateTable[InitialIndex(ct, a)], ct.stateTable[InitialIndex(ct, b)];
                Suffix(ct, src, |src| - 2) == if TestBit(|src|, 0) then Enc(0, 0, xb, xa) else Enc(0, 0, xa, xb))
  {
    assert ct.tableLog <= MAX_TABLELOG;
    StartInRange(ct, t, norm, ct.tableLog, src[|src| - 1]);
    StartInRange(ct, t, norm, ct.tableLog, src[|src| - 2]);
    hide EncoderFor, InRange, InitialIndex;
    LastParity(|src|);
  }

  lemma {:induction false} LastParity(n: nat)
    requires n > 2
    ensures TestBit(n, 0) <==> Odd(n) == 1
    ensures TestBit(n, 0) ==> forall e: Enc {:trigger Mine(e, n - 3)} :: Mine(e, n - 3) == e.x1 && Other(e, n - 3) == e.x2
  {
    hide Half, Shr, Odd, Mine, Other;
    ShiftNone(n);
    if Odd(n) == 1 {
      ThreeBefore(n);
      forall e: Enc ensures Mine(e, n - 3) == e.x1 && Other(e, n - 3) == e.x2 { StateOne(e, n - 3); }
    }
  }

  lemma {:induction false} ThreeBefore(n: nat)
    requires n > 2 && Odd(n) == 1
    ensures Odd(n - 3) == 0
  {
    hide Half;
    HalfUnique(n - 3, Half(n) - 1);
  }

  lemma {:induction false} StateOne(e: Enc, i: nat)
    requires Odd(i) == 0
    ensures Mine(e, i) == e.x1 && Other(e, i) == e.x2
  {
  }

  /** The first rounds leave a multiple of four symbols. */
  lemma {:induction false} SplitSource(n: nat) returns (half: nat, quads: nat)
    requires n > 2
    ensures (if TestBit(n, 0) then 3 else 2) + half + half == n
    ensures (if TestBit(n - 2, 1) then 1 else 0) + quads + quads == half
  {
    half := Half(n - 2);
    quads := Half(half);
    assert Shr(n, 0) == n;
    assert Shr(n - 2, 1) == Shr(half, 0);
    HalfUnique(n, 1 + half);
  }

  /** The initial states, and the odd symbol if there is one. */
  method StartStates(bitC: CStream, src: seq<nat>, ct: CTable, fast: bool, ghost end: nat, ghost t: seq<nat>, ghost norm: seq<int>)
    returns (c1: CState, c2: CState, ip: nat)
    requires Coding(bitC, fast, end) && bitC.bitPos == 0 && bitC.val == 0 && bitC.len == 0
    requires |src| > 2 && Reaches(bitC, fast, end, ct, src)
    requires EncoderFor(ct, t, norm, ct.tableLog) && AllCoded(norm, src)
    modifies bitC, bitC.buf
    ensures Coding(bitC, fast, end) && bitC.FramedTo(end) && bitC.bitPos < 8
    ensures fresh(c1) && fresh(c2) && c1 != c2 && c1.ct == c2.ct == ct
    ensures ct.tableLog <= MAX_TABLELOG
    ensures ip == |src| - (if TestBit(|src|, 0) then 3 else 2) && At(bitC, c1, c2, src, ip)
  {
    hide EncoderFor, AllCoded, Suffix, InitialIndex, Shl, Low, TestBit, Mine, Other, CStream.Sound, FastReach, Odd, Pow2;
    ip := |src|;
    SuffixStart(ct, t, norm, src);
    LastParity(ip);
    if TestBit(|src|, 0) {
      c1 := new CState.FromSymbol(ct, src[ip - 1]);
      c2 := new CState.FromSymbol(ct, src[ip - 2]);
      ip := ip - 3;
      EncodePrev(bitC, c1, src, ip, t, norm);
      NextStore(bitC, c1, c2, src, ip, fast, end, t, norm);
      Flush(bitC, fast, end);
    } else {
      c2 := new CState.FromSymbol(ct, src[ip - 1]);
      c1 := new CState.FromSymbol(ct, src[ip - 2]);
      ip := ip - 2;
    }
  }

  /** Joins to a multiple of four, then the main loop: four symbols, then a flush. */
  method EncodeRest(bitC: CStream, c1: CState, c2: CState, src: seq<nat>, from: nat, fast: bool, ghost end: nat,
                    ghost t: seq<nat>, ghost norm: seq<int>)
    requires Coding(bitC, fast, end) && bitC.bitPos < 8 && |src| > 2 && Reaches(bitC, fast, end, c1.ct, src)
    requires c1 != c2 && c1.ct == c2.ct
    requires EncoderFor(c1.ct, t, norm, c1.ct.tableLog) && AllCoded(norm, src)
    requires from == |src| - (if TestBit(|src|, 0) then 3 else 2) && At(bitC, c1, c2, src, from)
    modifies c1, c2, bitC, bitC.buf
    ensures Coding(bitC, fast, end) && bitC.FramedTo(end) && bitC.bitPos < 8
    ensures At(bitC, c1, c2, src, 0)
  {
    hide TestBit;
    hide EncoderFor, AllCoded, Shl, Low, Suffix, CStream.Sound;
    var ip: nat := from;
    ghost var half, k := SplitSource(|src|);
    if TestBit(|src| - 2, 1) {
      EncodePair(bitC, c1, c2, src, ip, half, t, norm);
      ip := ip - 2;
      NextStore(bitC, c1, c2, src, ip, fast, end, t, norm);
      Flush(bitC, fast, end);
    }
    while ip > 0
      invariant Coding(bitC, fast, end) && bitC.bitPos < 8 && bitC.FramedTo(end)
      invariant ip == k + k + k + k && ip + 2 <= |src|
      invariant At(bitC, c1, c2, src, ip)
    {
      EncodePair(bitC, c1, c2, src, ip, k + k, t, norm);
      EncodePair(bitC, c1, c2, src, ip - 2, k + k - 1, t, norm);
      ip := ip - 4;
      k := k - 1;
      NextStore(bitC, c1, c2, src, ip, fast, end, t, norm);
      Flush(bitC, fast, end);
    }
  }

  /** Both states, then the end mark; these flushes are checked. */
  method FinishBlock(bitC: CStream, c1: CState, c2: CState, src: seq<nat>, fast: bool, ghost end: nat, ghost t: seq<nat>, ghost norm: seq<int>)
    returns (size: nat)
    requires Coding(bitC, fast, end) && bitC.bitPos < 8
    requires c1.ct == c2.ct && c1.ct.tableLog <= MAX_TABLELOG
    requires 2 <= |src| && At(bitC, c1, c2, src, 0) && Reaches(bitC, fast, end, c1.ct, src)
    requires EncoderFor(c1.ct, t, norm, c1.ct.tableLog) && AllCoded(norm, src)
    modifies bitC, bitC.buf
    ensures bitC.FramedTo(end) && bitC.startPtr + size <= bitC.endPtr
    ensures size != 0 ==> Represents(bitC.buf[bitC.startPtr..bitC.startPtr + size], Block(c1.ct, src).0, Block(c1.ct, src).1)
    ensures size != 0 <==> RoomFor(Block(c1.ct, src).1, bitC.endPtr + 8 - bitC.startPtr)
    ensures fast && bitC.startPtr + FastReach(c1.ct, src) > bitC.endPtr + 8 ==>
              bitC.startPtr + FastReach(c1.ct, src) <= bitC.buf.Length && bitC.buf[bitC.startPtr + FastReach(c1.ct, src) - 1] == 0
  {
    hide Shl, Low, Suffix, CStream.Sound, Represents, EncoderFor, AllCoded, FastReach, RoomFor;
    NextStore(bitC, c1, c2, src, 0, fast, end, t, norm);
    c2.Flush(bitC);
    c1.Flush(bitC);
    size := bitC.Close();
  }
}
