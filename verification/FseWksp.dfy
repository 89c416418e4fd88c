/**
  FSE_buildCTable_wksp in the workspace of FSE_compress_wksp. The encoding table and the scratch cells share
  one piece of memory, and where the cells begin is computed from the arguments of the caller, while the size
  of the table follows from the table log that is chosen later.
 */
module FseWksp {
  import opened Bits
  import opened Errors
  import opened FseWalk
  import opened FseSpread
  import opened FseTable

  /** sizeof(fseWkspMax_t): the largest table, then 4096 bytes. */
  const WKSP_BYTES := 14340

  // ---------- the layout, in bytes ----------

  /** Header of the table, before the first state. */
  const STATES_AT := 4

  /** End of the states, two bytes each; the transforms of the symbols follow. */
  function StatesEnd(L: nat): nat {
    STATES_AT + Pow2(L) + Pow2(L)
  }

  /** Start of the cells: FSE_CTABLE_SIZE_U32 of the arguments, in bytes. */
  function CellsAt(tableLog: nat, maxSymbolValue: nat): nat {
    STATES_AT + Pow2(tableLog) + Pow2(tableLog) + Times8(maxSymbolValue + 1)
  }

  /** A byte that belongs to a state of the table and to a cell as well. */
  ghost predicate Shared(b: nat, L: nat, cells: nat) {
    STATES_AT <= b < StatesEnd(L) && cells <= b < cells + Pow2(L)
  }

  /** The states and the cells have a byte in common exactly if the table is larger than the arguments allow for. */
  lemma {:induction false} SharedExactly(tableLog: nat, maxSymbolValue: nat, L: nat)
    ensures var n := maxSymbolValue + 1;
            (exists b: nat :: Shared(b, L, CellsAt(tableLog, maxSymbolValue))) <==> Pow2(L) > Pow2(tableLog) + n + n + n + n
  {
    var n, cells := maxSymbolValue + 1, CellsAt(tableLog, maxSymbolValue);
    Pow2Mono(0, L);
    assert Pow2(0) == 1;
    hide Pow2;
    if Pow2(L) > Pow2(tableLog) + n + n + n + n { assert Shared(cells, L, cells); }
  }

  /** A workspace in which the cells lie behind the states, and everything has room for `n` symbols. */
  ghost predicate WkspHolds(L: nat, n: nat, cells: nat, wkspBytes: nat) {
    StatesEnd(L) <= cells && cells + Pow2(L) <= wkspBytes && StatesEnd(L) + Times8(n) <= wkspBytes
  }

  /** The workspace of FSE_compress2 is large enough for every table. */
  lemma {:induction false} LargeWorkspace(tableLog: nat, maxSymbolValue: nat, L: nat, n: nat)
    requires tableLog <= 12 && maxSymbolValue <= 255 && L <= 12 && n <= 256
    ensures StatesEnd(L) <= CellsAt(tableLog, maxSymbolValue) ==> WkspHolds(L, n, CellsAt(tableLog, maxSymbolValue), WKSP_BYTES)
    ensures var k := maxSymbolValue + 1; StatesEnd(L) <= CellsAt(tableLog, maxSymbolValue) <==> Pow2(L) <= Pow2(tableLog) + k + k + k + k
  {
    hide Pow2;
    Pow2Mono(L, 12);
    Pow2Mono(tableLog, 12);
    SmallPowers();
    assert Pow2(12) == 4096 by { Powers12(); }
  }

  lemma {:induction false} Powers12()
    ensures Pow2(12) == 4096
  {
    SmallPowers();
    assert Pow2(10) == 4 * Pow2(8) && Pow2(12) == 4 * Pow2(10);
  }

  // ---------- storing the states ----------

  /** State `i` as it is in memory. */
  function StateAt(mem: seq<byte>, i: nat): nat
    requires STATES_AT + i + i + 2 <= |mem|
  {
    mem[STATES_AT + i + i] + Shl(mem[STATES_AT + i + i + 1], 8)
  }

  function States(mem: seq<byte>, n: nat): (s: seq<nat>)
    requires STATES_AT + n + n <= |mem|
    ensures |s| == n
  {
    seq(n, i requires 0 <= i < n => StateAt(mem, i))
  }

  function StoreState(mem: seq<byte>, i: nat, x: nat): (mem': seq<byte>)
    requires STATES_AT + i + i + 2 <= |mem|
    ensures |mem'| == |mem|
  {
    mem[STATES_AT + i + i := LowByte(x)][STATES_AT + i + i + 1 := LowByte(Shr(x, 8))]
  }

  lemma {:induction false} StateStored(mem: seq<byte>, n: nat, i: nat, x: nat)
    requires STATES_AT + n + n <= |mem| && i < n && x < Pow2(16)
    ensures States(StoreState(mem, i, x), n) == States(mem, n)[i := x]
  {
    hide Shl, Shr, Low, Pow2;
    Split(x, 8);
    ShrBound(x, 8, 8);
    LowSmall(Shr(x, 8), 8);
    var mem' := StoreState(mem, i, x);
    assert StateAt(mem', i) == x;
    forall k | 0 <= k < n && k != i ensures StateAt(mem', k) == StateAt(mem, k) { }
  }

  // ---------- the "Build table" loop ----------

  /** The workspace, and the next place for every symbol. */
  datatype Work = Work(mem: seq<byte>, cumul: seq<nat>)

  /** The loop after `u` rounds; None once a cell has been read that holds no symbol of the table. */
  function Rounds(w: Work, cells: nat, T: nat, u: nat): Option<Work>
    requires cells + u <= |w.mem|
    ensures Rounds(w, cells, T, u).Some? ==> |Rounds(w, cells, T, u).value.mem| == |w.mem|
  {
    if u == 0 then Some(w)
    else
      match Rounds(w, cells, T, u - 1)
      case None => None
      case Some(v) =>
        var s := v.mem[cells + u - 1];
        if s >= |v.cumul| || STATES_AT + v.cumul[s] + v.cumul[s] + 2 > |v.mem| then None
        else Some(Work(StoreState(v.mem, v.cumul[s], T + u - 1), v.cumul[s := v.cumul[s] + 1]))
  }

  /** The workspace before the loop: the cells hold the spread, and every symbol starts at its first place. */
  ghost predicate Laid(w: Work, cells: nat, t: seq<nat>, norm: seq<int>, L: nat) {
    && NormOk(norm, L) && IsSpread(t, norm, L) && |norm| <= 256 && L <= TABLELOG_ABSOLUTE_MAX
    && cells + |t| <= |w.mem| && StatesEnd(L) <= |w.mem|
    && (forall u: nat {:trigger t[u]} | u < |t| :: w.mem[cells + u] == t[u])
    && |w.cumul| == |norm| + 1 && forall s: nat {:trigger w.cumul[s]} | s < |norm| :: w.cumul[s] == FreqSum(norm, s)
  }

  /** The first `u` cells have been sorted, and no cell has been lost. */
  ghost predicate Building(v: Work, cells: nat, t: seq<nat>, norm: seq<int>, L: nat, u: nat)
    requires u <= |t|
  {
    && cells + |t| <= |v.mem| && StatesEnd(L) <= |v.mem| && |t| == Pow2(L)
    && (forall k: nat {:trigger t[k]} | k < |t| :: v.mem[cells + k] == t[k])
    && |v.cumul| == |norm| + 1
    && (forall s: nat {:trigger v.cumul[s]} | s < |norm| :: v.cumul[s] == FreqSum(norm, s) + Occ(t, u, s))
    && (forall k: nat | k < u :: Sorted(States(v.mem, |t|), t, norm, k))
  }

  lemma {:induction false} StateFits(L: nat, u: nat)
    requires L <= TABLELOG_ABSOLUTE_MAX && u < Pow2(L)
    ensures Pow2(L) + u < Pow2(16)
  {
    Pow2Mono(L, 15);
    assert Pow2(16) == 2 * Pow2(15);
  }

  lemma {:induction false} BuildingNext(v: Work, cells: nat, t: seq<nat>, norm: seq<int>, L: nat, u: nat)
    requires NormOk(norm, L) && IsSpread(t, norm, L) && L <= TABLELOG_ABSOLUTE_MAX && StatesEnd(L) <= cells
    requires u < |t| && Building(v, cells, t, norm, L, u)
    ensures var s := v.mem[cells + u];
            s == t[u] < |norm| && v.cumul[s] == SortedIndex(t, norm, u) < |t|
            && Building(Work(StoreState(v.mem, v.cumul[s], |t| + u), v.cumul[s := v.cumul[s] + 1]), cells, t, norm, L, u + 1)
  {
    hide NormOk, IsSpread, FreqSum, StateAt, Sorted, LowByte, Shr;
    SortedBound(t, norm, L, u);
    StateFits(L, u);
    var s, before := t[u], States(v.mem, |t|);
    assert v.mem[cells + u] == t[u];
    var i := v.cumul[s];
    var mem' := StoreState(v.mem, i, |t| + u);
    StateStored(v.mem, |t|, i, |t| + u);
    SortedNext(before, States(mem', |t|), t, norm, L, u);
  }

  /** With the cells behind the states, the loop in the shared memory sorts them as in memory of their own. */
  lemma {:induction false} ApartRounds(w: Work, cells: nat, t: seq<nat>, norm: seq<int>, L: nat, u: nat)
    requires Laid(w, cells, t, norm, L) && StatesEnd(L) <= cells && u <= |t|
    ensures Rounds(w, cells, |t|, u).Some? && Building(Rounds(w, cells, |t|, u).value, cells, t, norm, L, u)
  {
    hide NormOk, IsSpread, FreqSum, States, Sorted, StoreState;
    if u > 0 {
      ApartRounds(w, cells, t, norm, L, u - 1);
      BuildingNext(Rounds(w, cells, |t|, u - 1).value, cells, t, norm, L, u - 1);
    } else {
      SpreadSize(t, norm, L);
    }
  }

  /** The "Build table" loop. */
  method BuildStates(mem: array<byte>, cumul: array<nat>, cells: nat, T: nat) returns (ok: bool)
    requires cells + T <= mem.Length
    modifies mem, cumul
    ensures var r := Rounds(Work(old(mem[..]), old(cumul[..])), cells, T, T);
            ok == r.Some? && (ok ==> mem[..] == r.value.mem && cumul[..] == r.value.cumul)
  {
    hide Rounds, StoreState, StateAt;
    ghost var w := Work(mem[..], cumul[..]);
    FirstRounds(w, cells, T);
    for u := 0 to T
      invariant Rounds(w, cells, T, u) == Some(Work(mem[..], cumul[..]))
    {
      ghost var c := cumul[..];
      NextRound(w, cells, T, u, mem[..], c);
      var s := mem[cells + u];
      if s >= cumul.Length || STATES_AT + cumul[s] + cumul[s] + 2 > mem.Length {
        StuckRounds(w, cells, T, u + 1, T);
        return false;
      }
      Store(mem, cumul[s], T + u);
      cumul[s] := cumul[s] + 1;
      assert cumul[..] == c[s := c[s] + 1];
    }
    ok := true;
  }

  lemma {:induction false} FirstRounds(w: Work, cells: nat, T: nat)
    requires cells <= |w.mem|
    ensures Rounds(w, cells, T, 0) == Some(w)
  {
  }

  lemma {:induction false} NextRound(w: Work, cells: nat, T: nat, u: nat, mem: seq<byte>, cumul: seq<nat>)
    requires cells + u < |w.mem| == |mem| && Rounds(w, cells, T, u) == Some(Work(mem, cumul))
    ensures var s := mem[cells + u];
            Rounds(w, cells, T, u + 1) ==
            if s >= |cumul| || STATES_AT + cumul[s] + cumul[s] + 2 > |mem| then None
            else Some(Work(StoreState(mem, cumul[s], T + u), cumul[s := cumul[s] + 1]))
  {
    hide StoreState;
  }

  method Store(mem: array<byte>, i: nat, x: nat)
    requires STATES_AT + i + i + 2 <= mem.Length
    modifies mem
    ensures mem[..] == StoreState(old(mem[..]), i, x)
  {
    mem[STATES_AT + i + i] := LowByte(x);
    mem[STATES_AT + i + i + 1] := LowByte(Shr(x, 8));
  }

  lemma {:induction false} StuckRounds(w: Work, cells: nat, T: nat, u: nat, n: nat)
    requires u <= n && cells + n <= |w.mem| && Rounds(w, cells, T, u).None?
    ensures Rounds(w, cells, T, n).None?
    decreases n
  {
    hide Rounds;
    if u < n {
      StuckRounds(w, cells, T, u, n - 1);
      StuckRound(w, cells, T, n - 1);
    }
  }

  lemma {:induction false} StuckRound(w: Work, cells: nat, T: nat, u: nat)
    requires cells + u + 1 <= |w.mem| && Rounds(w, cells, T, u).None?
    ensures Rounds(w, cells, T, u + 1).None?
  {
  }

  /** The cells, in their place in the workspace. */
  method LayCells(mem: array<byte>, cells: nat, t: seq<nat>)
    requires cells + |t| <= mem.Length && forall u | 0 <= u < |t| :: t[u] < 256
    modifies mem
    ensures forall u: nat {:trigger t[u]} | u < |t| :: mem[cells + u] == t[u]
  {
    for k := 0 to |t|
      invariant forall u: nat {:trigger t[u]} | u < k :: mem[cells + u] == t[u]
    {
      mem[cells + k] := t[k];
    }
  }

  /** The transforms are stored behind the states: over the cells perhaps, which are no longer needed. */
  method LayTransforms(mem: array<byte>, at: nat, tt: seq<Transform>)
    requires at + Times8(|tt|) <= mem.Length
    modifies mem
    ensures forall b | 0 <= b < at :: mem[b] == old(mem[b])
  {
    var op := at;
    for s := 0 to |tt|
      invariant op == at + Times8(s) && forall b | 0 <= b < at :: mem[b] == old(mem[b])
    {
      var word := ToLE(Wrap32(tt[s].deltaFindState), 4) + ToLE(tt[s].deltaNbBits, 4);
      forall k | 0 <= k < 8 { mem[op + k] := word[k]; }
      op := op + 8;
    }
  }

  lemma {:induction false} SameStates(a: seq<byte>, b: seq<byte>, n: nat)
    requires STATES_AT + n + n <= |a| && STATES_AT + n + n <= |b| && forall k | 0 <= k < STATES_AT + n + n :: a[k] == b[k]
    ensures States(a, n) == States(b, n)
  {
  }

  lemma {:induction false} SymbolsAreBytes(t: seq<nat>, norm: seq<int>, L: nat)
    requires NormOk(norm, L) && IsSpread(t, norm, L) && |norm| <= 256
    ensures forall u | 0 <= u < |t| :: t[u] < 256
  {
    hide IsSpread;
    hide NormOk;
    SpreadSize(t, norm, L);
    forall u | 0 <= u < |t| ensures t[u] < 256 { CellRank(t, norm, L, u); }
  }

  lemma {:induction false} StatesAreSorted(w: Work, cells: nat, t: seq<nat>, norm: seq<int>, L: nat)
    requires Laid(w, cells, t, norm, L) && StatesEnd(L) <= cells
    ensures Rounds(w, cells, |t|, |t|).Some? && |t| == Pow2(L)
    ensures forall u: nat | u < |t| :: Sorted(States(Rounds(w, cells, |t|, |t|).value.mem, |t|), t, norm, u)
  {
    hide Laid, Sorted, States, FreqSum;
    ApartRounds(w, cells, t, norm, L, |t|);
  }

  /**
    FSE_buildCTable_wksp with the cells at byte `cells` of a workspace of `wkspBytes` bytes, behind the states:
    the table that memory of its own for each would give.
   */
  method BuildCTableWksp(norm: seq<int>, L: nat, cells: nat, wkspBytes: nat) returns (r: Result<CTable>, ghost t: seq<nat>)
    requires NormOk(norm, L) && L <= TABLELOG_ABSOLUTE_MAX && |norm| <= 256
    requires StatesEnd(L) <= cells <= wkspBytes && StatesEnd(L) + Times8(|norm|) <= wkspBytes
    ensures r.Err? <==> Pow2(L) > wkspBytes - cells
    ensures r.Ok? ==> IsSpread(t, norm, L) && CTableFor(r.value, t, norm, L)
  {
    hide NormOk, IsSpread, Cumulated, Laid, FreqSum, Pow2;
    var tableSize := Pow2(L);
    t := [];
    if tableSize > wkspBytes - cells { return Err(TableLogTooLarge), t; }
    var tableSymbol, cumul := SpreadCells(norm, L);
    t := tableSymbol;
    var mem := new byte[wkspBytes];
    SymbolsAreBytes(t, norm, L);
    LayCells(mem, cells, tableSymbol);
    LaidIs(Work(mem[..], cumul[..]), cells, t, norm, L);
    StatesAreSorted(Work(mem[..], cumul[..]), cells, t, norm, L);
    var ok := BuildStates(mem, cumul, cells, tableSize);
    ghost var built := mem[..];
    var symbolTT := new Transform[|norm|];
    BuildTransforms(norm, L, symbolTT);
    LayTransforms(mem, StatesEnd(L), symbolTT[..]);
    SameStates(built, mem[..], tableSize);
    r := Ok(CTable(L, States(mem[..], tableSize), symbolTT[..]));
    TableIs(r.value, t, norm, L);
  }

  /** The spread, and the first place of every symbol. */
  method SpreadCells(norm: seq<int>, L: nat) returns (tableSymbol: seq<nat>, cumul: array<nat>)
    requires NormOk(norm, L)
    ensures IsSpread(tableSymbol, norm, L) && |tableSymbol| == Pow2(L) && fresh(cumul) && Cumulated(cumul[..], norm, |norm|)
  {
    var cells := new nat[Pow2(L)];
    cumul := new nat[|norm| + 1];
    var highThreshold := LayLowProb(norm, L, cells, cumul);
    ghost var places := cumul[..];
    var position := SpreadSymbols(cells, norm, L, highThreshold);
    assert cumul[..] == places;
    tableSymbol := cells[..];
  }

  lemma {:induction false} LaidIs(w: Work, cells: nat, t: seq<nat>, norm: seq<int>, L: nat)
    requires NormOk(norm, L) && IsSpread(t, norm, L) && |norm| <= 256 && L <= TABLELOG_ABSOLUTE_MAX
    requires cells + |t| <= |w.mem| && StatesEnd(L) <= |w.mem| && Cumulated(w.cumul, norm, |norm|)
    requires forall u: nat {:trigger t[u]} | u < |t| :: w.mem[cells + u] == t[u]
    ensures Laid(w, cells, t, norm, L)
  {
    hide NormOk, IsSpread, FreqSum;
  }

  lemma {:induction false} TableIs(ct: CTable, t: seq<nat>, norm: seq<int>, L: nat)
    requires ct.tableLog == L && |t| == |ct.stateTable| == Pow2(L) && |ct.symbolTT| == |norm|
    requires forall u: nat | u < |t| :: Sorted(ct.stateTable, t, norm, u)
    requires forall s: nat {:trigger ct.symbolTT[s]} | s < |norm| && norm[s] != 0 ::
               TransformFor(ct.symbolTT[s], Freq(norm[s]), FreqSum(norm, s), L)
    ensures CTableFor(ct, t, norm, L)
  {
    hide Sorted, TransformFor, FreqSum;
  }

  // ---------- a workspace in which the states run into the cells ----------

  /** Two symbols of 16 cells each. */
  const EVEN: seq<int> := [16, 16]

  /** The walk is at cell 3 after 21 steps, when the first symbol has all its cells. */
  lemma {:induction false} EvenSpread(t: seq<nat>)
    requires IsSpread(t, EVEN, 5)
    ensures NormOk(EVEN, 5) && |t| == 32 && t[3] == 1 && forall k | 0 <= k < 32 :: t[k] <= 1
  {
    hide IsSpread, InSlot, Pos, Rank, High, NormOk, TableStep;
    EvenSums();
    EvenWalk();
    RankAll(5, 23, 31, 21);
    EvenSlot();
    CellOfRank(t, EVEN, 5, 21);
    SlotUnique(EVEN, t[3], 1, 21);
    forall k | 0 <= k < 32 ensures t[k] <= 1 { CellRank(t, EVEN, 5, k); }
  }

  lemma {:induction false} EvenSlot()
    ensures InSlot(EVEN, 1, 21)
  {
    EvenSums();
  }

  lemma {:induction false} CellOfRank(t: seq<nat>, norm: seq<int>, L: nat, w: nat)
    requires IsSpread(t, norm, L) && w < Pow2(L) && Pos(L, TableStep(Pow2(L)), w) <= High(norm, L)
    ensures Pos(L, TableStep(Pow2(L)), w) < |t| == Pow2(L)
    ensures InSlot(norm, t[Pos(L, TableStep(Pow2(L)), w)], Rank(L, TableStep(Pow2(L)), High(norm, L), w))
  {
    hide Pos, Rank, High, InSlot, TableStep, Pow2, LowLaid;
  }

  lemma {:induction false} EvenSums()
    ensures Pow2(5) == 32 && NormOk(EVEN, 5) && High(EVEN, 5) == 31
    ensures PosSum(EVEN, 0) == 0 && PosSum(EVEN, 1) == 16 && PosSum(EVEN, 2) == 32
  {
    SmallPowers();
    assert Pow2(5) == 2 * Pow2(4);
    assert FreqSum(EVEN, 1) == 16 && FreqSum(EVEN, 2) == 32;
    assert LowSum(EVEN, 1) == 0 && LowSum(EVEN, 2) == 0;
  }

  lemma {:induction false} EvenWalk()
    ensures TableStep(32) == 23 && Pos(5, 23, 21) == 3
  {
    hide Half;
    assert Half(32) == 16 && Half(16) == 8 && Half(8) == 4 by { HalfUnique(32, 16); HalfUnique(16, 8); HalfUnique(8, 4); }
    assert Shr(32, 1) == 16 && Shr(32, 3) == 4 by { EvenShifts(); }
    assert Times(23, 1) == 23;
    TimesDouble(23, 1);
    TimesSum(23, 2, 1);
    TimesSum(23, 3, 2);
    TimesDouble(23, 5);
    TimesDouble(23, 10);
    TimesSum(23, 20, 1);
    assert Times(23, 21) == 483;
    EvenLow();
  }

  lemma {:induction false} EvenShifts()
    ensures Shr(32, 1) == 16 && Shr(32, 3) == 4
  {
    HalfUnique(32, 16);
    HalfUnique(16, 8);
    HalfUnique(8, 4);
    assert Shr(16, 0) == 16 && Shr(4, 0) == 4 && Shr(8, 1) == 4 && Shr(16, 2) == 4;
  }

  lemma {:induction false} EvenLow()
    ensures Low(483, 5) == 3
  {
    SmallPowers();
    assert Pow2(5) == 32 by { assert Pow2(5) == 2 * Pow2(4); }
    assert Shl(15, 0) == 15 && Shl(15, 1) == 30 && Shl(15, 2) == 60 && Shl(15, 3) == 120 && Shl(15, 4) == 240 && Shl(15, 5) == 480;
    hide Low, Shl, Pow2;
    Join(3, 15, 5);
  }

  /** The workspace of a source of two symbols, when a table log of 1 and a largest symbol of 1 are asked for. */
  ghost predicate EvenWork(w: Work, t: seq<nat>) {
    IsSpread(t, EVEN, 5) && w.cumul == [0, 16, 33] && |w.mem| == WKSP_BYTES && |t| == 32
    && forall u: nat {:trigger t[u]} | u < 32 :: w.mem[24 + u] == t[u]
  }

  /** The loop before it reads cell 12: the first state of the second symbol, found at cell `f`, has been stored over that cell. */
  ghost predicate Overwriting(v: Work, t: seq<nat>, f: nat, u: nat) {
    && |v.mem| == WKSP_BYTES && |t| == 32 && |v.cumul| == 3 && u <= 12 && v.cumul[0] <= u
    && (if u <= f then v.cumul[1] == 16 else v.cumul[1] > 16 && v.mem[36] == 32 + f)
    && v.cumul[1] <= 16 + u
    && forall k: nat {:trigger t[k]} | u <= k < 12 :: v.mem[24 + k] == t[k]
  }

  lemma {:induction false} OverwritingNext(v: Work, t: seq<nat>, f: nat, u: nat)
    requires Overwriting(v, t, f, u) && u < 12 && f < 12 && t[f] == 1 && (forall k | 0 <= k < f :: t[k] == 0) &&
             forall k | 0 <= k < 32 :: t[k] <= 1
    ensures var s := v.mem[24 + u];
            s == t[u] <= 1 && Overwriting(Work(StoreState(v.mem, v.cumul[s], 32 + u), v.cumul[s := v.cumul[s] + 1]), t, f, u + 1)
  {
    hide Low, Shr, Pow2;
    SmallPowers();
    LowSmall(32 + u, 8);
    assert v.mem[24 + u] == t[u];
  }

  lemma {:induction false} OverwritingRounds(w: Work, t: seq<nat>, f: nat, u: nat)
    requires EvenWork(w, t) && u <= 12 && f < 12 && t[f] == 1 && (forall k | 0 <= k < f :: t[k] == 0) && forall k | 0 <= k < 32 :: t[k] <= 1
    ensures Rounds(w, 24, 32, u).Some? && Overwriting(Rounds(w, 24, 32, u).value, t, f, u)
  {
    hide IsSpread, StoreState;
    if u > 0 {
      OverwritingRounds(w, t, f, u - 1);
      OverwritingNext(Rounds(w, 24, 32, u - 1).value, t, f, u - 1);
    }
  }

  lemma {:induction false} FirstOne(t: seq<nat>, n: nat) returns (f: nat)
    requires n < |t| && t[n] == 1 && forall k | 0 <= k < |t| :: t[k] <= 1
    ensures f <= n && t[f] == 1 && forall k | 0 <= k < f :: t[k] == 0
  {
    if k :| 0 <= k < n && t[k] == 1 { f := FirstOne(t, k); } else { f := n; }
  }

  /**
    With a table log of 1 and a largest symbol of 1 asked for, the cells of a table of log 5 begin inside its
    states. The loop then reads, in place of cell 12, the low byte of a state, which is no symbol at all.
   */
  lemma {:induction false} CellsOverwritten(w: Work, t: seq<nat>)
    requires EvenWork(w, t)
    ensures CellsAt(1, 1) == 24 < StatesEnd(5) && NormOk(EVEN, 5)
    ensures Rounds(w, 24, 32, 12).Some? && Rounds(w, 24, 32, 12).value.mem[24 + 12] >= 32 > t[12]
    ensures Rounds(w, 24, 32, 32).None?
  {
    hide IsSpread, StoreState;
    EvenSpread(t);
    EvenSizes();
    var f := FirstOne(t, 3);
    OverwritingRounds(w, t, f, 12);
    StuckRounds(w, 24, 32, 13, 32);
  }

  lemma {:induction false} EvenSizes()
    ensures CellsAt(1, 1) == 24 && StatesEnd(5) == 68
  {
    SmallPowers();
    assert Pow2(5) == 2 * Pow2(4);
  }
}
