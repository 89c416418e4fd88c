/**
  The double-symbol decoding table of Huff0: a cell for every string of `D` bits, holding the first symbol of
  the string, and the second one too if its code fits in the string.
 */
module HufX2 {
  import opened Bits
  import opened HufHeight
  import opened HufCode
  import opened HufX1

  /** HUF_DEltX2. */
  datatype DEltX2 = DEltX2(first: nat, second: nat, nbBits: nat, length: nat)

  /** sortedSymbol_t. */
  datatype SortedSymbol = SortedSymbol(symbol: nat, weight: nat)

  // ---------- the cells ----------

  /** The cell for the symbol `s`, followed by the bits `y`: the next code is part of it exactly if it fits. */
  ghost predicate Second(c: DEltX2, lens: seq<nat>, D: nat, s: nat, y: nat) {
    && s < |lens| && lens[s] <= D && c.first == s
    && (var next := Shl(y, lens[s]);
        if c.length == 2
        then Matches(lens, D, next, c.second) && lens[s] + lens[c.second] <= D && c.nbBits == lens[s] + lens[c.second]
        else c.length == 1 && c.nbBits == lens[s]
             && forall t: nat {:trigger Matches(lens, D, next, t)} | Matches(lens, D, next, t) :: lens[s] + lens[t] > D)
  }

  /** The cell for the string `x`. */
  ghost predicate CellX2(c: DEltX2, lens: seq<nat>, D: nat, x: nat) {
    Matches(lens, D, x, c.first) && Second(c, lens, D, c.first, Low(x, D - lens[c.first]))
  }

  ghost predicate TableX2(dt: seq<DEltX2>, lens: seq<nat>, D: nat) {
    |dt| == Pow2(D) && forall x: nat {:trigger dt[x]} | x < |dt| :: CellX2(dt[x], lens, D, x)
  }

  /** With the same bits up to `n`, the same codes of at most `n` bits match. */
  lemma {:induction false} SamePrefix(lens: seq<nat>, D: nat, x: nat, z: nat, n: nat, t: nat)
    requires n <= D && Shr(x, D - n) == Shr(z, D - n) && t < |lens| && lens[t] <= n
    ensures Matches(lens, D, x, t) <==> Matches(lens, D, z, t)
  {
    if 0 < lens[t] {
      ShrShr(x, D - n, n - lens[t]);
      ShrShr(z, D - n, n - lens[t]);
    }
  }

  lemma {:induction false} RefinesCell(one: DEltX1, next: DEltX1, c: DEltX2, lens: seq<nat>, D: nat, x: nat, z: nat)
    requires FullCode(lens, D) && CellX1(one, lens, D, x) && CellX1(next, lens, D, z) && CellX2(c, lens, D, x)
    requires one.nbBits <= D && Shr(z, one.nbBits) == Low(x, D - one.nbBits)
    ensures c.first == one.symbol
    ensures c.length == if one.nbBits + next.nbBits <= D then 2 else 1
    ensures c.length == 1 ==> c.nbBits == one.nbBits
    ensures c.length == 2 ==> c.second == next.symbol && c.nbBits == one.nbBits + next.nbBits
  {
    DecodeUnique(lens, D, x, c.first, one.symbol);
    var l1, t := lens[c.first], next.symbol;
    var rest := Shl(Low(x, D - l1), l1);
    ShrShlSame(Low(x, D - l1), l1);
    if lens[t] <= D - l1 { SamePrefix(lens, D, rest, z, D - l1, t); }
    if c.length == 2 {
      SamePrefix(lens, D, rest, z, D - l1, c.second);
      DecodeUnique(lens, D, z, c.second, t);
    }
  }

  lemma {:induction false} ShrShlSame(y: nat, n: nat)
    ensures Shr(Shl(y, n), n) == y
  {
    ShrShl(y, n, n);
    assert Shl(y, 0) == y;
  }

  // ---------- a code as a code of greater height ----------

  lemma {:induction false} WiderKraft(lens: seq<nat>, M: nat, D: nat)
    requires AtMost(lens, M) && M <= D
    ensures CodeKraft(lens, D) == Shl(CodeKraft(lens, M), D - M)
  {
    if |lens| == 0 {
      ShlZero(D - M);
    } else {
      var a, z := lens[..|lens| - 1], lens[|lens| - 1];
      assert AtMost(a, M) && z <= M;
      WiderKraft(a, M, D);
      ShlZero(D - M);
      Pow2IsShl(M - z, D - M);
      ShlAdd(CodeKraft(a, M), CodeWeight(z, M), D - M);
    }
  }

  lemma {:induction false} WiderStart(lens: seq<nat>, M: nat, D: nat, n: nat)
    requires AtMost(lens, M) && M <= D && n <= D
    ensures Start(lens, D, n) == Start(lens, M, n)
    decreases D - n
  {
    if n < D {
      WiderStart(lens, M, D, n + 1);
      if n >= M {
        NoneLonger(lens, M, n + 1, |lens|);
        assert Half(0) == 0;
      }
    }
  }

  lemma {:induction false} NoneLonger(lens: seq<nat>, M: nat, n: nat, k: nat)
    requires AtMost(lens, M) && M < n && k <= |lens|
    ensures NbOf(lens, n, k) == 0
  {
    if k > 0 { NoneLonger(lens, M, n, k - 1); }
  }

  /** A complete code of height `M` is one of height at most `D`, with the same values. */
  lemma {:induction false} WiderCode(lens: seq<nat>, M: nat, D: nat)
    requires FullCode(lens, M) && M <= D
    ensures FullCode(lens, D)
    ensures forall n: nat {:trigger Start(lens, D, n)} | n <= D :: Start(lens, D, n) == Start(lens, M, n)
    ensures forall s: nat {:trigger ValueOf(lens, D, s)} | s < |lens| :: ValueOf(lens, D, s) == ValueOf(lens, M, s)
  {
    hide CodeKraft, Start;
    WiderKraft(lens, M, D);
    Pow2IsShl(M, D - M);
    forall n: nat | n <= D ensures Start(lens, D, n) == Start(lens, M, n) { WiderStart(lens, M, D, n); }
  }

  /** The cell of the first `M` bits of a string, seen as a cell for strings of `D` bits. */
  lemma {:induction false} WiderCell(c: DEltX1, lens: seq<nat>, M: nat, D: nat, x: nat)
    requires FullCode(lens, M) && M <= D && CellX1(c, lens, M, Shr(x, D - M))
    ensures CellX1(c, lens, D, x)
  {
    hide FullCode, ValueOf, Shr;
    WiderCode(lens, M, D);
    ShrShr(x, D - M, M - lens[c.symbol]);
  }

  /**
    The double-symbol table refines the single-symbol one, which is built for the height of the code and so may
    be for shorter strings: a cell stands for one step of it, or for two steps, the second on the bits after the
    first code, whatever follows them; two exactly if both codes fit.
   */
  lemma {:induction false} RefinesX1(dt1: seq<DEltX1>, dt2: seq<DEltX2>, lens: seq<nat>, M: nat, D: nat, x: nat, z: nat)
    requires FullCode(lens, M) && M <= D && TableX1(dt1, lens, M) && TableX2(dt2, lens, D) && x < Pow2(D) && z < Pow2(D)
    requires Shr(x, D - M) < |dt1| && Shr(z, D - M) < |dt1|
    requires var l := dt1[Shr(x, D - M)].nbBits; l <= D && Shr(z, l) == Low(x, D - l)
    ensures var c, one, next := dt2[x], dt1[Shr(x, D - M)], dt1[Shr(z, D - M)];
            && c.first == one.symbol
            && c.length == (if one.nbBits + next.nbBits <= D then 2 else 1)
            && (c.length == 1 ==> c.nbBits == one.nbBits)
            && (c.length == 2 ==> c.second == next.symbol && c.nbBits == one.nbBits + next.nbBits)
  {
    hide FullCode, Shr, Low, Pow2, CellX1, CellX2;
    var one, next := dt1[Shr(x, D - M)], dt1[Shr(z, D - M)];
    assert CellX1(one, lens, M, Shr(x, D - M)) && CellX1(next, lens, M, Shr(z, D - M)) && CellX2(dt2[x], lens, D, x);
    WiderCell(one, lens, M, D, x);
    WiderCell(next, lens, M, D, z);
    WiderCode(lens, M, D);
    RefinesCell(one, next, dt2[x], lens, D, x, z);
  }

  // ---------- symbols by weight ----------

  /** Number of symbols with more than `n` bits. */
  function Longer(lens: seq<nat>, M: nat, n: nat): nat
    decreases M - n
  {
    if n >= M then 0 else Longer(lens, M, n + 1) + NbOf(lens, n + 1, |lens|)
  }

  /** Place of symbol `s` in the list of symbols, longest code first. */
  ghost predicate AtPlace(lens: seq<nat>, M: nat, s: nat, k: nat) {
    s < |lens| && 0 < lens[s] <= M && k == Longer(lens, M, lens[s]) + NbOf(lens, lens[s], s)
  }

  /** The symbols in use, by weight, then by symbol. */
  ghost predicate SortedList(list: seq<SortedSymbol>, lens: seq<nat>, M: nat) {
    && |list| == Longer(lens, M, 0)
    && forall k: nat {:trigger list[k]} | k < |list| ::
         AtPlace(lens, M, list[k].symbol, k) && list[k].weight == M + 1 - lens[list[k].symbol]
  }

  lemma {:induction false} LongerMono(lens: seq<nat>, M: nat, a: nat, b: nat)
    requires a <= b
    ensures Longer(lens, M, b) <= Longer(lens, M, a)
    ensures a < b <= M ==> Longer(lens, M, b) + NbOf(lens, b, |lens|) <= Longer(lens, M, a)
    decreases b - a
  {
    if a < b && a < M { LongerMono(lens, M, a + 1, b); }
  }

  lemma {:induction false} PlaceBounds(lens: seq<nat>, M: nat, s: nat, k: nat)
    requires AtPlace(lens, M, s, k)
    ensures Longer(lens, M, lens[s]) <= k < Longer(lens, M, lens[s]) + NbOf(lens, lens[s], |lens|) <= Longer(lens, M, 0)
  {
    NbMono(lens, lens[s], s + 1, |lens|);
    LongerMono(lens, M, 0, lens[s]);
  }

  /** No two symbols have the same place. */
  lemma {:induction false} PlaceDistinct(lens: seq<nat>, M: nat, s: nat, t: nat, k: nat)
    requires AtPlace(lens, M, s, k) && AtPlace(lens, M, t, k)
    ensures s == t
  {
    PlaceBounds(lens, M, s, k);
    PlaceBounds(lens, M, t, k);
    if lens[s] < lens[t] { LongerMono(lens, M, lens[s], lens[t]); }
    if lens[t] < lens[s] { LongerMono(lens, M, lens[t], lens[s]); }
    if s < t { NbMono(lens, lens[s], s + 1, t); }
    if t < s { NbMono(lens, lens[s], t + 1, s); }
  }

  /** The symbol at a place. */
  lemma {:induction false} PlaceTaken(lens: seq<nat>, M: nat, k: nat, n: nat) returns (s: nat)
    requires Longer(lens, M, M) <= k < Longer(lens, M, n) && n <= M
    ensures AtPlace(lens, M, s, k)
    decreases M - n
  {
    if k < Longer(lens, M, n + 1) {
      s := PlaceTaken(lens, M, k, n + 1);
    } else {
      s := SymbolAt(lens, n + 1, k - Longer(lens, M, n + 1), |lens|);
    }
  }

  /** Every symbol in use is in the list. */
  lemma {:induction false} Listed(list: seq<SortedSymbol>, lens: seq<nat>, M: nat, s: nat) returns (k: nat)
    requires SortedList(list, lens, M) && s < |lens| && 0 < lens[s] <= M
    ensures k < |list| && list[k].symbol == s && k >= Longer(lens, M, lens[s])
  {
    k := Longer(lens, M, lens[s]) + NbOf(lens, lens[s], s);
    PlaceBounds(lens, M, s, k);
    PlaceDistinct(lens, M, s, list[k].symbol, k);
  }

  /** How many symbols of `n` bits are among the first `k` of the list. */
  function Passed(lens: seq<nat>, M: nat, n: nat, k: nat): nat {
    if k <= Longer(lens, M, n) then 0
    else if k - Longer(lens, M, n) >= NbOf(lens, n, |lens|) then NbOf(lens, n, |lens|)
    else k - Longer(lens, M, n)
  }

  lemma {:induction false} PassedNext(lens: seq<nat>, M: nat, s: nat, k: nat, n: nat)
    requires AtPlace(lens, M, s, k) && 0 < n <= M
    ensures Passed(lens, M, lens[s], k) == NbOf(lens, lens[s], s)
    ensures Passed(lens, M, n, k + 1) == Passed(lens, M, n, k) + (if n == lens[s] then 1 else 0)
  {
    hide Longer, NbOf;
    PlaceBounds(lens, M, s, k);
    if lens[s] < n { LongerMono(lens, M, lens[s], n); }
    if n < lens[s] { LongerMono(lens, M, n, lens[s]); }
  }

  /** Largest weight in use, up to `w`. */
  function TopBelow(lens: seq<nat>, M: nat, w: nat): (top: nat)
    ensures top <= w
  {
    if w == 0 || w > M || NbOf(lens, M + 1 - w, |lens|) > 0 then w else TopBelow(lens, M, w - 1)
  }

  /** Weight of the shortest codes. */
  function Top(lens: seq<nat>, M: nat): (top: nat)
    ensures top <= M
  {
    TopBelow(lens, M, M)
  }

  lemma {:induction false} TopBound(lens: seq<nat>, M: nat, s: nat, w: nat)
    requires s < |lens| && 0 < lens[s] <= M && M + 1 - lens[s] <= w <= M
    ensures M + 1 - lens[s] <= TopBelow(lens, M, w)
  {
    if w == M + 1 - lens[s] {
      NbMono(lens, lens[s], s + 1, |lens|);
    } else {
      TopBound(lens, M, s, w - 1);
    }
  }

  // ---------- where the next symbols start ----------

  /** Where the next symbol of weight `w` starts in a table of `width` bits, after `k` symbols of the list. */
  ghost predicate RankIs(rankVal: seq<nat>, lens: seq<nat>, D: nat, M: nat, width: nat, k: nat, w: nat) {
    1 <= w <= M && w < |rankVal| && M + 1 - w <= width
    && rankVal[w] == Shl(Start(lens, D, M + 1 - w) + Passed(lens, M, M + 1 - w, k), width - (M + 1 - w))
  }

  ghost predicate Ranks(rankVal: seq<nat>, lens: seq<nat>, D: nat, M: nat, width: nat, minWeight: nat, k: nat) {
    |rankVal| > M && forall w: nat | 1 <= w && minWeight <= w <= Top(lens, M) :: RankIs(rankVal, lens, D, M, width, k, w)
  }

  lemma {:induction false} RanksNext(rankVal: seq<nat>, lens: seq<nat>, D: nat, M: nat, width: nat, minWeight: nat, s: nat, k: nat)
    requires Ranks(rankVal, lens, D, M, width, minWeight, k) && AtPlace(lens, M, s, k) && M + 1 - lens[s] >= minWeight
    ensures var w := M + 1 - lens[s];
            1 <= w < |rankVal| && 0 < lens[s] <= width && rankVal[w] == Shl(ValueOf(lens, D, s), width - lens[s])
            && Ranks(rankVal[w := rankVal[w] + Pow2(width - lens[s])], lens, D, M, width, minWeight, k + 1)
  {
    hide Longer, NbOf, Passed, Start, Shl, Pow2, TopBelow;
    var w := M + 1 - lens[s];
    TopBound(lens, M, s, M);
    PassedNext(lens, M, s, k, lens[s]);
    assert RankIs(rankVal, lens, D, M, width, k, w);
    var after := rankVal[w := rankVal[w] + Pow2(width - lens[s])];
    ShlAdd(Start(lens, D, lens[s]) + Passed(lens, M, lens[s], k), 1, width - lens[s]);
    ShlOne(width - lens[s]);
    var k': nat := k + 1;
    forall v: nat | 1 <= v && minWeight <= v <= Top(lens, M) ensures RankIs(after, lens, D, M, width, k', v) {
      assert RankIs(rankVal, lens, D, M, width, k, v);
      PassedNext(lens, M, s, k, M + 1 - v);
    }
  }

  /** The strings that continue with the code of `t`. */
  lemma {:induction false} ShrIs(x: nat, k: nat, v: nat)
    ensures Shr(x, k) == v <==> Shl(v, k) <= x < Shl(v, k) + Pow2(k)
  {
    var q := Shr(x, k);
    Split(x, k);
    ShlOne(k);
    if q < v {
      ShlMono(q + 1, v, k);
      ShlAdd(q, 1, k);
    }
    if q > v {
      ShlMono(v + 1, q, k);
      ShlAdd(v, 1, k);
    }
  }

  lemma {:induction false} NextMatches(lens: seq<nat>, D: nat, c: nat, y: nat, t: nat)
    requires c <= D && t < |lens| && 0 < lens[t] <= D - c
    ensures var v := Shl(ValueOf(lens, D, t), D - c - lens[t]);
            Matches(lens, D, Shl(y, c), t) <==> v <= y < v + Pow2(D - c - lens[t])
  {
    ShrShlSame(y, c);
    ShrShr(Shl(y, c), c, D - c - lens[t]);
    ShrIs(y, D - c - lens[t], ValueOf(lens, D, t));
  }

  /** Below the first value of `D` - `c` bits no code fits. */
  lemma {:induction false} NoneFits(lens: seq<nat>, D: nat, c: nat, y: nat, t: nat)
    requires FullCode(lens, D) && c <= D && y < Start(lens, D, D - c) && Matches(lens, D, Shl(y, c), t)
    ensures lens[t] > D - c
  {
    ShrShlSame(y, c);
    if lens[t] < D - c { ReachedBefore(lens, D, Shl(y, c), lens[t], D - c); }
  }

  /** From there on one does. */
  lemma {:induction false} OneFits(lens: seq<nat>, D: nat, c: nat, y: nat) returns (t: nat)
    requires FullCode(lens, D) && c <= D && Start(lens, D, D - c) <= y < Pow2(D - c)
    ensures Matches(lens, D, Shl(y, c), t) && lens[t] <= D - c
  {
    ShrShlSame(y, c);
    ShlBound(y, D - c, c);
    t := SearchLength(lens, D, Shl(y, c), D - c);
  }

  // ---------- the cells of one first symbol ----------

  /** The cells of the second symbols `list[from..k]` are filled. */
  ghost predicate Pairs(a: seq<DEltX2>, base: nat, lens: seq<nat>, D: nat, s: nat, list: seq<SortedSymbol>, from: nat, k: nat)
    requires s < |lens| && lens[s] <= D && base + Pow2(D - lens[s]) <= |a| && k <= |list|
  {
    forall x: nat, j: nat {:trigger a[x], list[j]}
      | base <= x < base + Pow2(D - lens[s]) && from <= j < k && Matches(lens, D, Shl(x - base, lens[s]), list[j].symbol) ::
      a[x] == DEltX2(s, list[j].symbol, lens[s] + lens[list[j].symbol], 2)
  }

  /** The first `skip` cells are for the first symbol alone. */
  ghost predicate Singles(a: seq<DEltX2>, base: nat, skip: nat, s: nat, nbBits: nat) {
    base + skip <= |a| && forall x: nat {:trigger a[x]} | base <= x < base + skip :: a[x] == DEltX2(s, 0, nbBits, 1)
  }

  ghost predicate FilledRange(a: seq<DEltX2>, a': seq<DEltX2>, from: nat, to: nat, cell: DEltX2) {
    |a| == |a'| && forall x: nat {:trigger a'[x]} | x < |a'| :: a'[x] == if from <= x < to then cell else a[x]
  }

  ghost predicate SameOutside(a: seq<DEltX2>, a': seq<DEltX2>, from: nat, to: nat) {
    |a| == |a'| && forall x: nat {:trigger a'[x]} | x < |a'| && !(from <= x < to) :: a'[x] == a[x]
  }

  method FillX2(dt: array<DEltX2>, from: nat, to: nat, cell: DEltX2)
    requires from <= to <= dt.Length
    modifies dt
    ensures FilledRange(old(dt[..]), dt[..], from, to, cell)
  {
    for u := from to to
      invariant forall x: nat {:trigger dt[x]} | x < dt.Length :: dt[x] == if from <= x < u then cell else old(dt[x])
    {
      dt[u] := cell;
    }
  }

  lemma {:induction false} PairNext(a: seq<DEltX2>, a': seq<DEltX2>, base: nat, lens: seq<nat>, D: nat, s: nat,
                                    list: seq<SortedSymbol>, from: nat, k: nat)
    requires FullCode(lens, D) && s < |lens| && 0 < lens[s] <= D && base + Pow2(D - lens[s]) <= |a| && k < |list|
    requires Pairs(a, base, lens, D, s, list, from, k) && Singles(a, base, Start(lens, D, D - lens[s]), s, lens[s])
    requires var t := list[k].symbol; t < |lens| && 0 < lens[t] <= D - lens[s]
    requires var t, n := list[k].symbol, D - lens[s] - lens[list[k].symbol];
             var v := base + Shl(ValueOf(lens, D, t), n);
             FilledRange(a, a', v, v + Pow2(n), DEltX2(s, t, lens[s] + lens[t], 2))
    ensures |a'| == |a| && Pairs(a', base, lens, D, s, list, from, k + 1)
    ensures Singles(a', base, Start(lens, D, D - lens[s]), s, lens[s])
  {
    hide FullCode, Start, ValueOf, Shl, Pow2, Matches;
    var t := list[k].symbol;
    forall x: nat | base <= x < base + Start(lens, D, D - lens[s]) ensures a'[x] == a[x] {
      NextMatches(lens, D, lens[s], x - base, t);
      if Matches(lens, D, Shl(x - base, lens[s]), t) { NoneFits(lens, D, lens[s], x - base, t); }
    }
    forall x: nat, j: nat {:trigger a'[x], list[j]}
      | base <= x < base + Pow2(D - lens[s]) && from <= j < k + 1 && Matches(lens, D, Shl(x - base, lens[s]), list[j].symbol)
      ensures MatchedSymbol(lens, D, list[j].symbol) && a'[x] == DEltX2(s, list[j].symbol, lens[s] + lens[list[j].symbol], 2)
    {
      HasCode(lens, D, Shl(x - base, lens[s]), list[j].symbol);
      NextMatches(lens, D, lens[s], x - base, t);
      if Matches(lens, D, Shl(x - base, lens[s]), t) {
        DecodeUnique(lens, D, Shl(x - base, lens[s]), list[j].symbol, t);
      } else {
        assert a'[x] == a[x];
      }
    }
  }

  ghost predicate MatchedSymbol(lens: seq<nat>, D: nat, s: nat) {
    s < |lens| && 0 < lens[s] <= D
  }

  lemma {:induction false} HasCode(lens: seq<nat>, D: nat, x: nat, s: nat)
    requires Matches(lens, D, x, s)
    ensures MatchedSymbol(lens, D, s)
  {
  }

  /** All second symbols filled: every cell of the first symbol is right. */
  lemma {:induction false} SecondsDone(a: seq<DEltX2>, base: nat, lens: seq<nat>, D: nat, M: nat, s: nat, list: seq<SortedSymbol>, from: nat)
    requires FullCode(lens, D) && s < |lens| && 0 < lens[s] <= D && base + Pow2(D - lens[s]) <= |a|
    requires SortedList(list, lens, M) && AtMost(lens, M) && from <= Longer(lens, M, D - lens[s])
    requires Pairs(a, base, lens, D, s, list, from, |list|) && Singles(a, base, Start(lens, D, D - lens[s]), s, lens[s])
    ensures forall x: nat {:trigger a[x]} | base <= x < base + Pow2(D - lens[s]) :: Second(a[x], lens, D, s, x - base)
  {
    hide FullCode, SortedList, Longer, Start, Shl, Pow2;
    forall x: nat | base <= x < base + Pow2(D - lens[s]) ensures Second(a[x], lens, D, s, x - base) {
      var y: nat := x - base;
      var next := Shl(y, lens[s]);
      if y < Start(lens, D, D - lens[s]) {
        forall t: nat {:trigger Matches(lens, D, next, t)} | Matches(lens, D, next, t) ensures lens[s] + lens[t] > D {
          NoneFits(lens, D, lens[s], y, t);
        }
      } else {
        var t := OneFits(lens, D, lens[s], y);
        var k := Listed(list, lens, M, t);
        LongerMono(lens, M, lens[t], D - lens[s]);
      }
    }
  }

  // ---------- HUF_fillDTableX2Level2 ----------

  /** A list whose first symbol with a code of at most `width` bits is at `from`. */
  ghost predicate StartsAt(list: seq<SortedSymbol>, lens: seq<nat>, M: nat, width: nat, from: nat) {
    SortedList(list, lens, M) && AtMost(lens, M) && from == Longer(lens, M, width) && from <= |list|
  }

  lemma {:induction false} FromBelow(lens: seq<nat>, M: nat, width: nat, k: nat, s: nat)
    requires AtPlace(lens, M, s, k) && k >= Longer(lens, M, width)
    ensures lens[s] <= width
  {
    PlaceBounds(lens, M, s, k);
    if lens[s] > width { LongerMono(lens, M, width, lens[s]); }
  }

  /** The first cells of a table of `width` bits belong to longer codes. */
  lemma {:induction false} SkipSize(rankVal: seq<nat>, lens: seq<nat>, D: nat, M: nat, width: nat, minWeight: nat, from: nat)
    requires Ranks(rankVal, lens, D, M, width, minWeight, from) && AtMost(lens, M) && from == Longer(lens, M, width) && M <= D
    requires 1 <= minWeight <= Top(lens, M) && (minWeight == 1 || M + 1 - minWeight == width)
    ensures minWeight > 1 ==> rankVal[minWeight] == Start(lens, D, width)
    ensures minWeight == 1 && width >= M ==> Start(lens, D, width) == 0
  {
    hide Longer, NbOf;
    assert RankIs(rankVal, lens, D, M, width, from, minWeight);
    assert Shl(Start(lens, D, width), 0) == Start(lens, D, width);
    if width >= M && width <= D { WiderStart(lens, M, D, width); }
  }

  /** One second symbol: its cells, and the start of the next one of its weight. */
  lemma {:induction false} SecondStep(rankVal: seq<nat>, list: seq<SortedSymbol>, lens: seq<nat>, D: nat, M: nat, width: nat,
                                      minWeight: nat, from: nat, k: nat)
    requires FullCode(lens, D) && StartsAt(list, lens, M, width, from) && from <= k < |list| && width <= D
    requires Ranks(rankVal, lens, D, M, width, minWeight, k) && 1 <= minWeight && (minWeight == 1 || M + 1 - minWeight == width)
    ensures var t, w := list[k].symbol, list[k].weight;
            t < |lens| && 0 < lens[t] <= width && w == M + 1 - lens[t] && w < |rankVal|
            && rankVal[w] == Shl(ValueOf(lens, D, t), width - lens[t])
            && rankVal[w] + Pow2(width - lens[t]) <= Pow2(width)
            && Ranks(rankVal[w := rankVal[w] + Pow2(width - lens[t])], lens, D, M, width, minWeight, k + 1)
  {
    hide FullCode, Ranks, Longer, NbOf, Shl, Pow2, ValueOf;
    var t := list[k].symbol;
    FromBelow(lens, M, width, k, t);
    RanksNext(rankVal, lens, D, M, width, minWeight, t, k);
    ValueFits(lens, D, t);
    ShlBound(ValueOf(lens, D, t), lens[t], width - lens[t]);
    ShlAdd(ValueOf(lens, D, t), 1, width - lens[t]);
    ShlOne(width - lens[t]);
  }

  lemma {:induction false} OutsideStep(a0: seq<DEltX2>, a: seq<DEltX2>, a': seq<DEltX2>, from: nat, to: nat, p: nat, q: nat, cell: DEltX2)
    requires SameOutside(a0, a, from, to) && FilledRange(a, a', p, q, cell) && from <= p && q <= to
    ensures SameOutside(a0, a', from, to)
  {
  }

  /** What the second level writes: all the cells of the first symbol `s`. */
  ghost predicate SecondLevel(a: seq<DEltX2>, a': seq<DEltX2>, lens: seq<nat>, D: nat, s: nat, base: nat)
    requires s < |lens| && lens[s] <= D
  {
    && base + Pow2(D - lens[s]) <= |a'| && SameOutside(a, a', base, base + Pow2(D - lens[s]))
    && forall x: nat {:trigger a'[x]} | base <= x < base + Pow2(D - lens[s]) :: Second(a'[x], lens, D, s, x - base)
  }

  lemma {:induction false} SkippedFirst(a: seq<DEltX2>, a': seq<DEltX2>, lens: seq<nat>, D: nat, M: nat, s: nat, base: nat,
                                        list: seq<SortedSymbol>, from: nat)
    requires FullCode(lens, D) && s < |lens| && 0 < lens[s] <= D && base + Pow2(D - lens[s]) <= |a| && from <= |list|
    requires FilledRange(a, a', base, base + Start(lens, D, D - lens[s]), DEltX2(s, 0, lens[s], 1))
    ensures Start(lens, D, D - lens[s]) <= Pow2(D - lens[s])
    ensures SecondsSoFar(a, a', base, lens, D, s, list, from, from)
  {
    hide FullCode, Pow2, CodeKraft, Start;
    StartDouble(lens, D, D - lens[s]);
  }

  method CopyRanks(origin: seq<nat>) returns (rankVal: array<nat>)
    ensures fresh(rankVal) && rankVal[..] == origin
  {
    rankVal := new nat[|origin|](w requires 0 <= w < |origin| => origin[w]);
  }

  /** The cells of the second symbol `list[k]`. */
  method SecondSymbol(dt: array<DEltX2>, base: nat, start: nat, length: nat, cell: DEltX2, ghost before: seq<DEltX2>,
                      ghost list: seq<SortedSymbol>, ghost from: nat, ghost k: nat, ghost lens: seq<nat>, ghost D: nat)
    requires FullCode(lens, D) && cell.first < |lens| && 0 < lens[cell.first] <= D && from <= k < |list|
    requires var s, t := cell.first, list[k].symbol;
             t < |lens| && 0 < lens[t] <= D - lens[s] && cell == DEltX2(s, t, lens[s] + lens[t], 2)
             && length == Pow2(D - lens[s] - lens[t]) && start == Shl(ValueOf(lens, D, t), D - lens[s] - lens[t])
             && start + length <= Pow2(D - lens[s])
    requires SecondsSoFar(before, dt[..], base, lens, D, cell.first, list, from, k)
    modifies dt
    ensures SecondsSoFar(before, dt[..], base, lens, D, cell.first, list, from, k + 1)
  {
    assert base + Pow2(D - lens[cell.first]) <= dt.Length;
    hide *;
    ghost var cells := dt[..];
    FillX2(dt, base + start, base + start + length, cell);
    SoFarNext(before, cells, dt[..], base, lens, D, cell.first, list, from, k);
  }

  /** The second symbols `list[from..k]` are in place, and so are the cells for the first symbol alone. */
  ghost predicate SecondsSoFar(before: seq<DEltX2>, a: seq<DEltX2>, base: nat, lens: seq<nat>, D: nat, s: nat,
                               list: seq<SortedSymbol>, from: nat, k: nat)
  {
    && s < |lens| && 0 < lens[s] <= D && base + Pow2(D - lens[s]) <= |a| && k <= |list|
    && SameOutside(before, a, base, base + Pow2(D - lens[s]))
    && Singles(a, base, Start(lens, D, D - lens[s]), s, lens[s]) && Pairs(a, base, lens, D, s, list, from, k)
  }

  lemma {:induction false} SoFarNext(before: seq<DEltX2>, a: seq<DEltX2>, a': seq<DEltX2>, base: nat, lens: seq<nat>, D: nat, s: nat,
                                     list: seq<SortedSymbol>, from: nat, k: nat)
    requires FullCode(lens, D) && k < |list| && SecondsSoFar(before, a, base, lens, D, s, list, from, k)
    requires var t := list[k].symbol;
             t < |lens| && 0 < lens[t] <= D - lens[s]
             && (var v, n := base + Shl(ValueOf(lens, D, t), D - lens[s] - lens[t]), D - lens[s] - lens[t];
                 v + Pow2(n) <= base + Pow2(D - lens[s]) && FilledRange(a, a', v, v + Pow2(n), DEltX2(s, t, lens[s] + lens[t], 2)))
    ensures SecondsSoFar(before, a', base, lens, D, s, list, from, k + 1)
  {
    hide FullCode, SameOutside, FilledRange, Singles, Pairs, Shl, ValueOf, Start, Pow2;
    var t := list[k].symbol;
    var v, n := base + Shl(ValueOf(lens, D, t), D - lens[s] - lens[t]), D - lens[s] - lens[t];
    OutsideStep(before, a, a', base, base + Pow2(D - lens[s]), v, v + Pow2(n), DEltX2(s, t, lens[s] + lens[t], 2));
    PairNext(a, a', base, lens, D, s, list, from, k);
  }

  lemma {:induction false} SoFarDone(before: seq<DEltX2>, a: seq<DEltX2>, base: nat, lens: seq<nat>, D: nat, M: nat, s: nat,
                                     list: seq<SortedSymbol>, from: nat)
    requires FullCode(lens, D) && StartsAt(list, lens, M, D - (if s < |lens| && lens[s] <= D then lens[s] else 0), from)
    requires SecondsSoFar(before, a, base, lens, D, s, list, from, |list|)
    ensures SecondLevel(before, a, lens, D, s, base)
  {
    hide FullCode, SortedList, Singles, Pairs, SameOutside, Pow2, Start;
    SecondsDone(a, base, lens, D, M, s, list, from);
  }

  /** One round of the second level: the cells of `list[k]`, and the start of the next symbol of its weight. */
  method NextSecond(dt: array<DEltX2>, base: nat, sizeLog: nat, consumed: nat, rankVal: array<nat>, second: SortedSymbol, nbBitsBaseline: nat,
                    baseSeq: nat, ghost minWeight: nat, ghost before: seq<DEltX2>, ghost list: seq<SortedSymbol>, ghost from: nat, ghost k: nat,
                    ghost lens: seq<nat>, ghost D: nat, ghost M: nat)
    requires FullCode(lens, D) && baseSeq < |lens| && 0 < lens[baseSeq] == consumed && consumed + sizeLog == D && nbBitsBaseline == M + 1
    requires StartsAt(list, lens, M, sizeLog, from) && from <= k < |list| && second == list[k]
    requires 1 <= minWeight && (minWeight == 1 || M + 1 - minWeight == sizeLog)
    requires Ranks(rankVal[..], lens, D, M, sizeLog, minWeight, k) && SecondsSoFar(before, dt[..], base, lens, D, baseSeq, list, from, k)
    modifies dt, rankVal
    ensures Ranks(rankVal[..], lens, D, M, sizeLog, minWeight, k + 1) && SecondsSoFar(before, dt[..], base, lens, D, baseSeq, list, from, k + 1)
  {
    hide *;
    SecondStep(rankVal[..], list, lens, D, M, sizeLog, minWeight, from, k);
    var nbBits := nbBitsBaseline - second.weight;
    var length := Pow2(sizeLog - nbBits);
    var start := rankVal[second.weight];
    ghost var ranks := rankVal[..];
    SecondSymbol(dt, base, start, length, DEltX2(baseSeq, second.symbol, nbBits + consumed, 2), before, list, from, k, lens, D);
    rankVal[second.weight] := start + length;
    assert rankVal[..] == ranks[second.weight := start + length];
  }

  /** HUF_fillDTableX2Level2, for the first symbol `baseSeq`, whose code has `consumed` bits. */
  method FillLevel2(dt: array<DEltX2>, base: nat, sizeLog: nat, consumed: nat, rankValOrigin: seq<nat>, minWeight: nat,
                    sortedSymbols: seq<SortedSymbol>, nbBitsBaseline: nat, baseSeq: nat,
                    ghost list: seq<SortedSymbol>, ghost from: nat, ghost lens: seq<nat>, ghost D: nat, ghost M: nat)
    requires FullCode(lens, D) && baseSeq < |lens| && 0 < lens[baseSeq] == consumed && consumed + sizeLog == D && M <= D
    requires base + Pow2(sizeLog) <= dt.Length && nbBitsBaseline == M + 1
    requires StartsAt(list, lens, M, sizeLog, from) && sortedSymbols == list[from..]
    requires 1 <= minWeight <= Top(lens, M) && M + 1 - minWeight == (if sizeLog < M then sizeLog else M)
    requires Ranks(rankValOrigin, lens, D, M, sizeLog, minWeight, from)
    modifies dt
    ensures SecondLevel(old(dt[..]), dt[..], lens, D, baseSeq, base)
  {
    SkipSize(rankValOrigin, lens, D, M, sizeLog, minWeight, from);
    hide *;
    StartDouble(lens, D, sizeLog);
    var rankVal := CopyRanks(rankValOrigin);
    ghost var before := dt[..];
    var skipSize := if minWeight > 1 then rankValOrigin[minWeight] else 0;
    FillX2(dt, base, base + skipSize, DEltX2(baseSeq, 0, consumed, 1));
    SkippedFirst(before, dt[..], lens, D, M, baseSeq, base, list, from);
    for s := 0 to |sortedSymbols|
      invariant Ranks(rankVal[..], lens, D, M, sizeLog, minWeight, from + s)
      invariant SecondsSoFar(before, dt[..], base, lens, D, baseSeq, list, from, from + s)
    {
      NextSecond(dt, base, sizeLog, consumed, rankVal, sortedSymbols[s], nbBitsBaseline, baseSeq, minWeight, before, list,
                 from, from + s, lens, D, M);
    }
    SoFarDone(before, dt[..], base, lens, D, M, baseSeq, list, from);
  }

  // ---------- HUF_fillDTableX2 ----------

  /** The cells of the first `k` symbols of the list are filled. */
  ghost predicate FilledX2(a: seq<DEltX2>, lens: seq<nat>, D: nat, list: seq<SortedSymbol>, k: nat)
    requires k <= |list|
  {
    forall x: nat, j: nat {:trigger a[x], list[j]} | x < |a| && j < k && Matches(lens, D, x, list[j].symbol) :: CellX2(a[x], lens, D, x)
  }

  /** The cells of one first symbol. */
  lemma {:induction false} FirstStep(a: seq<DEltX2>, a': seq<DEltX2>, lens: seq<nat>, D: nat, list: seq<SortedSymbol>, k: nat)
    requires FullCode(lens, D) && k < |list| && FilledX2(a, lens, D, list, k)
    requires var s := list[k].symbol;
             s < |lens| && 0 < lens[s] <= D && SecondLevel(a, a', lens, D, s, Shl(ValueOf(lens, D, s), D - lens[s]))
    ensures |a'| == |a| && FilledX2(a', lens, D, list, k + 1)
  {
    hide FullCode, ValueOf, Shl, Pow2, Matches, Second;
    var s := list[k].symbol;
    var base := Shl(ValueOf(lens, D, s), D - lens[s]);
    forall x: nat, j: nat {:trigger a'[x], list[j]} | x < |a'| && j < k + 1 && Matches(lens, D, x, list[j].symbol)
      ensures CellX2(a'[x], lens, D, x)
    {
      InCells(lens, D, s, x);
      if Matches(lens, D, x, s) {
        LowOf(x, base, D - lens[s], ValueOf(lens, D, s));
        IsCell(a'[x], lens, D, s, x);
      } else {
        assert a'[x] == a[x];
      }
    }
  }

  lemma {:induction false} IsCell(c: DEltX2, lens: seq<nat>, D: nat, s: nat, x: nat)
    requires Matches(lens, D, x, s) && Second(c, lens, D, s, Low(x, D - lens[s]))
    ensures CellX2(c, lens, D, x)
  {
  }

  lemma {:induction false} InCells(lens: seq<nat>, D: nat, s: nat, x: nat)
    requires s < |lens| && 0 < lens[s] <= D
    ensures var base := Shl(ValueOf(lens, D, s), D - lens[s]);
            Matches(lens, D, x, s) <==> base <= x < base + Pow2(D - lens[s])
  {
    ShrIs(x, D - lens[s], ValueOf(lens, D, s));
  }

  lemma {:induction false} LowOf(x: nat, base: nat, n: nat, v: nat)
    requires base == Shl(v, n) && base <= x < base + Pow2(n)
    ensures Low(x, n) == x - base
  {
    Join(x - base, v, n);
  }

  /** No room for a second symbol. */
  lemma {:induction false} AloneStep(a: seq<DEltX2>, a': seq<DEltX2>, lens: seq<nat>, D: nat, s: nat, base: nat, minBits: nat)
    requires s < |lens| && 0 < lens[s] <= D && base + Pow2(D - lens[s]) <= |a| && D - lens[s] < minBits
    requires forall t: nat {:trigger lens[t]} | t < |lens| && lens[t] > 0 :: lens[t] >= minBits
    requires FilledRange(a, a', base, base + Pow2(D - lens[s]), DEltX2(s, 0, lens[s], 1))
    ensures SecondLevel(a, a', lens, D, s, base)
  {
    hide Pow2, Shl, ValueOf;
  }

  /** The whole list: every cell. */
  lemma {:induction false} FirstsDone(a: seq<DEltX2>, lens: seq<nat>, D: nat, M: nat, list: seq<SortedSymbol>)
    requires FullCode(lens, D) && AtMost(lens, M) && SortedList(list, lens, M) && |a| == Pow2(D)
    requires FilledX2(a, lens, D, list, |list|)
    ensures TableX2(a, lens, D)
  {
    hide FullCode, Pow2, SortedList, CellX2;
    forall x: nat {:trigger a[x]} | x < |a| ensures CellX2(a[x], lens, D, x) {
      var s := DecodeExists(lens, D, x);
      var k := Listed(list, lens, M, s);
    }
  }

  /** What HUF_readDTableX2_wksp prepares: the sorted list, where each weight starts in it, and in the tables of every size. */
  ghost predicate Prepared(list: seq<SortedSymbol>, rankStart0: seq<nat>, rankVal: seq<seq<nat>>, lens: seq<nat>, D: nat, M: nat, minBits: nat) {
    && SortedList(list, lens, M) && AtMost(lens, M) && 1 <= minBits <= M <= D && minBits == M + 1 - Top(lens, M)
    && |rankStart0| > M && (forall w: nat {:trigger rankStart0[w]} | 1 <= w <= Top(lens, M) :: rankStart0[w] == Longer(lens, M, M + 1 - w))
    && |rankVal| > D - minBits && Ranks(rankVal[0], lens, D, M, D, 1, 0)
    && (forall c: nat {:trigger rankVal[c]} | minBits <= c <= D - minBits :: OriginRanks(rankVal[c], lens, D, M, c))
  }

  /** Starting cells in the table of the bits after a code of `c` bits. */
  ghost predicate OriginRanks(ranks: seq<nat>, lens: seq<nat>, D: nat, M: nat, c: nat) {
    c < D && Ranks(ranks, lens, D, M, D - c, MinWeight(D, M, c), Longer(lens, M, D - c))
  }

  /** Smallest weight of which the codes fit after `c` bits. */
  function MinWeight(D: nat, M: nat, c: nat): nat {
    if c + M + 1 <= D + 1 then 1 else c + M + 1 - D
  }

  lemma {:induction false} PreparedSizes(list: seq<SortedSymbol>, rankStart0: seq<nat>, rankVal: seq<seq<nat>>,
                                         lens: seq<nat>, D: nat, M: nat, minBits: nat)
    requires Prepared(list, rankStart0, rankVal, lens, D, M, minBits)
    ensures |rankVal| > 0 && Ranks(rankVal[0], lens, D, M, D, 1, 0) && StartsAt(list, lens, M, D, 0) && 1 <= M <= D
  {
    hide Ranks, OriginRanks, SortedList;
    assert Longer(lens, M, D) == 0;
  }

  lemma {:induction false} NothingFilled(a: seq<DEltX2>, lens: seq<nat>, D: nat, list: seq<SortedSymbol>)
    ensures FilledX2(a, lens, D, list, 0)
  {
  }

  /** The second level for a code of `c` bits with room after it. */
  lemma {:induction false} PreparedLevel(list: seq<SortedSymbol>, rankStart0: seq<nat>, rankVal: seq<seq<nat>>, lens: seq<nat>, D: nat, M: nat,
                                         minBits: nat, c: nat)
    requires Prepared(list, rankStart0, rankVal, lens, D, M, minBits) && minBits <= c <= D - minBits
    ensures var minWeight := MinWeight(D, M, c);
            && c < |rankVal| && 1 <= minWeight <= Top(lens, M) && minWeight < |rankStart0|
            && M + 1 - minWeight == (if D - c < M then D - c else M)
            && StartsAt(list, lens, M, D - c, rankStart0[minWeight])
            && Ranks(rankVal[c], lens, D, M, D - c, minWeight, rankStart0[minWeight])
  {
    hide Ranks, SortedList, TopBelow;
    assert OriginRanks(rankVal[c], lens, D, M, c);
    var minWeight := MinWeight(D, M, c);
    assert rankStart0[minWeight] == Longer(lens, M, M + 1 - minWeight);
    LongerMono(lens, M, 0, D - c);
    assert |list| == Longer(lens, M, 0) by { ListSize(list, lens, M); }
  }

  lemma {:induction false} ListSize(list: seq<SortedSymbol>, lens: seq<nat>, M: nat)
    requires SortedList(list, lens, M)
    ensures |list| == Longer(lens, M, 0)
  {
  }

  lemma {:induction false} PreparedMin(list: seq<SortedSymbol>, rankStart0: seq<nat>, rankVal: seq<seq<nat>>,
                                       lens: seq<nat>, D: nat, M: nat, minBits: nat)
    requires Prepared(list, rankStart0, rankVal, lens, D, M, minBits)
    ensures forall t: nat {:trigger lens[t]} | t < |lens| && lens[t] > 0 :: lens[t] >= minBits
    ensures M <= D && 1 <= minBits
  {
    hide SortedList, Ranks, OriginRanks, TopBelow, Longer;
    forall t: nat {:trigger lens[t]} | t < |lens| && lens[t] > 0 ensures lens[t] >= minBits { TopBound(lens, M, t, M); }
  }

  /** The cells of the strings that start with the code of `symbol`. */
  method FirstSymbol(dt: array<DEltX2>, targetLog: nat, sortedList: seq<SortedSymbol>, rankStart: seq<nat>, rankValOrigin: seq<seq<nat>>,
                     minBits: nat, nbBitsBaseline: nat, symbol: nat, nbBits: nat, start: nat, ghost lens: seq<nat>, ghost M: nat)
    requires FullCode(lens, targetLog) && nbBitsBaseline == M + 1
    requires Prepared(sortedList, rankStart, rankValOrigin, lens, targetLog, M, minBits)
    requires symbol < |lens| && 0 < lens[symbol] == nbBits <= targetLog && start + Pow2(targetLog - nbBits) <= dt.Length
    modifies dt
    ensures SecondLevel(old(dt[..]), dt[..], lens, targetLog, symbol, start)
  {
    PreparedMin(sortedList, rankStart, rankValOrigin, lens, targetLog, M, minBits);
    if targetLog - nbBits >= minBits {
      PreparedLevel(sortedList, rankStart, rankValOrigin, lens, targetLog, M, minBits, nbBits);
      hide *;
      var scaleLog := nbBitsBaseline - targetLog;
      var minWeight := nbBits + scaleLog;
      if minWeight < 1 { minWeight := 1; }
      MinWeightIs(targetLog, M, nbBits, minWeight);
      var sortedRank := rankStart[minWeight];
      StartsIn(sortedList, lens, M, targetLog - nbBits, sortedRank);
      FillLevel2(dt, start, targetLog - nbBits, nbBits, rankValOrigin[nbBits], minWeight, sortedList[sortedRank..],
                 nbBitsBaseline, symbol, sortedList, sortedRank, lens, targetLog, M);
    } else {
      hide *;
      ghost var before := dt[..];
      FillX2(dt, start, start + Pow2(targetLog - nbBits), DEltX2(symbol, 0, nbBits, 1));
      AloneStep(before, dt[..], lens, targetLog, symbol, start, minBits);
    }
  }

  lemma {:induction false} MinWeightIs(D: nat, M: nat, c: nat, minWeight: int)
    requires minWeight == if c + (M + 1 - D) < 1 then 1 else c + (M + 1 - D)
    ensures minWeight == MinWeight(D, M, c)
  {
  }

  lemma {:induction false} StartsIn(list: seq<SortedSymbol>, lens: seq<nat>, M: nat, width: nat, from: nat)
    requires StartsAt(list, lens, M, width, from)
    ensures from <= |list|
  {
    hide SortedList, Longer;
  }

  /** HUF_fillDTableX2. */
  method FillDTableX2(dt: array<DEltX2>, targetLog: nat, sortedList: seq<SortedSymbol>, rankStart: seq<nat>, rankValOrigin: seq<seq<nat>>,
                      maxWeight: nat, nbBitsBaseline: nat, ghost lens: seq<nat>, ghost M: nat)
    requires FullCode(lens, targetLog) && dt.Length == Pow2(targetLog) && nbBitsBaseline == M + 1 && maxWeight <= M
    requires Prepared(sortedList, rankStart, rankValOrigin, lens, targetLog, M, nbBitsBaseline - maxWeight)
    modifies dt
    ensures TableX2(dt[..], lens, targetLog)
  {
    ghost var D := targetLog;
    var minBits := nbBitsBaseline - maxWeight;
    PreparedSizes(sortedList, rankStart, rankValOrigin, lens, D, M, minBits);
    hide *;
    var rankVal := CopyRanks(rankValOrigin[0]);
    NothingFilled(dt[..], lens, D, sortedList);
    for s := 0 to |sortedList|
      invariant Ranks(rankVal[..], lens, D, M, D, 1, s) && FilledX2(dt[..], lens, D, sortedList, s)
    {
      SecondStep(rankVal[..], sortedList, lens, D, M, D, 1, 0, s);
      var symbol, weight := sortedList[s].symbol, sortedList[s].weight;
      var nbBits := nbBitsBaseline - weight;
      var start := rankVal[weight];
      var length := Pow2(targetLog - nbBits);
      ghost var cells, ranks := dt[..], rankVal[..];
      FirstSymbol(dt, targetLog, sortedList, rankStart, rankValOrigin, minBits, nbBitsBaseline, symbol, nbBits, start, lens, M);
      FirstStep(cells, dt[..], lens, D, sortedList, s);
      rankVal[weight] := rankVal[weight] + length;
      assert rankVal[..] == ranks[weight := ranks[weight] + length];
    }
    FirstsDone(dt[..], lens, D, M, sortedList);
  }
}
