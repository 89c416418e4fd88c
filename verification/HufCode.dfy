/**
  Canonical prefix codes. A code is given by the length of every symbol, 0 for a symbol without a code; the
  values follow from the lengths, longest first, then by symbol.
 */
module HufCode {
  import opened Bits
  import opened HufHeight

  // ---------- lengths by symbol ----------

  function CodeWeight(x: nat, M: nat): nat {
    if x == 0 then 0 else Weight(x, M)
  }

  function CodeKraft(lens: seq<nat>, M: nat): nat {
    if |lens| == 0 then 0 else CodeKraft(lens[..|lens| - 1], M) + CodeWeight(lens[|lens| - 1], M)
  }

  /** A complete code of height at most `M`. */
  ghost predicate FullCode(lens: seq<nat>, M: nat) {
    AtMost(lens, M) && CodeKraft(lens, M) == Pow2(M)
  }

  lemma {:induction false} CodeKraftUpdate(lens: seq<nat>, M: nat, i: nat, v: nat)
    requires i < |lens|
    ensures CodeKraft(lens[i := v], M) + CodeWeight(lens[i], M) == CodeKraft(lens, M) + CodeWeight(v, M)
  {
    var n := |lens| - 1;
    if i < n {
      assert lens[i := v][..n] == lens[..n][i := v];
      CodeKraftUpdate(lens[..n], M, i, v);
    } else {
      assert lens[i := v][..n] == lens[..n];
    }
  }

  /** Symbols below `k` whose code has `n` bits. */
  function NbOf(lens: seq<nat>, n: nat, k: nat): nat
    requires k <= |lens|
  {
    if k == 0 then 0 else NbOf(lens, n, k - 1) + (if lens[k - 1] == n then 1 else 0)
  }

  lemma {:induction false} NbMono(lens: seq<nat>, n: nat, a: nat, b: nat)
    requires a <= b <= |lens|
    ensures NbOf(lens, n, a) <= NbOf(lens, n, b)
    decreases b
  {
    if a < b { NbMono(lens, n, a, b - 1); }
  }

  // ---------- canonical values ----------

  /** First value of `n` bits. */
  function Start(lens: seq<nat>, M: nat, n: nat): nat
    decreases M - n
  {
    if n >= M then 0 else Half(Start(lens, M, n + 1) + NbOf(lens, n + 1, |lens|))
  }

  function ValueOf(lens: seq<nat>, M: nat, s: nat): nat
    requires s < |lens|
  {
    Start(lens, M, lens[s]) + NbOf(lens, lens[s], s)
  }

  /** Weight of the codes of at most `n` bits, in units of 2^-n. */
  function Shorter(lens: seq<nat>, n: nat, k: nat): nat
    requires k <= |lens|
  {
    if k == 0 then 0
    else Shorter(lens, n, k - 1) + (if 1 <= lens[k - 1] <= n then Pow2(n - lens[k - 1]) else 0)
  }

  lemma {:induction false} ShorterAll(lens: seq<nat>, M: nat)
    requires AtMost(lens, M)
    ensures Shorter(lens, M, |lens|) == CodeKraft(lens, M)
  {
    if |lens| > 0 {
      var a := lens[..|lens| - 1];
      assert AtMost(a, M);
      ShorterAll(a, M);
      ShorterPrefix(lens, M, |a|);
    }
  }

  lemma {:induction false} ShorterPrefix(lens: seq<nat>, n: nat, k: nat)
    requires k < |lens|
    ensures Shorter(lens[..|lens| - 1], n, k) == Shorter(lens, n, k)
  {
    if k > 0 { ShorterPrefix(lens, n, k - 1); }
  }

  lemma {:induction false} ShorterDouble(lens: seq<nat>, n: nat, k: nat)
    requires k <= |lens|
    ensures Shorter(lens, n + 1, k) == Shorter(lens, n, k) + Shorter(lens, n, k) + NbOf(lens, n + 1, k)
  {
    if k > 0 {
      ShorterDouble(lens, n, k - 1);
      assert Pow2(0) == 1;
    }
  }

  /** The first value of `n` bits leaves room for exactly the codes that are not longer. */
  lemma {:induction false} StartExact(lens: seq<nat>, M: nat, n: nat)
    requires FullCode(lens, M) && n <= M
    ensures Start(lens, M, n) + Shorter(lens, n, |lens|) == Pow2(n)
    decreases M - n
  {
    if n == M {
      ShorterAll(lens, M);
    } else {
      StartExact(lens, M, n + 1);
      ShorterDouble(lens, n, |lens|);
      HalfUnique(Start(lens, M, n + 1) + NbOf(lens, n + 1, |lens|), Pow2(n) - Shorter(lens, n, |lens|));
    }
  }

  /** The halving in the canonical assignment is exact. */
  lemma {:induction false} StartDouble(lens: seq<nat>, M: nat, n: nat)
    requires FullCode(lens, M) && n < M
    ensures Start(lens, M, n + 1) + NbOf(lens, n + 1, |lens|) == Start(lens, M, n) + Start(lens, M, n)
    ensures Start(lens, M, n) <= Pow2(n)
  {
    StartExact(lens, M, n);
    StartExact(lens, M, n + 1);
    ShorterDouble(lens, n, |lens|);
  }

  /** A value fits in its number of bits. */
  lemma {:induction false} ValueFits(lens: seq<nat>, M: nat, s: nat)
    requires FullCode(lens, M) && s < |lens| && lens[s] > 0
    ensures ValueOf(lens, M, s) < Pow2(lens[s])
  {
    StartDouble(lens, M, lens[s] - 1);
    NbMono(lens, lens[s], s + 1, |lens|);
  }

  // ---------- every bit string starts with exactly one code ----------

  /** The code of `s` is a prefix of the `M`-bit string `x`. */
  ghost predicate Matches(lens: seq<nat>, M: nat, x: nat, s: nat) {
    s < |lens| && 0 < lens[s] <= M && Shr(x, M - lens[s]) == ValueOf(lens, M, s)
  }

  lemma {:induction false} ShrHalf(x: nat, k: nat)
    ensures Shr(x, k + 1) == Half(Shr(x, k))
  {
    ShrShr(x, k, 1);
    assert Shr(Half(Shr(x, k)), 0) == Half(Shr(x, k));
  }

  /** Below the length of its code the string stays under the first value; from there on it is above. */
  lemma {:induction false} Reached(lens: seq<nat>, M: nat, x: nat, n: nat)
    requires FullCode(lens, M) && n < M
    ensures Shr(x, M - n) >= Start(lens, M, n) ==> Shr(x, M - n - 1) >= Start(lens, M, n + 1) + NbOf(lens, n + 1, |lens|)
    ensures Shr(x, M - n) < Start(lens, M, n) ==> Shr(x, M - n - 1) < Start(lens, M, n + 1) + NbOf(lens, n + 1, |lens|)
  {
    ShrHalf(x, M - n - 1);
    StartDouble(lens, M, n);
  }

  lemma {:induction false} ReachedBefore(lens: seq<nat>, M: nat, x: nat, a: nat, b: nat)
    requires FullCode(lens, M) && a < b <= M && Shr(x, M - a) >= Start(lens, M, a)
    ensures Shr(x, M - b) >= Start(lens, M, b) + NbOf(lens, b, |lens|)
    decreases b
  {
    if a < b - 1 { ReachedBefore(lens, M, x, a, b - 1); }
    Reached(lens, M, x, b - 1);
  }

  /** The `k`-th symbol with `n` bits. */
  lemma {:induction false} SymbolAt(lens: seq<nat>, n: nat, k: nat, e: nat) returns (s: nat)
    requires e <= |lens| && k < NbOf(lens, n, e)
    ensures s < e && lens[s] == n && NbOf(lens, n, s) == k
  {
    if lens[e - 1] == n && NbOf(lens, n, e - 1) == k {
      s := e - 1;
    } else {
      s := SymbolAt(lens, n, k, e - 1);
    }
  }

  lemma {:induction false} SearchLength(lens: seq<nat>, M: nat, x: nat, n: nat) returns (s: nat)
    requires FullCode(lens, M) && x < Pow2(M) && n <= M && Shr(x, M - n) >= Start(lens, M, n)
    ensures Matches(lens, M, x, s) && lens[s] <= n
  {
    if n == 0 {
      StartExact(lens, M, 0);
      NoneShorter(lens, |lens|);
      LowSmall(x, M);
      assert false;
    } else if Shr(x, M - n) < Start(lens, M, n) + NbOf(lens, n, |lens|) {
      s := SymbolAt(lens, n, Shr(x, M - n) - Start(lens, M, n), |lens|);
    } else {
      Reached(lens, M, x, n - 1);
      s := SearchLength(lens, M, x, n - 1);
    }
  }

  lemma {:induction false} NoneShorter(lens: seq<nat>, k: nat)
    requires k <= |lens|
    ensures Shorter(lens, 0, k) == 0
  {
    if k > 0 { NoneShorter(lens, k - 1); }
  }

  /** Completeness: every string starts with a code. */
  lemma {:induction false} DecodeExists(lens: seq<nat>, M: nat, x: nat) returns (s: nat)
    requires FullCode(lens, M) && x < Pow2(M)
    ensures Matches(lens, M, x, s)
  {
    s := SearchLength(lens, M, x, M);
  }

  /** No string starts with two codes. */
  lemma {:induction false} DecodeUnique(lens: seq<nat>, M: nat, x: nat, s: nat, t: nat)
    requires FullCode(lens, M) && Matches(lens, M, x, s) && Matches(lens, M, x, t)
    ensures s == t
  {
    NbMono(lens, lens[s], s + 1, |lens|);
    NbMono(lens, lens[t], t + 1, |lens|);
    if lens[s] < lens[t] { ReachedBefore(lens, M, x, lens[s], lens[t]); }
    if lens[t] < lens[s] { ReachedBefore(lens, M, x, lens[t], lens[s]); }
    if s < t { NbMono(lens, lens[s], s + 1, t); }
    if t < s { NbMono(lens, lens[s], t + 1, s); }
  }

  /** No code is a prefix of another one. */
  lemma {:induction false} PrefixFree(lens: seq<nat>, M: nat, s: nat, t: nat)
    requires FullCode(lens, M) && s < |lens| && t < |lens| && 0 < lens[s] <= lens[t]
    requires Shr(ValueOf(lens, M, t), lens[t] - lens[s]) == ValueOf(lens, M, s)
    ensures s == t
  {
    var x := Shl(ValueOf(lens, M, t), M - lens[t]);
    ShrShl(ValueOf(lens, M, t), M - lens[t], M - lens[t]);
    ShrShl(ValueOf(lens, M, t), M - lens[t], M - lens[s]);
    assert Shr(ValueOf(lens, M, t), 0) == ValueOf(lens, M, t);
    DecodeUnique(lens, M, x, s, t);
  }

  // ---------- assigning the values ----------

  /** HUF_CElt. */
  datatype CElt = CElt(val: nat, nbBits: nat)

  /** `table` codes every symbol of the code `lens` with its canonical value. */
  ghost predicate CodeTable(table: seq<CElt>, lens: seq<nat>, M: nat) {
    && |table| == |lens|
    && forall s: nat {:trigger table[s]} | s < |lens| ::
         table[s].nbBits == lens[s] && (lens[s] > 0 ==> table[s].val == ValueOf(lens, M, s))
  }

  /** Starting values, from the longest codes up. */
  method RankValues(nbPerRank: seq<nat>, M: nat, ghost lens: seq<nat>) returns (valPerRank: array<nat>)
    requires |nbPerRank| > M && forall n: nat {:trigger nbPerRank[n]} | 1 <= n <= M :: nbPerRank[n] == NbOf(lens, n, |lens|)
    ensures fresh(valPerRank) && valPerRank.Length == |nbPerRank|
    ensures forall n: nat {:trigger valPerRank[n]} | 1 <= n <= M :: valPerRank[n] == Start(lens, M, n)
  {
    valPerRank := new nat[|nbPerRank|](_ => 0);
    var min := 0;
    for n := M + 1 downto 1
      invariant min == if n > M then Start(lens, M, M) else Start(lens, M, n - 1)
      invariant forall k: nat {:trigger valPerRank[k]} | n <= k <= M :: valPerRank[k] == Start(lens, M, k)
    {
      valPerRank[n] := min;
      min := Half(min + nbPerRank[n]);
    }
  }

  /** The values, in symbol order within each length. */
  method AssignValues(ghost lens: seq<nat>, ghost M: nat, valPerRank: array<nat>, table: array<CElt>)
    requires table.Length == |lens| && AtMost(lens, M) && M < valPerRank.Length
    requires forall s: nat {:trigger table[s]} | s < |lens| :: table[s].nbBits == lens[s]
    requires forall n: nat {:trigger valPerRank[n]} | 1 <= n <= M :: valPerRank[n] == Start(lens, M, n)
    modifies table, valPerRank
    ensures CodeTable(table[..], lens, M)
  {
    hide Start;
    for s := 0 to table.Length
      invariant forall n: nat {:trigger valPerRank[n]} | 1 <= n <= M :: valPerRank[n] == Start(lens, M, n) + NbOf(lens, n, s)
      invariant forall t: nat {:trigger table[t]} | t < |lens| ::
                  table[t].nbBits == lens[t] && (t < s && lens[t] > 0 ==> table[t].val == ValueOf(lens, M, t))
    {
      var n := table[s].nbBits;
      table[s] := table[s].(val := valPerRank[n]);
      valPerRank[n] := valPerRank[n] + 1;
    }
  }
}
