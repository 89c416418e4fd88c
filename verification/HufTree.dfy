/**
  Huffman trees as lists. A step of the construction joins the two items at the neighbouring places i and
  i+1 and appends the result; the code lengths are obtained by undoing the steps from the last one. Joining
  two smallest items at every step gives lengths of least total cost among all prefix codes.
 */
module HufTree {
  import opened Bits
  import opened HufHeight

  // ---------- one step ----------

  /** The counts after items `i` and `i`+1 are joined. */
  function Join2(c: seq<nat>, i: nat): seq<nat>
    requires i + 2 <= |c|
  {
    c[..i] + c[i + 2..] + [c[i] + c[i + 1]]
  }

  /** The lengths before that step, from those after it: the joined item is replaced by its two parts. */
  function Split2(l: seq<nat>, i: nat): seq<nat>
    requires i + 1 <= |l|
  {
    var n := |l| - 1;
    l[..i] + [l[n] + 1, l[n] + 1] + l[i..n]
  }

  /** Total number of bits: each item as often as it occurs. */
  function Cost(c: seq<nat>, l: seq<nat>): nat
    requires |c| == |l|
  {
    if |c| == 0 then 0 else Cost(c[..|c| - 1], l[..|l| - 1]) + c[|c| - 1] * l[|l| - 1]
  }

  lemma {:induction false} CostConcat(a: seq<nat>, la: seq<nat>, b: seq<nat>, lb: seq<nat>)
    requires |a| == |la| && |b| == |lb|
    ensures Cost(a + b, la + lb) == Cost(a, la) + Cost(b, lb)
  {
    if |b| == 0 {
      assert a + b == a && la + lb == la;
    } else {
      var n := |b| - 1;
      assert (a + b)[..|a| + n] == a + b[..n] && (la + lb)[..|a| + n] == la + lb[..n];
      CostConcat(a, la, b[..n], lb[..n]);
    }
  }

  lemma {:induction false} KraftConcat(a: seq<nat>, b: seq<nat>, D: nat)
    ensures Kraft(a + b, D) == Kraft(a, D) + Kraft(b, D)
  {
    if |b| == 0 {
      assert a + b == a;
    } else {
      var n := |b| - 1;
      assert (a + b)[..|a| + n] == a + b[..n];
      KraftConcat(a, b[..n], D);
    }
  }

  lemma {:induction false} PairSums(c0: nat, c1: nat, x: nat, y: nat, D: nat)
    ensures Cost([c0, c1], [x, y]) == c0 * x + c1 * y
    ensures Cost([c0], [x]) == c0 * x
    ensures Kraft([x, y], D) == Weight(x, D) + Weight(y, D)
    ensures Kraft([x], D) == Weight(x, D)
  {
    var c, l := [c0, c1], [x, y];
    assert c[..1] == [c0] && l[..1] == [x];
    assert [c0][..0] == [] && [x][..0] == [];
    assert Cost([c0], [x]) == c0 * x && Kraft([x], D) == Weight(x, D);
  }

  /** Items `i` and `i`+1 of length `L`, joined into one of length `L`-1. */
  lemma {:induction false} JoinSums(c: seq<nat>, l: seq<nat>, i: nat, D: nat)
    requires |c| == |l| && i + 2 <= |c| && l[i] == l[i + 1] > 0 && l[i] <= D
    ensures var l' := l[..i] + l[i + 2..] + [l[i] - 1];
            Cost(c, l) == Cost(Join2(c, i), l') + c[i] + c[i + 1] && Kraft(l, D) == Kraft(l', D)
  {
    hide Cost, Kraft;
    var L := l[i];
    var a, b, m := c[..i], c[i + 2..], [c[i], c[i + 1]];
    var la, lb, lm := l[..i], l[i + 2..], [L, L];
    assert c == a + m + b && l == la + lm + lb;
    CostConcat(a + m, la + lm, b, lb);
    CostConcat(a, la, m, lm);
    CostConcat(a + b, la + lb, [c[i] + c[i + 1]], [L - 1]);
    CostConcat(a, la, b, lb);
    KraftConcat(la + lm, lb, D);
    KraftConcat(la, lm, D);
    KraftConcat(la + lb, [L - 1], D);
    KraftConcat(la, lb, D);
    PairSums(c[i], c[i + 1], L, L, D);
    PairSums(c[i] + c[i + 1], 0, L - 1, 0, D);
    Distribute(c[i], c[i + 1], L);
  }

  lemma {:induction false} Distribute(x: nat, y: nat, L: nat)
    requires L > 0
    ensures x * L + y * L == (x + y) * (L - 1) + x + y
  {
  }

  /** The step undone: the complete code stays complete, and the cost grows by the joined count. */
  lemma {:induction false} SplitSums(c: seq<nat>, l: seq<nat>, i: nat, D: nat)
    requires i + 2 <= |c| && |l| == |c| - 1 && l[|l| - 1] < D
    ensures |Split2(l, i)| == |c|
    ensures Cost(c, Split2(l, i)) == Cost(Join2(c, i), l) + c[i] + c[i + 1]
    ensures Kraft(Split2(l, i), D) == Kraft(l, D)
  {
    var n := |l| - 1;
    var k := Split2(l, i);
    JoinSums(c, k, i, D);
    assert k[..i] + k[i + 2..] + [k[i] - 1] == l;
  }

  // ---------- the exchange argument ----------

  /** `i` and `i`+1 are two smallest items. */
  ghost predicate TwoSmallest(c: seq<nat>, i: nat) {
    i + 2 <= |c| && forall k | 0 <= k < |c| && k != i && k != i + 1 :: c[i] <= c[k] && c[i + 1] <= c[k]
  }

  /** Lengths of a prefix code: by Kraft's inequality, exactly those whose weights fit in 1. */
  ghost predicate PrefixCode(l: seq<nat>, D: nat) {
    AtMost(l, D) && Kraft(l, D) <= Pow2(D)
  }

  lemma {:induction false} CostUpdate(c: seq<nat>, l: seq<nat>, p: nat, v: nat)
    requires |c| == |l| && p < |c|
    ensures Cost(c, l[p := v]) + c[p] * l[p] == Cost(c, l) + c[p] * v
  {
    var n := |c| - 1;
    if p < n {
      assert l[p := v][..n] == l[..n][p := v];
      CostUpdate(c[..n], l[..n], p, v);
    } else {
      assert l[p := v][..n] == l[..n];
    }
  }

  lemma {:induction false} SwapGain(a: nat, b: nat, x: nat, y: nat)
    requires a <= b && x <= y
    ensures a * y + b * x <= a * x + b * y
  {
    assert (b - a) * (y - x) >= 0;
  }

  /** Giving the longer of two lengths to the smaller item costs no more. */
  lemma {:induction false} Swap(c: seq<nat>, l: seq<nat>, D: nat, p: nat, q: nat)
    requires |c| == |l| && p < |c| && q < |c| && p != q
    requires PrefixCode(l, D) && c[p] <= c[q] && l[p] <= l[q]
    ensures var l' := l[p := l[q]][q := l[p]];
            PrefixCode(l', D) && Cost(c, l') <= Cost(c, l)
  {
    var l1 := l[p := l[q]];
    KraftUpdate(l, D, p, l[q]);
    KraftUpdate(l1, D, q, l[p]);
    CostUpdate(c, l, p, l[q]);
    CostUpdate(c, l1, q, l[p]);
    SwapGain(c[p], c[q], l[p], l[q]);
  }

  /** Position of a largest length other than at `x`. */
  lemma {:induction false} Longest(l: seq<nat>, x: int) returns (p: nat)
    requires |l| >= 2 || (|l| == 1 && x != 0)
    ensures p < |l| && p != x && forall k | 0 <= k < |l| && k != x :: l[k] <= l[p]
  {
    var n := |l| - 1;
    if n == 0 {
      p := 0;
    } else if n == 1 && x == 0 {
      p := 1;
    } else {
      p := Longest(l[..n], if x == n then -1 else x);
      assert forall k | 0 <= k < n && k != x :: l[..n][k] <= l[..n][p];
      if n != x && l[n] > l[p] { p := n; }
    }
  }

  /** A single longest item can be shortened to the second longest length. */
  lemma {:induction false} Shorten(c: seq<nat>, l: seq<nat>, D: nat, x: nat, y: nat)
    requires |c| == |l| && x < |l| && y < |l| && x != y && PrefixCode(l, D)
    requires l[y] <= l[x] && forall k | 0 <= k < |l| && k != x :: l[k] <= l[y]
    ensures var l' := l[x := l[y]]; PrefixCode(l', D) && Cost(c, l') <= Cost(c, l)
  {
    var M := l[y];
    var l' := l[x := M];
    CostUpdate(c, l, x, M);
    Scaled(c[x], M, l[x]);
    KraftUpdate(l, D, x, M);
    ShortenFits(l', M, D, Kraft(l, D), l[x]);
  }

  lemma {:induction false} Scaled(c: nat, a: nat, b: nat)
    requires a <= b
    ensures c * a <= c * b
  {
  }

  lemma {:induction false} ShortenFits(l': seq<nat>, M: nat, D: nat, before: nat, lx: nat)
    requires AtMost(l', M) && M <= D && lx <= D
    requires before <= Pow2(D) && Kraft(l', D) + Weight(lx, D) == before + Weight(M, D)
    ensures Kraft(l', D) <= Pow2(D)
  {
    hide Kraft, Pow2, Shl;
    KraftScale(l', M, D);
    Pow2IsShl(M, D - M);
    if Kraft(l', M) > Pow2(M) {
      ShlMono(Pow2(M) + 1, Kraft(l', M), D - M);
      ShlAdd(Pow2(M), 1, D - M);
      ShlOne(D - M);
    } else {
      ShlMono(Kraft(l', M), Pow2(M), D - M);
    }
  }

  /** Two smallest items can be given the same, longest, length. */
  lemma {:induction false} Exchange(c: seq<nat>, l: seq<nat>, D: nat, i: nat) returns (l': seq<nat>)
    requires |c| == |l| && TwoSmallest(c, i) && PrefixCode(l, D)
    ensures |l'| == |c| && PrefixCode(l', D) && Cost(c, l') <= Cost(c, l)
    ensures l'[i] == l'[i + 1] > 0
  {
    hide Kraft, Cost, Pow2;
    var p := Longest(l, -1);
    var x := if p == i + 1 then i + 1 else i;
    var y := if p == i + 1 then i else i + 1;
    l' := l;
    if p != x {
      Swap(c, l', D, x, p);
      l' := l'[x := l'[p]][p := l'[x]];
    }
    var q := Longest(l', x);
    if q != y {
      Swap(c, l', D, y, q);
      l' := l'[y := l'[q]][q := l'[y]];
    }
    Shorten(c, l', D, x, y);
    l' := l'[x := l'[y]];
    if l'[x] == 0 { TwoRoots(l', D, x, y); }
  }

  lemma {:induction false} TwoRoots(l: seq<nat>, D: nat, x: nat, y: nat)
    requires x < |l| && y < |l| && x != y && l[x] == l[y] == 0
    ensures Kraft(l, D) > Pow2(D)
  {
    KraftUpdate(l, D, x, D + 1);
    KraftUpdate(l[x := D + 1], D, y, D + 1);
  }

  /** Joining two smallest items loses nothing: the best code for the rest gives the best code. */
  lemma {:induction false} JoinOptimal(c: seq<nat>, l: seq<nat>, D: nat, i: nat) returns (l': seq<nat>)
    requires |c| == |l| && TwoSmallest(c, i) && PrefixCode(l, D)
    ensures |l'| == |c| - 1 && PrefixCode(l', D)
    ensures Cost(Join2(c, i), l') + c[i] + c[i + 1] <= Cost(c, l)
  {
    hide Kraft, Cost;
    var e := Exchange(c, l, D, i);
    JoinSums(c, e, i, D);
    l' := e[..i] + e[i + 2..] + [e[i] - 1];
    assert AtMost(l', D);
  }

  // ---------- the whole construction ----------

  /** The lengths given by the steps `picks`, for a list of |picks| + 1 items. */
  function Lengths(picks: seq<nat>): (l: seq<nat>)
    requires forall k | 0 <= k < |picks| :: picks[k] < |picks| - k
    ensures |l| == |picks| + 1
  {
    if |picks| == 0 then [0] else Split2(Lengths(picks[1..]), picks[0])
  }

  /** Every step joins two smallest items. */
  ghost predicate Greedy(c: seq<nat>, picks: seq<nat>)
    decreases |picks|
  {
    |c| == |picks| + 1
    && (|picks| > 0 ==> TwoSmallest(c, picks[0]) && Greedy(Join2(c, picks[0]), picks[1..]))
  }

  lemma {:induction false} LengthsBound(picks: seq<nat>)
    requires forall k | 0 <= k < |picks| :: picks[k] < |picks| - k
    ensures AtMost(Lengths(picks), |picks|)
    ensures Kraft(Lengths(picks), |picks|) == Pow2(|picks|)
  {
    hide Split2, Kraft, Pow2, Shl, Cost;
    var D := |picks|;
    if D == 0 {
      RootKraft();
    } else {
      LengthsBound(picks[1..]);
      var l := Lengths(picks[1..]);
      KraftScale(l, D - 1, D);
      Pow2IsShl(D - 1, 1);
      SplitSums(Lengths(picks), l, picks[0], D);
      SplitBound(l, picks[0], D);
    }
  }

  lemma {:induction false} RootKraft()
    ensures Kraft([0], 0) == Pow2(0)
  {
    assert [0][..0] == [];
    assert Kraft([], 0) == 0;
  }

  lemma {:induction false} SplitBound(l: seq<nat>, i: nat, D: nat)
    requires i < |l| && D > 0 && AtMost(l, D - 1)
    ensures AtMost(Split2(l, i), D)
  {
  }

  /** Huffman's theorem: no prefix code is cheaper. */
  lemma {:induction false} Optimal(c: seq<nat>, picks: seq<nat>, l: seq<nat>, D: nat)
    requires Greedy(c, picks) && |l| == |c| && PrefixCode(l, D)
    requires forall k | 0 <= k < |picks| :: picks[k] < |picks| - k
    ensures Cost(c, Lengths(picks)) <= Cost(c, l)
    decreases |picks|
  {
    if |picks| == 0 {
      CostUpdate(c, l, 0, 0);
      assert l[0 := 0] == [0] == Lengths(picks);
    } else {
      var l' := JoinOptimal(c, l, D, picks[0]);
      Optimal(Join2(c, picks[0]), picks[1..], l', D);
      var k := Lengths(picks[1..]);
      SplitSums(c, k, picks[0], k[|k| - 1] + 1);
    }
  }

  // ---------- how deep a tree can be ----------

  /** The Fibonacci numbers 1, 2, 3, 5, ... */
  function Fib(n: nat): (f: nat)
    ensures f >= 1
  {
    if n < 2 then n + 1 else Fib(n - 1) + Fib(n - 2)
  }

  /** The first total with which a tree of 31 levels is possible. */
  const DEEP_TOTAL := 3524578

  lemma {:induction false} DeepTotal()
    ensures Fib(31) == DEEP_TOTAL && Fib(30) == 2178309
  {
    assert Fib(2) == 3 && Fib(3) == 5 && Fib(4) == 8 && Fib(5) == 13 && Fib(6) == 21;
    assert Fib(7) == 34 && Fib(8) == 55 && Fib(9) == 89 && Fib(10) == 144 && Fib(11) == 233;
    assert Fib(12) == 377 && Fib(13) == 610 && Fib(14) == 987 && Fib(15) == 1597 && Fib(16) == 2584;
    assert Fib(17) == 4181 && Fib(18) == 6765 && Fib(19) == 10946 && Fib(20) == 17711 && Fib(21) == 28657;
    assert Fib(22) == 46368 && Fib(23) == 75025 && Fib(24) == 121393 && Fib(25) == 196418 && Fib(26) == 317811;
    assert Fib(27) == 514229 && Fib(28) == 832040 && Fib(29) == 1346269 && Fib(30) == 2178309 && Fib(31) == 3524578;
  }

  lemma {:induction false} FibMono(a: nat, b: nat)
    requires a <= b
    ensures Fib(a) <= Fib(b)
    decreases b
  {
    if a < b { FibMono(a, b - 1); }
  }

  function Total(c: seq<nat>): nat {
    if |c| == 0 then 0 else Total(c[..|c| - 1]) + c[|c| - 1]
  }

  lemma {:induction false} TotalConcat(a: seq<nat>, b: seq<nat>)
    ensures Total(a + b) == Total(a) + Total(b)
  {
    if |b| == 0 {
      assert a + b == a;
    } else {
      assert (a + b)[..|a| + |b| - 1] == a + b[..|b| - 1];
      TotalConcat(a, b[..|b| - 1]);
    }
  }

  lemma {:induction false} TotalJoin(c: seq<nat>, i: nat)
    requires i + 2 <= |c|
    ensures Total(Join2(c, i)) == Total(c)
  {
    var m := [c[i], c[i + 1]];
    assert c == c[..i] + m + c[i + 2..];
    TotalConcat(c[..i] + m, c[i + 2..]);
    TotalConcat(c[..i], m);
    TotalConcat(c[..i] + c[i + 2..], [c[i] + c[i + 1]]);
    TotalConcat(c[..i], c[i + 2..]);
    assert m[..1] == [c[i]] && m[..1][..0] == [];
    assert [c[i] + c[i + 1]][..0] == [];
    assert Total(m[..1]) == c[i];
  }

  /** Heights of the items after items `i` and `i`+1 are joined. */
  function JoinHeights(h: seq<nat>, i: nat): seq<nat>
    requires i + 2 <= |h|
  {
    h[..i] + h[i + 2..] + [1 + if h[i] <= h[i + 1] then h[i + 1] else h[i]]
  }

  /** An item of height h weighs at least Fib(h), and every other item at least Fib(h-1). */
  ghost predicate Grown(c: seq<nat>, h: seq<nat>) {
    && |c| == |h|
    && (forall p | 0 <= p < |c| :: c[p] >= Fib(h[p]))
    && (forall p, q | 0 <= p < |c| && 0 <= q < |c| && p != q && h[p] > 0 :: c[q] >= Fib(h[p] - 1))
  }

  lemma {:induction false} GrownStep(c: seq<nat>, h: seq<nat>, i: nat)
    requires TwoSmallest(c, i) && Grown(c, h)
    ensures Grown(Join2(c, i), JoinHeights(h, i))
  {
    assert i + 2 <= |c|;
    hide Fib, TwoSmallest;
    var c', h' := Join2(c, i), JoinHeights(h, i);
    var n := |c'| - 1;
    var j := if h[i] <= h[i + 1] then i + 1 else i;
    NewItemGrown(c, h, i, j);
    assert c'[n] == c[i] + c[i + 1] && h'[n] == h[j] + 1;
    assert forall p | 0 <= p < i :: c'[p] == c[p] && h'[p] == h[p];
    assert forall p | i <= p < n :: c'[p] == c[p + 2] && h'[p] == h[p + 2];
    hide Join2, JoinHeights;
    forall p | 0 <= p <= n ensures c'[p] >= Fib(h'[p]) { ItemGrown(c, h, c', h', i, j, p); }
    forall p, q | 0 <= p <= n && 0 <= q <= n && p != q && h'[p] > 0 ensures c'[q] >= Fib(h'[p] - 1) {
      OthersGrown(c, h, c', h', i, j, p, q);
    }
  }

  lemma {:induction false} ItemGrown(c: seq<nat>, h: seq<nat>, c': seq<nat>, h': seq<nat>, i: nat, j: nat, p: nat)
    requires Grown(c, h) && |c'| == |h'| == |c| - 1 && p < |c'| && i + 2 <= |c| && (j == i || j == i + 1)
    requires var n := |c'| - 1;
             c'[n] == c[i] + c[i + 1] && h'[n] == h[j] + 1 && c[i] + c[i + 1] >= Fib(h[j] + 1)
             && (forall p | 0 <= p < i :: c'[p] == c[p] && h'[p] == h[p])
             && (forall p | i <= p < n :: c'[p] == c[p + 2] && h'[p] == h[p + 2])
    ensures c'[p] >= Fib(h'[p])
  {
    hide Fib;
    if p < |c'| - 1 {
      var o := if p < i then p else p + 2;
      assert c[o] >= Fib(h[o]);
    }
  }

  lemma {:induction false} NewItemGrown(c: seq<nat>, h: seq<nat>, i: nat, j: nat)
    requires TwoSmallest(c, i) && Grown(c, h) && (j == i || j == i + 1)
    requires h[i] <= h[j] && h[i + 1] <= h[j]
    ensures c[i] + c[i + 1] >= Fib(h[j] + 1)
  {
    assert c[j] >= Fib(h[j]);
    if h[j] > 0 { assert c[i + i + 1 - j] >= Fib(h[j] - 1); }
  }

  lemma {:induction false} OthersGrown(c: seq<nat>, h: seq<nat>, c': seq<nat>, h': seq<nat>, i: nat, j: nat, p: nat, q: nat)
    requires TwoSmallest(c, i) && Grown(c, h) && (j == i || j == i + 1)
    requires |c'| == |h'| == |c| - 1 && p < |c'| && q < |c'| && p != q && h'[p] > 0
    requires var n := |c'| - 1;
             c'[n] == c[i] + c[i + 1] && h'[n] == h[j] + 1
             && (forall p | 0 <= p < i :: c'[p] == c[p] && h'[p] == h[p])
             && (forall p | i <= p < n :: c'[p] == c[p + 2] && h'[p] == h[p + 2])
    ensures c'[q] >= Fib(h'[p] - 1)
  {
    hide Fib;
    var n := |c'| - 1;
    var op, oq := if p < i then p else p + 2, if q < i then q else q + 2;
    if p == n {
      assert c[j] >= Fib(h[j]);
      assert c'[q] == c[oq] >= c[j];
    } else if q == n {
      assert c[i] >= Fib(h[op] - 1);
    } else {
      assert c[oq] >= Fib(h[op] - 1);
    }
  }

  /** A total below Fib(H+1) allows no tree higher than `H`. */
  lemma {:induction false} HeightBound(c: seq<nat>, h: seq<nat>, picks: seq<nat>, H: nat)
    requires Greedy(c, picks) && Grown(c, h) && Total(c) < Fib(H + 1)
    requires forall k | 0 <= k < |picks| :: picks[k] < |picks| - k
    ensures forall k | 0 <= k < |c| :: Lengths(picks)[k] + h[k] <= H
    decreases |picks|
  {
    hide Fib, Grown, TwoSmallest, Split2, JoinHeights, Join2;
    if |picks| == 0 {
      SingleHeight(c, h, H);
    } else {
      var i := picks[0];
      GreedySize(c, picks);
      GrownStep(c, h, i);
      GrownSize(c, h);
      TotalJoin(c, i);
      HeightBound(Join2(c, i), JoinHeights(h, i), picks[1..], H);
      SplitHeights(Lengths(picks[1..]), h, i, H);
    }
  }

  lemma {:induction false} GreedySize(c: seq<nat>, picks: seq<nat>)
    requires Greedy(c, picks) && |picks| > 0
    ensures picks[0] + 2 <= |c| && |Join2(c, picks[0])| == |c| - 1
  {
  }

  lemma {:induction false} GrownSize(c: seq<nat>, h: seq<nat>)
    requires Grown(c, h)
    ensures |c| == |h|
  {
  }

  lemma {:induction false} SingleHeight(c: seq<nat>, h: seq<nat>, H: nat)
    requires |c| == 1 && Grown(c, h) && Total(c) < Fib(H + 1)
    ensures h[0] <= H
  {
    hide Fib;
    assert Total(c[..0]) == 0 && Total(c) == c[0];
    if h[0] > H { FibMono(H + 1, h[0]); }
  }

  lemma {:induction false} SplitHeights(l: seq<nat>, h: seq<nat>, i: nat, H: nat)
    requires i + 2 <= |h| && |l| == |h| - 1
    requires forall k | 0 <= k < |l| :: l[k] + JoinHeights(h, i)[k] <= H
    ensures forall k | 0 <= k < |h| :: Split2(l, i)[k] + h[k] <= H
  {
    var h', n := JoinHeights(h, i), |l| - 1;
    forall k | 0 <= k < |h| ensures Split2(l, i)[k] + h[k] <= H {
      assert l[n] + h'[n] <= H;
      if k < i { assert l[k] + h'[k] <= H; }
      if k >= i + 2 { assert l[k - 2] + h'[k - 2] <= H; }
    }
  }
}
