/**
  Why the codes of huffman.c are shortest: at every join, no prefix code of the leaves costs less than some
  prefix code of the roots and the joins so far.
 */
module HuffmanBest {
  import opened Bits
  import opened FseSpread
  import opened HufHeight
  import opened HufTree
  import opened HuffmanLabels

  // ---------- order does not matter ----------

  /** Without item `i`. */
  function Without(s: seq<nat>, i: nat): seq<nat>
    requires i < |s|
  {
    s[..i] + s[i + 1..]
  }

  lemma {:induction false} WithoutSums(c: seq<nat>, l: seq<nat>, i: nat, D: nat)
    requires |c| == |l| && i < |c|
    ensures Cost(c, l) == Cost(Without(c, i), Without(l, i)) + c[i] * l[i]
    ensures Kraft(l, D) == Kraft(Without(l, i), D) + Weight(l[i], D)
    ensures multiset(c) == multiset(Without(c, i)) + multiset{c[i]}
  {
    var n, x := [c[i]], [l[i]];
    assert c == c[..i] + n + c[i + 1..] && l == l[..i] + x + l[i + 1..];
    CostConcat(c[..i] + n, l[..i] + x, c[i + 1..], l[i + 1..]);
    CostConcat(c[..i], l[..i], n, x);
    CostConcat(c[..i], l[..i], c[i + 1..], l[i + 1..]);
    KraftConcat(l[..i] + x, l[i + 1..], D);
    KraftConcat(l[..i], x, D);
    KraftConcat(l[..i], l[i + 1..], D);
    PairSums(c[i], 0, l[i], 0, D);
  }

  /** A code for counts is one for the same counts in another order. */
  lemma {:induction false} Reordered(c: seq<nat>, l: seq<nat>, c': seq<nat>, D: nat) returns (l': seq<nat>)
    requires |c| == |l| && multiset(c) == multiset(c') && AtMost(l, D)
    ensures |l'| == |c'| && AtMost(l', D) && Cost(c', l') == Cost(c, l) && Kraft(l', D) == Kraft(l, D)
    decreases |c'|
  {
    hide Cost, Kraft, Without;
    assert |multiset(c)| == |c| && |multiset(c')| == |c'|;
    if |c'| == 0 {
      assert l == [] && c == c';
      l' := [];
    } else {
      var n := |c'| - 1;
      var v := c'[n];
      var i := FoundLast(c, c');
      WithoutSums(c, l, i, D);
      WithoutParts(l, i, D);
      var r := Reordered(Without(c, i), Without(l, i), c'[..n], D);
      l' := r + [l[i]];
      LastSums(c'[..n], r, v, l[i], D);
      assert c' == c'[..n] + [v];
    }
  }

  /** The last item of one list, in the other; without it, they still hold the same. */
  lemma {:induction false} FoundLast(c: seq<nat>, c': seq<nat>) returns (i: nat)
    requires multiset(c) == multiset(c') && |c'| > 0
    ensures i < |c| && c[i] == c'[|c'| - 1]
    ensures multiset(Without(c, i)) == multiset(c'[..|c'| - 1])
  {
    var n := |c'| - 1;
    var v := c'[n];
    assert c' == c'[..n] + [v];
    assert v in multiset(c);
    i :| i < |c| && c[i] == v;
    assert c == c[..i] + [v] + c[i + 1..];
    assert multiset(c) == multiset(Without(c, i)) + multiset{v};
    assert multiset(Without(c, i)) == multiset(c) - multiset{v} && multiset(c'[..n]) == multiset(c') - multiset{v};
  }

  lemma {:induction false} WithoutParts(l: seq<nat>, i: nat, D: nat)
    requires i < |l| && AtMost(l, D)
    ensures |Without(l, i)| == |l| - 1 && AtMost(Without(l, i), D)
  {
  }

  lemma {:induction false} LastSums(c: seq<nat>, l: seq<nat>, v: nat, x: nat, D: nat)
    requires |c| == |l|
    ensures Cost(c + [v], l + [x]) == Cost(c, l) + v * x
    ensures Kraft(l + [x], D) == Kraft(l, D) + Weight(x, D)
  {
    assert (c + [v])[..|c|] == c && (l + [x])[..|l|] == l;
  }

  // ---------- the bound ----------

  /** Some prefix code for the roots `w` costs, with `sum`, at most `cost`. */
  ghost predicate Reach(w: seq<nat>, D: nat, sum: nat, cost: nat) {
    exists l: seq<nat> :: |l| == |w| && PrefixCode(l, D) && Cost(w, l) + sum <= cost
  }

  /** For every prefix code of the leaves there is one of the roots that, with the joins so far, costs no more. */
  ghost predicate Bound(leaves: seq<nat>, w: seq<nat>, sum: nat) {
    forall l: seq<nat>, D: nat | |l| == |leaves| && PrefixCode(l, D) :: Reach(w, D, sum, Cost(leaves, l))
  }

  lemma {:induction false} BoundStarts(leaves: seq<nat>, w: seq<nat>)
    requires multiset(leaves) == multiset(w)
    ensures Bound(leaves, w, 0)
  {
    hide Cost, Kraft;
    forall l: seq<nat>, D: nat | |l| == |leaves| && PrefixCode(l, D) ensures Reach(w, D, 0, Cost(leaves, l)) {
      var l' := Reordered(leaves, l, w, D);
    }
  }

  /** Joining the first two roots, if they are the smallest, keeps the bound, in any new order. */
  lemma {:induction false} BoundNext(leaves: seq<nat>, w: seq<nat>, w': seq<nat>, sum: nat)
    requires Bound(leaves, w, sum) && TwoSmallest(w, 0) && multiset(w') == multiset(w[2..]) + multiset{w[0] + w[1]}
    ensures Bound(leaves, w', sum + w[0] + w[1])
  {
    hide Cost, Kraft;
    assert Join2(w, 0) == w[2..] + [w[0] + w[1]];
    forall l: seq<nat>, D: nat | |l| == |leaves| && PrefixCode(l, D) ensures Reach(w', D, sum + w[0] + w[1], Cost(leaves, l)) {
      assert Reach(w, D, sum, Cost(leaves, l));
      var k: seq<nat> :| |k| == |w| && PrefixCode(k, D) && Cost(w, k) + sum <= Cost(leaves, l);
      var j := JoinOptimal(w, k, D, 0);
      var j' := Reordered(Join2(w, 0), j, w', D);
    }
  }

  /** All joins together cost no more than any prefix code. */
  lemma {:induction false} BoundEnds(leaves: seq<nat>, w: seq<nat>, sum: nat, l: seq<nat>, D: nat)
    requires Bound(leaves, w, sum) && |l| == |leaves| && PrefixCode(l, D)
    ensures sum <= Cost(leaves, l)
  {
    assert Reach(w, D, sum, Cost(leaves, l));
  }

  // ---------- the joins cost what the paths cost ----------

  /** Counts of the joins below cell `m`. */
  function JoinTotal(cells: seq<Cell>, n: nat, m: nat): nat
    requires m <= |cells|
  {
    if m <= n then 0 else JoinTotal(cells, n, m - 1) + cells[m - 1].count
  }

  ghost function PathCost(cells: seq<Cell>, n: nat, x: nat): nat
    requires Forest(cells, n) && x < |cells|
  {
    cells[x].count * |Label(cells, n, x)|
  }

  /** Path costs of the cells below `m` whose parents are not below `k`. */
  ghost function Frontier(cells: seq<Cell>, n: nat, k: nat, m: nat): nat
    requires Forest(cells, n) && m <= |cells|
  {
    if m == 0 then 0
    else
      var u := cells[m - 1].up;
      Frontier(cells, n, k, m - 1) + (if u == -1 || u >= k then PathCost(cells, n, m - 1) else 0)
  }

  ghost function PathCostIf(cells: seq<Cell>, n: nat, x: int, m: nat): nat
    requires Forest(cells, n)
  {
    if 0 <= x < m && x < |cells| then PathCost(cells, n, x) else 0
  }

  /** The children of cell `k` are on the frontier exactly when it is not below. */
  lemma {:induction false} FrontierStep(cells: seq<Cell>, n: nat, k: nat, m: nat)
    requires Forest(cells, n) && n <= k < |cells| && m <= k
    ensures Joins(cells, k)
    ensures Frontier(cells, n, k, m)
         == Frontier(cells, n, k + 1, m) + PathCostIf(cells, n, cells[k].zero, m) + PathCostIf(cells, n, cells[k].one, m)
  {
    assert Joins(cells, k);
    if m > 0 {
      hide PathCost;
      FrontierStep(cells, n, k, m - 1);
      assert UpOk(cells, n, m - 1);
    }
  }

  /** A join costs its children what it costs itself, and its count. */
  lemma {:induction false} JoinCost(cells: seq<Cell>, n: nat, k: nat)
    requires Forest(cells, n) && n <= k < |cells|
    ensures Joins(cells, k)
    ensures PathCost(cells, n, cells[k].zero) + PathCost(cells, n, cells[k].one) == PathCost(cells, n, k) + cells[k].count
  {
    assert Joins(cells, k);
    var a, b := cells[k].zero, cells[k].one;
    assert |Label(cells, n, a)| == |Label(cells, n, k)| + 1 && |Label(cells, n, b)| == |Label(cells, n, k)| + 1;
    Spread(cells[a].count, cells[b].count, |Label(cells, n, k)|);
  }

  lemma {:induction false} Spread(x: nat, y: nat, d: nat)
    ensures x * (d + 1) + y * (d + 1) == (x + y) * d + (x + y)
  {
  }

  /** From the root down: the frontier costs the joins above it. */
  lemma {:induction false} FrontierIs(cells: seq<Cell>, n: nat, r: nat, k: nat)
    requires Forest(cells, n) && OneRoot(cells, r) && n <= k <= |cells|
    ensures Frontier(cells, n, k, k) + JoinTotal(cells, n, k) == JoinTotal(cells, n, |cells|)
    decreases |cells| - k
  {
    if k == |cells| {
      NoFrontier(cells, n, k);
    } else {
      FrontierIs(cells, n, r, k + 1);
      FrontierStep(cells, n, k, k);
      JoinCost(cells, n, k);
      assert UpOk(cells, n, k);
      hide PathCost, Label;
    }
  }

  /** Above the last cell there is only the root, whose path is empty. */
  lemma {:induction false} NoFrontier(cells: seq<Cell>, n: nat, m: nat)
    requires Forest(cells, n) && m <= |cells|
    ensures Frontier(cells, n, |cells|, m) == 0
  {
    if m > 0 {
      NoFrontier(cells, n, m - 1);
      assert UpOk(cells, n, m - 1);
      if cells[m - 1].up == -1 { assert Label(cells, n, m - 1) == []; }
    }
  }

  ghost function LeafCounts(cells: seq<Cell>, n: nat): (c: seq<nat>)
    requires n <= |cells|
    ensures |c| == n
  {
    seq(n, x requires 0 <= x < n => cells[x].count)
  }

  ghost function LeafLengths(cells: seq<Cell>, n: nat): (l: seq<nat>)
    requires Forest(cells, n)
    ensures |l| == n
  {
    seq(n, x requires 0 <= x < n => |Label(cells, n, x)|)
  }

  /** Below the joins everything is on the frontier: the leaves. */
  lemma {:induction false} LeafFrontier(cells: seq<Cell>, n: nat, m: nat)
    requires Forest(cells, n) && m <= n
    ensures Frontier(cells, n, n, m) == Cost(LeafCounts(cells, n)[..m], LeafLengths(cells, n)[..m])
  {
    if m > 0 {
      LeafFrontier(cells, n, m - 1);
      assert UpOk(cells, n, m - 1);
      var c, l := LeafCounts(cells, n), LeafLengths(cells, n);
      assert c[..m][..m - 1] == c[..m - 1] && l[..m][..m - 1] == l[..m - 1];
    }
  }

  /** The joins together are the bits that the paths take. */
  lemma {:induction false} TreeCost(cells: seq<Cell>, n: nat, r: nat)
    requires Forest(cells, n) && OneRoot(cells, r)
    ensures JoinTotal(cells, n, |cells|) == Cost(LeafCounts(cells, n), LeafLengths(cells, n))
  {
    FrontierIs(cells, n, r, n);
    LeafFrontier(cells, n, n);
    var c, l := LeafCounts(cells, n), LeafLengths(cells, n);
    assert c[..n] == c && l[..n] == l;
  }

  /** No prefix code of the leaves is shorter than the paths. */
  ghost predicate Shortest(cells: seq<Cell>, n: nat)
    requires Forest(cells, n)
  {
    forall l: seq<nat>, D: nat | |l| == n && PrefixCode(l, D) ::
      Cost(LeafCounts(cells, n), LeafLengths(cells, n)) <= Cost(LeafCounts(cells, n), l)
  }

  lemma {:induction false} TreeShortest(cells: seq<Cell>, n: nat, r: nat, w: seq<nat>)
    requires Forest(cells, n) && OneRoot(cells, r) && Bound(LeafCounts(cells, n), w, JoinTotal(cells, n, |cells|))
    ensures Shortest(cells, n)
  {
    hide Cost, Kraft, Bound, JoinTotal, LeafCounts, LeafLengths;
    TreeCost(cells, n, r);
    var c := LeafCounts(cells, n);
    forall l: seq<nat>, D: nat | |l| == n && PrefixCode(l, D) ensures Cost(c, LeafLengths(cells, n)) <= Cost(c, l) {
      BoundEnds(c, w, JoinTotal(cells, n, |cells|), l, D);
    }
  }

  // ---------- in terms of the source ----------

  /** The leaves are those of the symbols in `src`. */
  ghost predicate LeavesFor(cells: seq<Cell>, n: nat, src: seq<byte>) {
    n <= |cells| && n <= MAX_SYMBOLS && forall s: nat | s < MAX_SYMBOLS :: LeafOf(cells, n, s) >= 0 <==> Occ(src, |src|, s) > 0
  }

  /** Bits for the first `n` bytes of `src` with codes of lengths `k`. */
  function CodeLength(k: seq<nat>, src: seq<byte>, n: nat): nat
    requires |k| == MAX_SYMBOLS && n <= |src|
  {
    if n == 0 then 0 else CodeLength(k, src, n - 1) + k[src[n - 1]]
  }

  /** Kraft's sum over the symbols below `m` that occur in `src`. */
  function UsedKraft(k: seq<nat>, src: seq<byte>, D: nat, m: nat): nat
    requires m <= |k|
  {
    if m == 0 then 0 else UsedKraft(k, src, D, m - 1) + (if Occ(src, |src|, m - 1) > 0 then Weight(k[m - 1], D) else 0)
  }

  /** `k` are the lengths of a prefix code of the symbols that occur in `src`. */
  ghost predicate CodeFits(k: seq<nat>, src: seq<byte>, D: nat) {
    && |k| == MAX_SYMBOLS && UsedKraft(k, src, D, MAX_SYMBOLS) <= Pow2(D)
    && forall s: nat | s < MAX_SYMBOLS && Occ(src, |src|, s) > 0 :: k[s] <= D
  }

  /** No prefix code encodes `src` in fewer bits than `lens`. */
  ghost predicate ShortestFor(lens: seq<nat>, src: seq<byte>) {
    |lens| == MAX_SYMBOLS
    && forall k: seq<nat>, D: nat | CodeFits(k, src, D) :: CodeLength(lens, src, |src|) <= CodeLength(k, src, |src|)
  }

  /** The lengths `k`, in the order of the leaves. */
  ghost function AtLeaves(cells: seq<Cell>, n: nat, k: seq<nat>): (l: seq<nat>)
    requires n <= |cells| && |k| == MAX_SYMBOLS
    ensures |l| == n
  {
    seq(n, x requires 0 <= x < n => k[cells[x].symbol])
  }

  /** Cost of the leaves below `m`, for the counts in the first `i` bytes. */
  ghost function CostAt(cells: seq<Cell>, m: nat, src: seq<byte>, k: seq<nat>, i: nat): nat
    requires m <= |cells| && |k| == MAX_SYMBOLS && i <= |src|
  {
    if m == 0 then 0 else CostAt(cells, m - 1, src, k, i) + Occ(src, i, cells[m - 1].symbol) * k[cells[m - 1].symbol]
  }

  ghost predicate DistinctLeaves(cells: seq<Cell>, n: nat) {
    n <= |cells| && forall x: nat, y: nat | x < y < n :: cells[x].symbol != cells[y].symbol
  }

  lemma {:induction false} OccNext(src: seq<byte>, i: nat, s: nat)
    requires i < |src|
    ensures Occ(src, i + 1, s) == Occ(src, i, s) + (if src[i] == s then 1 else 0)
  {
  }

  /** One more byte costs one more code. */
  lemma {:induction false} CostNext(cells: seq<Cell>, m: nat, src: seq<byte>, k: seq<nat>, i: nat)
    requires DistinctLeaves(cells, m) && |k| == MAX_SYMBOLS && i < |src|
    ensures CostAt(cells, m, src, k, i + 1) == CostAt(cells, m, src, k, i) + (if LeafOf(cells, m, src[i]) >= 0 then k[src[i]] else 0)
  {
    if m > 0 {
      CostNext(cells, m - 1, src, k, i);
      OccNext(src, i, cells[m - 1].symbol);
      hide Occ;
      Product(Occ(src, i, cells[m - 1].symbol), k[cells[m - 1].symbol]);
    }
  }

  lemma {:induction false} Product(a: nat, b: nat)
    ensures (a + 1) * b == a * b + b
  {
  }

  lemma {:induction false} CostNothing(cells: seq<Cell>, m: nat, src: seq<byte>, k: seq<nat>)
    requires m <= |cells| && |k| == MAX_SYMBOLS
    ensures CostAt(cells, m, src, k, 0) == 0
  {
    if m > 0 { CostNothing(cells, m - 1, src, k); }
  }

  lemma {:induction false} CostIs(cells: seq<Cell>, n: nat, src: seq<byte>, k: seq<nat>, i: nat)
    requires DistinctLeaves(cells, n) && |k| == MAX_SYMBOLS && i <= |src|
    requires forall j | 0 <= j < |src| :: LeafOf(cells, n, src[j]) >= 0
    ensures CostAt(cells, n, src, k, i) == CodeLength(k, src, i)
  {
    if i == 0 {
      CostNothing(cells, n, src, k);
    } else {
      CostIs(cells, n, src, k, i - 1);
      CostNext(cells, n, src, k, i - 1);
      hide CostAt, LeafOf;
    }
  }

  lemma {:induction false} CostOfLeaves(cells: seq<Cell>, n: nat, src: seq<byte>, k: seq<nat>, m: nat)
    requires m <= n <= |cells| && |k| == MAX_SYMBOLS && forall x: nat | x < n :: cells[x].count == Occ(src, |src|, cells[x].symbol)
    ensures Cost(LeafCounts(cells, n)[..m], AtLeaves(cells, n, k)[..m]) == CostAt(cells, m, src, k, |src|)
  {
    hide Occ;
    if m > 0 {
      CostOfLeaves(cells, n, src, k, m - 1);
      var c, l := LeafCounts(cells, n), AtLeaves(cells, n, k);
      assert c[..m][..m - 1] == c[..m - 1] && l[..m][..m - 1] == l[..m - 1];
    }
  }

  /** Kraft's sum over the symbols below `t` of the leaves below `m`. */
  ghost function KraftAt(cells: seq<Cell>, m: nat, k: seq<nat>, D: nat, t: nat): nat
    requires m <= |cells| && t <= |k|
  {
    if t == 0 then 0 else KraftAt(cells, m, k, D, t - 1) + (if LeafOf(cells, m, t - 1) >= 0 then Weight(k[t - 1], D) else 0)
  }

  lemma {:induction false} KraftNext(cells: seq<Cell>, m: nat, k: seq<nat>, D: nat, t: nat)
    requires 0 < m && DistinctLeaves(cells, m) && t <= |k|
    ensures var s := cells[m - 1].symbol;
            KraftAt(cells, m, k, D, t) == KraftAt(cells, m - 1, k, D, t) + (if s < t then Weight(k[s], D) else 0)
  {
    if t > 0 { KraftNext(cells, m, k, D, t - 1); }
  }

  lemma {:induction false} KraftNone(cells: seq<Cell>, k: seq<nat>, D: nat, t: nat)
    requires t <= |k|
    ensures KraftAt(cells, 0, k, D, t) == 0
  {
    if t > 0 { KraftNone(cells, k, D, t - 1); }
  }

  lemma {:induction false} KraftOfLeaves(cells: seq<Cell>, n: nat, k: seq<nat>, D: nat, m: nat)
    requires m <= n && DistinctLeaves(cells, n) && |k| == MAX_SYMBOLS
    ensures Kraft(AtLeaves(cells, n, k)[..m], D) == KraftAt(cells, m, k, D, MAX_SYMBOLS)
  {
    if m == 0 {
      KraftNone(cells, k, D, MAX_SYMBOLS);
    } else {
      KraftOfLeaves(cells, n, k, D, m - 1);
      KraftNext(cells, m, k, D, MAX_SYMBOLS);
      hide KraftAt;
      var l := AtLeaves(cells, n, k);
      assert l[..m][..m - 1] == l[..m - 1];
    }
  }

  lemma {:induction false} KraftIsUsed(cells: seq<Cell>, n: nat, src: seq<byte>, k: seq<nat>, D: nat, t: nat)
    requires LeavesFor(cells, n, src) && t <= |k| == MAX_SYMBOLS
    ensures KraftAt(cells, n, k, D, t) == UsedKraft(k, src, D, t)
  {
    if t > 0 {
      KraftIsUsed(cells, n, src, k, D, t - 1);
      hide Occ, LeafOf;
    }
  }

  /** The leaves have the counts of their symbols in `src`. */
  ghost predicate CountedFor(cells: seq<Cell>, n: nat, src: seq<byte>) {
    LeavesFor(cells, n, src) && forall x: nat | x < n :: cells[x].count == Occ(src, |src|, cells[x].symbol)
  }

  lemma {:induction false} SourceFacts(cells: seq<Cell>, n: nat, src: seq<byte>)
    requires Forest(cells, n) && CountedFor(cells, n, src)
    ensures DistinctLeaves(cells, n) && (forall j | 0 <= j < |src| :: LeafOf(cells, n, src[j]) >= 0)
    ensures forall x: nat | x < n :: Occ(src, |src|, cells[x].symbol) > 0
  {
    hide Occ;
    forall j | 0 <= j < |src| ensures LeafOf(cells, n, src[j]) >= 0 { OccPositive(src, |src|, j); }
    forall x: nat | x < n ensures Occ(src, |src|, cells[x].symbol) > 0 { assert LeafOf(cells, n, cells[x].symbol) >= 0; }
  }

  /** What lengths by symbol cost the source is what they cost the leaves. */
  lemma {:induction false} SameCost(cells: seq<Cell>, n: nat, src: seq<byte>, k: seq<nat>)
    requires Forest(cells, n) && CountedFor(cells, n, src) && |k| == MAX_SYMBOLS
    ensures Cost(LeafCounts(cells, n), AtLeaves(cells, n, k)) == CodeLength(k, src, |src|)
  {
    hide Occ, Forest, LeavesFor, Cost, CodeLength, CostAt, LeafOf;
    SourceFacts(cells, n, src);
    CostOfLeaves(cells, n, src, k, n);
    CostIs(cells, n, src, k, |src|);
    var c, l := LeafCounts(cells, n), AtLeaves(cells, n, k);
    assert c[..n] == c && l[..n] == l;
  }

  lemma {:induction false} FitsLeaves(cells: seq<Cell>, n: nat, src: seq<byte>, k: seq<nat>, D: nat)
    requires Forest(cells, n) && CountedFor(cells, n, src) && CodeFits(k, src, D)
    ensures PrefixCode(AtLeaves(cells, n, k), D)
  {
    hide Occ, Forest, Kraft, UsedKraft, KraftAt, LeafOf;
    SourceFacts(cells, n, src);
    KraftOfLeaves(cells, n, k, D, n);
    KraftIsUsed(cells, n, src, k, D, MAX_SYMBOLS);
    var l := AtLeaves(cells, n, k);
    assert l[..n] == l;
  }

  /** The paths of a shortest tree are a shortest code of the source. */
  lemma {:induction false} SourceShortest(cells: seq<Cell>, n: nat, src: seq<byte>, lens: seq<nat>)
    requires Forest(cells, n) && CountedFor(cells, n, src) && Shortest(cells, n) && |lens| == MAX_SYMBOLS
    requires forall x: nat | x < n :: lens[cells[x].symbol] == |Label(cells, n, x)|
    ensures ShortestFor(lens, src)
  {
    hide Forest, CountedFor, UsedKraft, Occ, Cost, CodeLength, Label, LeafCounts, PrefixCode;
    SourceFacts(cells, n, src);
    SameCost(cells, n, src, lens);
    assert AtLeaves(cells, n, lens) == LeafLengths(cells, n);
    forall k: seq<nat>, D: nat | CodeFits(k, src, D) ensures CodeLength(lens, src, |src|) <= CodeLength(k, src, |src|) {
      FitsLeaves(cells, n, src, k, D);
      SameCost(cells, n, src, k);
    }
  }

  // ---------- eight bits for every symbol ----------

  lemma {:induction false} EightFits(src: seq<byte>, k: seq<nat>, m: nat)
    requires |k| == MAX_SYMBOLS && (forall s | 0 <= s < |k| :: k[s] == 8) && m <= MAX_SYMBOLS
    ensures UsedKraft(k, src, 8, m) <= m
  {
    if m > 0 {
      EightFits(src, k, m - 1);
      assert Pow2(0) == 1;
      hide Occ;
    }
  }

  lemma {:induction false} EightLength(src: seq<byte>, k: seq<nat>, n: nat)
    requires |k| == MAX_SYMBOLS && (forall s | 0 <= s < |k| :: k[s] == 8) && n <= |src|
    ensures CodeLength(k, src, n) == Times8(n)
  {
    if n > 0 { EightLength(src, k, n - 1); }
  }

  /** A shortest code takes at most 8 bits a byte. */
  lemma {:induction false} AtMostEight(lens: seq<nat>, src: seq<byte>)
    requires ShortestFor(lens, src)
    ensures CodeLength(lens, src, |src|) <= Times8(|src|)
  {
    hide UsedKraft, CodeLength, Occ, Pow2;
    var k: seq<nat> := seq(MAX_SYMBOLS, _ => 8);
    EightFits(src, k, MAX_SYMBOLS);
    EightLength(src, k, |src|);
    SmallPowers();
    assert CodeFits(k, src, 8);
  }
}
