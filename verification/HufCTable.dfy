/**
  HUF_buildCTable_wksp as a whole: from the counts of the symbols to the canonical code of the cheapest, or
  height-limited, tree.
 */
module HufCTable {
  import opened Bits
  import opened Errors
  import opened HufHeight
  import opened HufTree
  import opened HufSort
  import opened HufBuild
  import opened HufCode

  // ---------- from sorted order to symbol order ----------

  /** The lengths `l` of the first `k` table entries, stored by symbol; 0 elsewhere. */
  ghost function Scatter(bytes: seq<nat>, l: seq<nat>, n: nat, k: nat): (r: seq<nat>)
    requires k <= |bytes| && k <= |l| && forall i | 0 <= i < k :: bytes[i] < n
    ensures |r| == n
  {
    if k == 0 then seq(n, _ => 0) else Scatter(bytes, l, n, k - 1)[bytes[k - 1] := l[k - 1]]
  }

  /** The first `k` entries name different symbols below `n`. */
  ghost predicate Names(bytes: seq<nat>, n: nat, k: nat) {
    && k <= |bytes|
    && (forall i | 0 <= i < k :: bytes[i] < n)
    && (forall i, j | 0 <= i < j < k :: bytes[i] != bytes[j])
  }

  lemma {:induction false} ScatterAt(bytes: seq<nat>, l: seq<nat>, n: nat, k: nat)
    requires Names(bytes, n, k) && k <= |l|
    ensures forall i | 0 <= i < k :: Scatter(bytes, l, n, k)[bytes[i]] == l[i]
    ensures forall x | 0 <= x < n && (forall i | 0 <= i < k :: bytes[i] != x) :: Scatter(bytes, l, n, k)[x] == 0
  {
    if k > 0 { ScatterAt(bytes, l, n, k - 1); }
  }

  lemma {:induction false} ScatterFresh(bytes: seq<nat>, l: seq<nat>, n: nat, k: nat)
    requires Names(bytes, n, k + 1) && k < |l|
    ensures Scatter(bytes, l, n, k)[bytes[k]] == 0
  {
    ScatterAt(bytes, l, n, k);
  }

  lemma {:induction false} NoWeight(s: seq<nat>, M: nat)
    requires forall i | 0 <= i < |s| :: s[i] == 0
    ensures CodeKraft(s, M) == 0
  {
    if |s| > 0 { NoWeight(s[..|s| - 1], M); }
  }

  lemma {:induction false} ScatterKraft(bytes: seq<nat>, l: seq<nat>, n: nat, k: nat, M: nat)
    requires Names(bytes, n, k) && k <= |l|
    ensures CodeKraft(Scatter(bytes, l, n, k), M) == CodeKraft(l[..k], M)
  {
    if k == 0 {
      NoWeight(Scatter(bytes, l, n, 0), M);
    } else {
      ScatterKraft(bytes, l, n, k - 1, M);
      ScatterFresh(bytes, l, n, k - 1);
      CodeKraftUpdate(Scatter(bytes, l, n, k - 1), M, bytes[k - 1], l[k - 1]);
      assert l[..k][..k - 1] == l[..k - 1];
    }
  }

  lemma {:induction false} NbUpdate(lens: seq<nat>, n: nat, k: nat, i: nat, v: nat)
    requires i < |lens| && k <= |lens|
    ensures NbOf(lens[i := v], n, k) + (if i < k && lens[i] == n then 1 else 0)
         == NbOf(lens, n, k) + (if i < k && v == n then 1 else 0)
  {
    if k > 0 { NbUpdate(lens, n, k - 1, i, v); }
  }

  lemma {:induction false} NbNone(lens: seq<nat>, n: nat, k: nat)
    requires k <= |lens| && forall i | 0 <= i < k :: lens[i] != n
    ensures NbOf(lens, n, k) == 0
  {
    if k > 0 { NbNone(lens, n, k - 1); }
  }

  lemma {:induction false} ScatterNb(bytes: seq<nat>, l: seq<nat>, n: nat, k: nat, b: nat)
    requires Names(bytes, n, k) && k <= |l| && b > 0
    ensures NbOf(Scatter(bytes, l, n, k), b, n) == NbOf(l, b, k)
  {
    if k == 0 {
      NbNone(Scatter(bytes, l, n, 0), b, n);
    } else {
      ScatterNb(bytes, l, n, k - 1, b);
      ScatterFresh(bytes, l, n, k - 1);
      NbUpdate(Scatter(bytes, l, n, k - 1), b, n, bytes[k - 1], l[k - 1]);
    }
  }

  /** Bits needed for a source with these counts. */
  function SourceBits(count: seq<nat>, lens: seq<nat>): nat
    requires |count| == |lens|
  {
    Cost(count, lens)
  }

  lemma {:induction false} ZeroCost(c: seq<nat>, l: seq<nat>)
    requires |c| == |l| && forall i | 0 <= i < |l| :: l[i] == 0
    ensures Cost(c, l) == 0
  {
    if |c| > 0 { ZeroCost(c[..|c| - 1], l[..|l| - 1]); }
  }

  lemma {:induction false} ScatterCost(bytes: seq<nat>, sorted: seq<nat>, count: seq<nat>, l: seq<nat>, k: nat)
    requires Names(bytes, |count|, k) && k <= |l| && k <= |sorted|
    requires forall i | 0 <= i < k :: sorted[i] == count[bytes[i]]
    ensures Cost(count, Scatter(bytes, l, |count|, k)) == Cost(sorted[..k], l[..k])
  {
    hide Cost;
    if k == 0 {
      ZeroCost(count, Scatter(bytes, l, |count|, 0));
      NoCost();
      assert sorted[..0] == [] && l[..0] == [];
    } else {
      ScatterCost(bytes, sorted, count, l, k - 1);
      ScatterFresh(bytes, l, |count|, k - 1);
      AddCost(count, Scatter(bytes, l, |count|, k - 1), bytes[k - 1], l[k - 1]);
      CostSnoc(sorted, l, k - 1);
    }
  }

  lemma {:induction false} NoCost()
    ensures Cost([], []) == 0
  {
  }

  lemma {:induction false} AddCost(c: seq<nat>, l: seq<nat>, s: nat, v: nat)
    requires |c| == |l| && s < |c| && l[s] == 0
    ensures Cost(c, l[s := v]) == Cost(c, l) + c[s] * v
  {
    CostUpdate(c, l, s, v);
  }

  lemma {:induction false} CostSnoc(c: seq<nat>, l: seq<nat>, k: nat)
    requires k < |c| && k < |l|
    ensures Cost(c[..k + 1], l[..k + 1]) == Cost(c[..k], l[..k]) + c[k] * l[k]
  {
    assert c[..k + 1][..k] == c[..k] && l[..k + 1][..k] == l[..k];
  }

  // ---------- the cheapest code, by symbol ----------

  /** Lengths of a prefix code that covers every symbol of the source. */
  ghost predicate Covers(count: seq<nat>, lens: seq<nat>, D: nat) {
    && |lens| == |count| && AtMost(lens, D) && CodeKraft(lens, D) <= Pow2(D)
    && forall s | 0 <= s < |count| && count[s] > 0 :: lens[s] > 0
  }

  /** `lens` is the code of the sorted lengths `l` of the `m` used symbols. */
  ghost predicate CodeOf(lens: seq<nat>, bytes: seq<nat>, sorted: seq<nat>, count: seq<nat>, l: seq<nat>) {
    && SortedTable(bytes, sorted, count) && |l| <= |count| == |lens|
    && (forall k | 0 <= k < |count| :: if k < |l| then sorted[k] > 0 else sorted[k] == 0)
    && (forall k | 0 <= k < |count| :: bytes[k] < |lens| && lens[bytes[k]] == if k < |l| then l[k] else 0)
  }

  lemma {:induction false} CodeIsScatter(lens: seq<nat>, bytes: seq<nat>, sorted: seq<nat>, count: seq<nat>, l: seq<nat>)
    requires CodeOf(lens, bytes, sorted, count, l)
    ensures Names(bytes, |count|, |l|) && Scatter(bytes, l, |count|, |l|) == lens
  {
    var n := |count|;
    ScatterAt(bytes, l, n, |l|);
    var r := Scatter(bytes, l, n, |l|);
    forall s | 0 <= s < n ensures r[s] == lens[s] {
      assert Placed(bytes, n, s);
      var k :| 0 <= k < n && bytes[k] == s;
      if k >= |l| {
        forall i | 0 <= i < |l| ensures bytes[i] != s {}
      }
    }
  }

  /** The code by symbol has the measures of the sorted lengths. */
  lemma {:induction false} CodeMeasures(lens: seq<nat>, bytes: seq<nat>, sorted: seq<nat>, count: seq<nat>, l: seq<nat>, M: nat)
    requires CodeOf(lens, bytes, sorted, count, l)
    ensures CodeKraft(lens, M) == CodeKraft(l, M)
    ensures Cost(count, lens) == Cost(sorted[..|l|], l)
    ensures forall b: nat | b > 0 :: NbOf(lens, b, |lens|) == NbOf(l, b, |l|)
  {
    hide CodeKraft, Cost, NbOf;
    CodeIsScatter(lens, bytes, sorted, count, l);
    assert l[..|l|] == l;
    ScatterKraft(bytes, l, |count|, |l|, M);
    ScatterCost(bytes, sorted, count, l, |l|);
    forall b: nat | b > 0 ensures NbOf(lens, b, |lens|) == NbOf(l, b, |l|) { ScatterNb(bytes, l, |count|, |l|, b); }
  }

  lemma {:induction false} KraftPositive(l: seq<nat>, M: nat)
    requires forall i | 0 <= i < |l| :: l[i] > 0
    ensures CodeKraft(l, M) == Kraft(l, M)
  {
    if |l| > 0 { KraftPositive(l[..|l| - 1], M); }
  }

  lemma {:induction false} KraftLess(a: seq<nat>, b: seq<nat>, M: nat)
    requires |a| == |b| && forall i | 0 <= i < |a| :: a[i] == b[i] || a[i] == 0
    ensures CodeKraft(a, M) <= CodeKraft(b, M)
  {
    if |a| > 0 { KraftLess(a[..|a| - 1], b[..|b| - 1], M); }
  }

  lemma {:induction false} CostLess(c: seq<nat>, a: seq<nat>, b: seq<nat>)
    requires |a| == |b| == |c| && forall i | 0 <= i < |a| :: a[i] == b[i] || a[i] == 0
    ensures Cost(c, a) <= Cost(c, b)
  {
    if |a| > 0 {
      CostLess(c[..|c| - 1], a[..|a| - 1], b[..|b| - 1]);
      Scaled(c[|c| - 1], a[|a| - 1], b[|b| - 1]);
    }
  }

  lemma {:induction false} TableNames(bytes: seq<nat>, sorted: seq<nat>, count: seq<nat>, m: nat)
    requires SortedTable(bytes, sorted, count) && m <= |count|
    ensures Names(bytes, |count|, m) && m <= |sorted|
    ensures forall k | 0 <= k < m :: sorted[k] == count[bytes[k]]
  {
  }

  /** Scattering part of a code gives that part of the code. */
  lemma {:induction false} ScatterPart(bytes: seq<nat>, lens: seq<nat>, l: seq<nat>, n: nat, m: nat)
    requires m <= n == |lens| && |l| == m && Names(bytes, n, n)
    requires forall s | 0 <= s < n :: Placed(bytes, n, s)
    requires forall k | 0 <= k < m :: l[k] == lens[bytes[k]]
    ensures forall s | 0 <= s < n :: Scatter(bytes, l, n, m)[s] == lens[s] || Scatter(bytes, l, n, m)[s] == 0
  {
    hide Scatter;
    ScatterAt(bytes, l, n, m);
    var r := Scatter(bytes, l, n, m);
    forall s | 0 <= s < n ensures r[s] == lens[s] || r[s] == 0 {
      assert Placed(bytes, n, s);
      var k :| 0 <= k < n && bytes[k] == s;
      if k >= m { forall i | 0 <= i < m ensures bytes[i] != s {} }
    }
  }

  /** Any code that covers the source gives, in sorted order, a prefix code of the used symbols. */
  lemma {:induction false} Gather(lens': seq<nat>, bytes: seq<nat>, sorted: seq<nat>, count: seq<nat>, m: nat, D: nat)
    returns (l': seq<nat>)
    requires SortedTable(bytes, sorted, count) && m <= |count|
    requires forall k | 0 <= k < m :: sorted[k] > 0
    requires Covers(count, lens', D)
    ensures |l'| == m && PrefixCode(l', D) && Cost(sorted[..m], l') <= Cost(count, lens')
  {
    hide CodeKraft, Cost;
    var n := |count|;
    l' := seq(m, k requires 0 <= k < m => lens'[bytes[k]]);
    var r := Scatter(bytes, l', n, m);
    ScatterPart(bytes, lens', l', n, m);
    TableNames(bytes, sorted, count, m);
    hide Scatter, SortedTable, Placed;
    assert l'[..m] == l';
    ScatterKraft(bytes, l', n, m, D);
    ScatterCost(bytes, sorted, count, l', m);
    KraftLess(r, lens', D);
    CostLess(count, r, lens');
    KraftPositive(l', D);
  }

  // ---------- HUF_buildCTable_wksp ----------

  lemma {:induction false} LargePowers()
    ensures Pow2(30) == 0x4000_0000
  {
    SmallPowers();
    Pow2IsShl(8, 8);
    ShlByte(256);
    Pow2IsShl(16, 8);
    ShlByte(0x1_0000);
    assert Pow2(25) == 2 * Pow2(24) && Pow2(26) == 4 * Pow2(24) && Pow2(27) == 8 * Pow2(24) && Pow2(28) == 16 * Pow2(24);
  }

  lemma {:induction false} NoEmptyCode(l: seq<nat>, D: nat)
    requires |l| >= 2 && Complete(l, D)
    ensures forall k | 0 <= k < |l| :: l[k] > 0
  {
    KraftUpdate(l, D, 0, D + 1);
    KraftUpdate(l[0 := D + 1], D, 1, D + 1);
    assert l[1] <= D && Weight(l[1], D) > 0;
    forall k | 0 <= k < |l| ensures l[k] > 0 { assert k == 0 || l[0] <= l[k]; }
  }

  ghost predicate Cheapest(c: seq<nat>, l: seq<nat>) {
    |c| == |l| && forall k: seq<nat>, D: nat | |k| == |c| && PrefixCode(k, D) :: Cost(c, l) <= Cost(c, k)
  }

  /** The lengths that come of joining two smallest items at every step, nodes before leaves that are as frequent. */
  ghost predicate HuffmanOf(c: seq<nat>, l: seq<nat>) {
    l == QueueLengths(c) && exists picks: seq<nat> {:trigger Greedy(c, picks)} ::
      Greedy(c, picks) && (forall k | 0 <= k < |picks| :: picks[k] < |picks| - k) && l == Lengths(picks)
  }

  lemma {:induction false} IsHuffman(nbBits: seq<nat>, parent: seq<nat>, m: nat, picks: seq<nat>, c0: seq<nat>)
    requires Linked(parent, m, picks) && |picks| == m - 1 && TreeLengths(nbBits, parent, m) && Greedy(c0, picks)
    requires |c0| == m && picks == Picks(c0, m)
    ensures m <= |nbBits| && HuffmanOf(c0, nbBits[..m])
  {
    hide Linked, TreeLengths, Greedy, Lengths, Picks;
    assert picks[0..] == picks;
    TreeIsList(nbBits, parent, m, picks, 0);
    LeavesFirst(nbBits, parent, m, picks);
  }

  /** The unlimited tree of the `m` used symbols: its leaf lengths, in table order. */
  method LeavesOf(huffCount: array<nat>, m: nat) returns (leaves: array<nat>)
    requires huffCount.Length == TABLE_SIZE && 2 <= m <= STARTNODE
    requires forall p, q | 0 <= p < q < m :: huffCount[p] >= huffCount[q]
    requires forall p | 0 <= p < m :: huffCount[p] > 0
    requires Total(huffCount[..m]) < NOT_YET
    modifies huffCount
    ensures fresh(leaves) && leaves.Length == m
    ensures Complete(leaves[..], leaves[m - 1])
    ensures old(Total(huffCount[..m])) < DEEP_TOTAL ==> leaves[m - 1] <= 30
    ensures Cheapest(old(huffCount[..m]), leaves[..]) && HuffmanOf(old(huffCount[..m]), leaves[..])
    ensures huffCount[..m] == old(huffCount[..m])
  {
    hide HuffmanOf, Total, Linked, Covered, Greedy, TreeLengths, Kraft, NonDecreasing, Pow2, Cheapest, Picks, Lengths;
    ghost var c0 := huffCount[..m];
    var parent := new nat[TABLE_SIZE];
    var nbBits := new nat[TABLE_SIZE];
    ghost var picks := JoinNodes(huffCount, parent, m);
    SetLengths(parent, nbBits, m);
    LeafLengths(nbBits[..], parent[..], m, picks, c0);
    if Total(c0) < DEEP_TOTAL { LeafHeights(nbBits[..], parent[..], m, picks, c0); }
    leaves := new nat[m](k requires 0 <= k < m && nbBits.Length >= m reads nbBits => nbBits[k]);
    assert leaves[..] == nbBits[..m];
    IsCheapest(c0, leaves[..]);
    IsHuffman(nbBits[..], parent[..], m, picks, c0);
    SortedAtMost(leaves[..]);
    KraftAtHeight(leaves[..], m - 1, leaves[m - 1]);
  }

  lemma {:induction false} IsCheapest(c: seq<nat>, l: seq<nat>)
    requires |c| == |l| && forall k: seq<nat>, D: nat | |k| == |c| && PrefixCode(k, D) :: Cost(c, l) <= Cost(c, k)
    ensures Cheapest(c, l)
  {
  }

  lemma {:induction false} SortedAtMost(l: seq<nat>)
    requires |l| > 0 && NonDecreasing(l)
    ensures AtMost(l, l[|l| - 1])
  {
  }

  lemma {:induction false} LeafHeights(nbBits: seq<nat>, parent: seq<nat>, m: nat, picks: seq<nat>, c0: seq<nat>)
    requires Linked(parent, m, picks) && |picks| == m - 1 && TreeLengths(nbBits, parent, m) && Greedy(c0, picks)
    requires |c0| == m && Total(c0) < DEEP_TOTAL && forall p | 0 <= p < m :: c0[p] > 0
    ensures m <= |nbBits| && AtMost(nbBits[..m], 30)
  {
    hide Linked, TreeLengths, Greedy, Total, Fib, Lengths;
    assert picks[0..] == picks;
    TreeIsList(nbBits, parent, m, picks, 0);
    LeavesFirst(nbBits, parent, m, picks);
    DeepTotal();
    var h := seq(m, _ => 0);
    LeavesGrown(c0, h);
    HeightBound(c0, h, picks, 30);
    forall k | 0 <= k < m ensures nbBits[k] <= 30 { assert Lengths(picks)[k] + h[k] <= 30; }
  }

  lemma {:induction false} LeavesGrown(c: seq<nat>, h: seq<nat>)
    requires |c| == |h| && forall p | 0 <= p < |c| :: c[p] > 0 && h[p] == 0
    ensures Grown(c, h)
  {
  }

  /** Two symbols of the source are in use. */
  ghost predicate TwoUsed(count: seq<nat>) {
    exists s, t :: 0 <= s < t < |count| && count[s] > 0 && count[t] > 0
  }

  /** The used symbols come first in a sorted table, and there are at least two of them. */
  lemma {:induction false} UsedFirst(bytes: seq<nat>, sorted: seq<nat>, count: seq<nat>)
    requires SortedTable(bytes, sorted, count) && TwoUsed(count)
    ensures |count| >= 2 && sorted[0] > 0 && sorted[1] > 0
  {
    var s, t :| 0 <= s < t < |count| && count[s] > 0 && count[t] > 0;
    assert Placed(bytes, |count|, s) && Placed(bytes, |count|, t);
    var i :| 0 <= i < |count| && bytes[i] == s;
    var j :| 0 <= j < |count| && bytes[j] == t;
    assert sorted[i] > 0 && sorted[j] > 0 && i != j;
    assert forall a, b | 0 <= a < b < |count| :: sorted[a] >= sorted[b];
  }

  lemma {:induction false} TotalIsCost(c: seq<nat>, ones: seq<nat>)
    requires |ones| == |c| && forall k | 0 <= k < |ones| :: ones[k] == 1
    ensures Total(c) == Cost(c, ones)
  {
    if |c| > 0 { TotalIsCost(c[..|c| - 1], ones[..|c| - 1]); }
  }

  /** The used symbols make up the whole source. */
  lemma {:induction false} TotalOfUsed(bytes: seq<nat>, sorted: seq<nat>, count: seq<nat>, m: nat)
    requires SortedTable(bytes, sorted, count) && m <= |count|
    ensures m <= |sorted| && Total(sorted[..m]) <= Total(count)
  {
    var n := |count|;
    var ones, all := seq(m, _ => 1), seq(n, _ => 1);
    TableNames(bytes, sorted, count, m);
    ScatterPart(bytes, all, ones, n, m);
    assert ones[..m] == ones;
    ScatterCost(bytes, sorted, count, ones, m);
    CostLess(count, Scatter(bytes, ones, n, m), all);
    TotalIsCost(sorted[..m], ones);
    TotalIsCost(count, all);
  }

  lemma {:induction false} TotalSmall(count: seq<nat>)
    requires |count| > 0 && Total(count) < NOT_YET
    ensures CountsOk(count)
  {
    LargePowers();
    Pow2Strict(30, 31);
    forall s | 0 <= s < |count| ensures count[s] + 1 < Pow2(31) { TotalBound(count, s); }
  }

  /** The sorted table, and the number of symbols in use. */
  method SortedCounts(count: seq<nat>) returns (huffByte: array<nat>, huffCount: array<nat>, nonNullRank: nat)
    requires |count| <= STARTNODE && TwoUsed(count) && Total(count) < NOT_YET
    ensures fresh(huffByte) && fresh(huffCount) && huffByte != huffCount && huffByte.Length == huffCount.Length == TABLE_SIZE
    ensures SortedTable(huffByte[..], huffCount[..], count)
    ensures 1 <= nonNullRank < |count| <= huffCount.Length
    ensures forall k | 0 <= k < |count| :: if k <= nonNullRank then huffCount[k] > 0 else huffCount[k] == 0
    ensures Total(huffCount[..nonNullRank + 1]) <= Total(count)
  {
    hide TwoUsed, Total, CountsOk, SortedTable, Placed;
    huffByte := new nat[TABLE_SIZE];
    huffCount := new nat[TABLE_SIZE];
    TwoSizes(count);
    TotalSmall(count);
    Sort(count, huffByte, huffCount);
    UsedFirst(huffByte[..], huffCount[..], count);
    TableOrder(huffByte[..], huffCount[..], count);
    assert forall k | 0 <= k < |count| :: huffCount[..][k] == huffCount[k];
    nonNullRank := |count| - 1;
    while huffCount[nonNullRank] == 0
      invariant 1 <= nonNullRank < |count|
      invariant forall k | nonNullRank < k < |count| :: huffCount[k] == 0
      decreases nonNullRank
    {
      nonNullRank := nonNullRank - 1;
    }
    TotalOfUsed(huffByte[..], huffCount[..], count, nonNullRank + 1);
  }

  lemma {:induction false} TwoSizes(count: seq<nat>)
    requires TwoUsed(count)
    ensures |count| > 1
  {
  }

  lemma {:induction false} TableOrder(bytes: seq<nat>, sorted: seq<nat>, count: seq<nat>)
    requires SortedTable(bytes, sorted, count)
    ensures |count| <= |sorted| && forall j, k | 0 <= j < k < |count| :: sorted[j] >= sorted[k]
  {
  }

  /** Lengths by symbol, and the number of codes of each length. */
  method StoreLengths(bytes: seq<nat>, leaves: array<nat>, n: nat, M: nat) returns (table: array<CElt>, nbPerRank: array<nat>)
    requires Names(bytes, n, n) && leaves.Length <= n && AtMost(leaves[..], M)
    requires forall s | 0 <= s < n :: Placed(bytes, n, s)
    ensures fresh(table) && fresh(nbPerRank) && table.Length == n && nbPerRank.Length == M + 1
    ensures forall k | 0 <= k < n :: table[bytes[k]].nbBits == if k < leaves.Length then leaves[k] else 0
    ensures forall b: nat {:trigger nbPerRank[b]} | b <= M :: nbPerRank[b] == NbOf(leaves[..], b, leaves.Length)
  {
    nbPerRank := new nat[M + 1](_ => 0);
    for k := 0 to leaves.Length
      invariant forall b: nat {:trigger nbPerRank[b]} | b <= M :: nbPerRank[b] == NbOf(leaves[..], b, k)
    {
      assert leaves[..][k] <= M;
      nbPerRank[leaves[k]] := nbPerRank[leaves[k]] + 1;
    }
    table := new CElt[n](_ => CElt(0, 0));
    for k := 0 to n
      invariant forall i | 0 <= i < k :: table[bytes[i]].nbBits == if i < leaves.Length then leaves[i] else 0
      invariant forall b: nat {:trigger nbPerRank[b]} | b <= M :: nbPerRank[b] == NbOf(leaves[..], b, leaves.Length)
    {
      table[bytes[k]] := table[bytes[k]].(nbBits := if k < leaves.Length then leaves[k] else 0);
    }
  }

  /** A complete code of height exactly `M` for exactly the symbols in use. */
  ghost predicate CodeFor(count: seq<nat>, lens: seq<nat>, M: nat) {
    && FullCode(lens, M) && |lens| == |count|
    && (forall s | 0 <= s < |count| :: lens[s] > 0 <==> count[s] > 0)
    && (exists s :: 0 <= s < |lens| && lens[s] == M)
  }

  /** No code for the source is cheaper. */
  ghost predicate Best(count: seq<nat>, lens: seq<nat>) {
    |lens| == |count| && forall k: seq<nat>, D: nat | Covers(count, k, D) :: SourceBits(count, lens) <= SourceBits(count, k)
  }

  ghost function Marks(count: seq<nat>): seq<nat> {
    seq(|count|, k requires 0 <= k < |count| => if count[k] > 0 then 1 else 0)
  }

  /** Number of symbols in use. */
  ghost function Used(count: seq<nat>): nat {
    Total(Marks(count))
  }

  lemma {:induction false} UsedBound(bytes: seq<nat>, sorted: seq<nat>, count: seq<nat>, m: nat)
    requires SortedTable(bytes, sorted, count) && m <= |count| && forall k | 0 <= k < m :: sorted[k] > 0
    ensures m <= Used(count)
  {
    var n, u := |count|, Marks(count);
    var ones, all := seq(m, _ => 1), seq(n, _ => 1);
    TableNames(bytes, sorted, count, m);
    ScatterPart(bytes, all, ones, n, m);
    assert ones[..m] == ones;
    ScatterCost(bytes, ones, u, ones, m);
    CostLess(u, Scatter(bytes, ones, n, m), all);
    TotalIsCost(ones, ones);
    TotalIsCost(u, all);
    TotalOnes(ones);
  }

  lemma {:induction false} TotalOnes(ones: seq<nat>)
    requires forall k | 0 <= k < |ones| :: ones[k] == 1
    ensures Total(ones) == |ones|
  {
    if |ones| > 0 { TotalOnes(ones[..|ones| - 1]); }
  }

  /** The height limiter stays within its integers. */
  lemma {:induction false} LimitApplies(l: seq<nat>, M: nat)
    requires |l| <= Pow2(M) && |l| > 0
    ensures l[|l| - 1] <= 30 ==> CostInInt(l, M)
  {
    hide Pow2, Shl, CutCost;
    var D := l[|l| - 1];
    CutCostBound(l, M, D, 0);
    if M < D <= 30 {
      ShlMono(|l|, Pow2(M), D - M);
      Pow2IsShl(M, D - M);
      Pow2Mono(D, 30);
      LargePowers();
    }
  }

  lemma {:induction false} BuiltCode(lens: seq<nat>, bytes: seq<nat>, sorted: seq<nat>, count: seq<nat>, l: seq<nat>, M: nat)
    requires CodeOf(lens, bytes, sorted, count, l) && |l| >= 2 && Complete(l, M) && l[|l| - 1] == M
    ensures CodeFor(count, lens, M)
    ensures forall b: nat | b > 0 :: NbOf(lens, b, |lens|) == NbOf(l, b, |l|)
    ensures Cheapest(sorted[..|l|], l) ==> Best(count, lens)
  {
    hide CodeKraft, Kraft, Cost, NbOf;
    NoEmptyCode(l, M);
    CodeMeasures(lens, bytes, sorted, count, l, M);
    KraftPositive(l, M);
    assert lens[bytes[|l| - 1]] == M;
    forall s | 0 <= s < |count| ensures lens[s] <= M && (lens[s] > 0 <==> count[s] > 0) {
      assert Placed(bytes, |count|, s);
      var k :| 0 <= k < |count| && bytes[k] == s;
    }
    if Cheapest(sorted[..|l|], l) {
      forall k: seq<nat>, D: nat | Covers(count, k, D) ensures SourceBits(count, lens) <= SourceBits(count, k) {
        var l' := Gather(k, bytes, sorted, count, |l|, D);
      }
    }
  }

  /** The height limit asked for; 0 stands for the default. */
  function Limit(maxNbBits: nat): nat {
    if maxNbBits == 0 then HUF_TABLELOG_DEFAULT else maxNbBits
  }

  /** The lengths for used symbols with the counts `c`, the most frequent first: limited if the tree is too high. */
  ghost function LimitedLengths(c: seq<nat>, limit: nat): (l: seq<nat>)
    requires 0 < |c| <= NO_SYMBOL
    ensures |l| == |c|
  {
    var l := QueueLengths(c);
    if l[|l| - 1] <= limit then l else Limited(c, l, limit)
  }

  /** `lens` and `M` are the code that HUF_buildCTable makes of the counts. */
  ghost predicate LimitedCode(count: seq<nat>, limit: nat, lens: seq<nat>, M: nat) {
    exists bytes: seq<nat>, sorted: seq<nat>, l: seq<nat> {:trigger CodeOf(lens, bytes, sorted, count, l)} ::
      CodeOf(lens, bytes, sorted, count, l) && LimitedOf(sorted, l, limit, M)
  }

  ghost predicate LimitedOf(sorted: seq<nat>, l: seq<nat>, limit: nat, M: nat) {
    && 0 < |l| <= |sorted| && |l| <= NO_SYMBOL && l == LimitedLengths(sorted[..|l|], limit) && M == l[|l| - 1]
  }

  /** There is only one such code. */
  lemma {:induction false} LimitedCodeUnique(count: seq<nat>, limit: nat, lens: seq<nat>, M: nat, lens': seq<nat>, M': nat)
    requires LimitedCode(count, limit, lens, M) && LimitedCode(count, limit, lens', M')
    ensures lens == lens' && M == M'
  {
    hide LimitedLengths, CodeOf, SortedTable;
    var a: seq<nat>, c: seq<nat>, l: seq<nat> :| CodeOf(lens, a, c, count, l) && LimitedOf(c, l, limit, M);
    var a': seq<nat>, c': seq<nat>, l': seq<nat> :| CodeOf(lens', a', c', count, l') && LimitedOf(c', l', limit, M');
    CodeParts(lens, a, c, count, l);
    CodeParts(lens', a', c', count, l');
    TableUnique(a, c, a', c', count, |count|);
    SameUsed(c, c', |count|, |l|, |l'|);
    assert c[..|l|] == c'[..|l|];
    SameLens(lens, a, c, lens', a', c', count, l);
  }

  lemma {:induction false} SameUsed(c: seq<nat>, c': seq<nat>, n: nat, m: nat, m': nat)
    requires m <= n <= |c| && m' <= n <= |c'| && forall k | 0 <= k < n :: c[k] == c'[k]
    requires forall k | 0 <= k < n :: if k < m then c[k] > 0 else c[k] == 0
    requires forall k | 0 <= k < n :: if k < m' then c'[k] > 0 else c'[k] == 0
    ensures m == m'
  {
    assert m < n ==> c[m] == c'[m] && c[m] == 0;
    assert m' < n ==> c[m'] == c'[m'] && c'[m'] == 0;
  }

  lemma {:induction false} CodeParts(lens: seq<nat>, bytes: seq<nat>, sorted: seq<nat>, count: seq<nat>, l: seq<nat>)
    requires CodeOf(lens, bytes, sorted, count, l)
    ensures SortedTable(bytes, sorted, count) && |l| <= |count| <= |bytes| == |sorted|
    ensures forall k | 0 <= k < |count| :: if k < |l| then sorted[k] > 0 else sorted[k] == 0
  {
    TableSize(bytes, sorted, count);
    hide SortedTable;
  }

  lemma {:induction false} SameLens(lens: seq<nat>, a: seq<nat>, c: seq<nat>, lens': seq<nat>, a': seq<nat>, c': seq<nat>, count: seq<nat>, l: seq<nat>)
    requires CodeOf(lens, a, c, count, l) && CodeOf(lens', a', c', count, l) && |count| <= |a| && |count| <= |a'|
    requires forall k | 0 <= k < |count| :: a[k] == a'[k]
    ensures lens == lens'
  {
    forall s | 0 <= s < |count| ensures lens[s] == lens'[s] {
      assert Placed(a, |count|, s);
      var k :| 0 <= k < |count| && a[k] == s;
    }
  }

  /** `tree` has the lengths of a Huffman tree of the symbols in use, the most frequent first. */
  ghost predicate TreeOf(count: seq<nat>, tree: seq<nat>) {
    exists bytes: seq<nat>, sorted: seq<nat> :: SortedTable(bytes, sorted, count) && TreeOfSorted(sorted, |count|, tree)
  }

  ghost predicate TreeOfSorted(sorted: seq<nat>, n: nat, tree: seq<nat>) {
    && 2 <= |tree| <= n <= |sorted| && (forall k | 0 <= k < n :: k < |tree| <==> sorted[k] > 0)
    && HuffmanOf(sorted[..|tree|], tree)
  }

  /**
    HUF_buildCTable_wksp. The result is the canonical table of a complete code for exactly the symbols in
    use, of height exactly `r.value`; if the limit did not bind, no code for the source is cheaper. `inRange` is
    false exactly if the tree is so deep that the height limiter overflows an int; no source of fewer than
    3,524,578 symbols leads to such a tree.
   */
  method BuildCTable(count: seq<nat>, maxNbBits: nat)
    returns (r: Result<nat>, inRange: bool, table: array<CElt>, ghost lens: seq<nat>, ghost tree: seq<nat>)
    requires TwoUsed(count) && Total(count) < NOT_YET
    requires maxNbBits <= HUF_TABLELOG_MAX && Used(count) <= Pow2(Limit(maxNbBits))
    ensures Total(count) < DEEP_TOTAL ==> inRange
    ensures |count| - 1 > HUF_SYMBOLVALUE_MAX ==> inRange
    ensures |count| - 1 <= HUF_SYMBOLVALUE_MAX ==> TreeOf(count, tree) && (inRange <==> CostInInt(tree, Limit(maxNbBits)))
    ensures inRange ==> (r.Err? <==> |count| - 1 > HUF_SYMBOLVALUE_MAX)
    ensures inRange && r.Ok? ==> r.value <= Limit(maxNbBits) && LimitedCode(count, Limit(maxNbBits), lens, r.value)
    ensures inRange && r.Ok? ==> fresh(table) && CodeTable(table[..], lens, r.value) && CodeFor(count, lens, r.value)
    ensures inRange && r.Ok? && r.value < Limit(maxNbBits) ==> Best(count, lens)
  {
    hide TwoUsed, Used, Total, CodeFor, Best, CodeTable, Pow2, TreeOf, CostInInt, LimitedCode;
    tree := [];
    if |count| - 1 > HUF_SYMBOLVALUE_MAX {
      lens, table := [], new CElt[0];
      return Err(MaxSymbolValueTooLarge), true, table, lens, [];
    }
    var height;
    inRange, height, table, lens, tree := BuildTable(count, Limit(maxNbBits));
    r := Ok(height);
  }

  method BuildTable(count: seq<nat>, maxNbBits: nat)
    returns (inRange: bool, height: nat, table: array<CElt>, ghost lens: seq<nat>, ghost tree: seq<nat>)
    requires |count| <= STARTNODE && TwoUsed(count) && Total(count) < NOT_YET
    requires maxNbBits <= HUF_TABLELOG_MAX && Used(count) <= Pow2(maxNbBits)
    ensures Total(count) < DEEP_TOTAL ==> inRange
    ensures TreeOf(count, tree) && (inRange <==> CostInInt(tree, maxNbBits))
    ensures inRange ==> height <= maxNbBits && LimitedCode(count, maxNbBits, lens, height)
    ensures inRange ==> fresh(table) && CodeTable(table[..], lens, height) && CodeFor(count, lens, height)
    ensures inRange && height < maxNbBits ==> Best(count, lens)
  {
    hide *;
    var huffByte, huffCount, nonNullRank := SortedCounts(count);
    ghost var sorted := huffCount[..];
    var leaves;
    inRange, leaves, height, tree := LimitedLeaves(huffCount, nonNullRank, maxNbBits, huffByte[..], count);
    IsTree(huffByte[..], sorted, count, tree);
    if !inRange {
      table, lens := new CElt[0], [];
      return;
    }
    TableIsNames(huffByte[..], sorted, count);
    var nbPerRank: array<nat>;
    table, nbPerRank := StoreLengths(huffByte[..|count|], leaves, |count|, height);
    lens := seq(|count|, k requires 0 <= k < table.Length reads table => table[k].nbBits);
    StoredCode(lens, huffByte[..], sorted, count, leaves[..], height);
    IsLimited(lens, huffByte[..], sorted, count, leaves[..], maxNbBits, height);
    var valPerRank := RankValues(nbPerRank[..], height, lens);
    AssignValues(lens, height, valPerRank, table);
  }

  lemma {:induction false} IsTree(bytes: seq<nat>, sorted: seq<nat>, count: seq<nat>, tree: seq<nat>)
    requires SortedTable(bytes, sorted, count) && 2 <= |tree| <= |count| <= |sorted|
    requires (forall k | 0 <= k < |count| :: k < |tree| <==> sorted[k] > 0) && HuffmanOf(sorted[..|tree|], tree)
    ensures TreeOf(count, tree)
  {
    hide HuffmanOf, SortedTable;
    assert TreeOfSorted(sorted, |count|, tree);
  }

  lemma {:induction false} TableIsNames(bytes: seq<nat>, sorted: seq<nat>, count: seq<nat>)
    requires SortedTable(bytes, sorted, count)
    ensures |count| <= |bytes| && Names(bytes[..|count|], |count|, |count|)
    ensures forall s | 0 <= s < |count| :: Placed(bytes[..|count|], |count|, s)
  {
    forall s | 0 <= s < |count| ensures Placed(bytes[..|count|], |count|, s) {
      assert Placed(bytes, |count|, s);
      var k :| 0 <= k < |count| && bytes[k] == s;
      assert bytes[..|count|][k] == s;
    }
  }

  lemma {:induction false} StoredCode(lens: seq<nat>, bytes: seq<nat>, sorted: seq<nat>, count: seq<nat>, l: seq<nat>, M: nat)
    requires SortedTable(bytes, sorted, count) && |count| <= |bytes| && |count| <= |sorted| && 2 <= |l| <= |count| == |lens|
    requires forall k | 0 <= k < |count| :: if k < |l| then sorted[k] > 0 else sorted[k] == 0
    requires forall k | 0 <= k < |count| :: bytes[k] < |lens| && lens[bytes[k]] == if k < |l| then l[k] else 0
    requires Complete(l, M) && l[|l| - 1] == M
    ensures CodeFor(count, lens, M) && AtMost(lens, M) && CodeOf(lens, bytes, sorted, count, l)
    ensures forall b: nat | b > 0 :: NbOf(lens, b, |lens|) == NbOf(l, b, |l|)
    ensures Cheapest(sorted[..|l|], l) ==> Best(count, lens)
  {
    hide Complete, Cheapest, Best, NbOf;
    BuiltCode(lens, bytes, sorted, count, l, M);
  }

  lemma {:induction false} IsLimited(lens: seq<nat>, bytes: seq<nat>, sorted: seq<nat>, count: seq<nat>, l: seq<nat>, limit: nat, M: nat)
    requires CodeOf(lens, bytes, sorted, count, l) && LimitedOf(sorted, l, limit, M)
    ensures LimitedCode(count, limit, lens, M)
  {
  }

  /** The leaf lengths after the limiter, in table order. */
  method LimitedLeaves(huffCount: array<nat>, nonNullRank: nat, maxNbBits: nat, ghost bytes: seq<nat>, ghost count: seq<nat>)
    returns (inRange: bool, leaves: array<nat>, height: nat, ghost tree: seq<nat>)
    requires huffCount.Length == TABLE_SIZE && 1 <= nonNullRank < |count| <= STARTNODE
    requires SortedTable(bytes, huffCount[..], count)
    requires forall k | 0 <= k <= nonNullRank :: huffCount[k] > 0
    requires Total(huffCount[..nonNullRank + 1]) <= Total(count) < NOT_YET
    requires maxNbBits <= HUF_TABLELOG_MAX && Used(count) <= Pow2(maxNbBits)
    modifies huffCount
    ensures |tree| == nonNullRank + 1 && HuffmanOf(old(huffCount[..nonNullRank + 1]), tree) && (inRange <==> CostInInt(tree, maxNbBits))
    ensures Total(count) < DEEP_TOTAL ==> inRange
    ensures fresh(leaves) && leaves.Length == nonNullRank + 1
    ensures inRange ==> Complete(leaves[..], height) && leaves[nonNullRank] == height <= maxNbBits
    ensures inRange ==> LimitedOf(old(huffCount[..]), leaves[..], maxNbBits, height)
    ensures inRange ==> AtMost(leaves[..], height)
    ensures inRange && height < maxNbBits ==> Cheapest(old(huffCount[..nonNullRank + 1]), leaves[..])
  {
    hide Used, Total, Cheapest, Kraft, HuffmanOf, CostInInt, CutCost, Limited, QueueLengths;
    ghost var m, counts := nonNullRank + 1, huffCount[..];
    assert counts[..m] == huffCount[..m];
    UsedBound(bytes, huffCount[..], count, m);
    assert forall p, q | 0 <= p < q < m :: huffCount[..][p] >= huffCount[..][q];
    leaves := LeavesOf(huffCount, nonNullRank + 1);
    LimitApplies(leaves[..], maxNbBits);
    tree := leaves[..];
    inRange := CostInInt(leaves[..], maxNbBits);
    if !inRange { height := leaves[nonNullRank]; return; }
    QueueOf(counts[..m], tree);
    height := SetMaxHeight(huffCount[..nonNullRank + 1], leaves, maxNbBits);
  }

  lemma {:induction false} QueueOf(c: seq<nat>, l: seq<nat>)
    requires HuffmanOf(c, l)
    ensures l == QueueLengths(c)
  {
  }
}
