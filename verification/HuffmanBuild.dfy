/**
  calculate_huffman_codes: the two rarest roots are joined until one is left, and the paths in that tree are a
  shortest prefix code of the source.
 */
module HuffmanBuild {
  import opened Bits
  import opened FseSpread
  import opened HuffmanLabels
  import opened HuffmanNodes
  import opened HuffmanCodes
  import opened HuffmanBest
  import opened HufTree

  // ---------- joining ----------

  /** `m` roots are left of `n` leaves. */
  ghost predicate Joining(table: seq<Node?>, pool: seq<Node>, cells: seq<Cell>, n: nat, m: nat) {
    && |table| == n && |cells| + m == n + n && 1 <= m <= n && Forest(cells, n)
    && Roots(multiset(table), pool, cells) && multiset(table)[null] + m == n
  }

  /** The symbols and counts of the leaves, which do not change. */
  ghost predicate SameLeaves(cells0: seq<Cell>, cells: seq<Cell>) {
    |cells0| <= |cells|
    && forall x: nat | x < |cells0| :: cells[x].symbol == cells0[x].symbol && cells[x].count == cells0[x].count
  }

  /** The one root left is the first entry. */
  lemma {:induction false} LastRoot(table: seq<Node?>, pool: seq<Node>, cells: seq<Cell>, n: nat) returns (r: nat)
    requires Joining(table, pool, cells, n, 1) && Ascending(table)
    requires forall x: nat, y: nat | x < y < |pool| :: pool[x] != pool[y]
    ensures r < |cells| == |pool| && table[0] == pool[r] && OneRoot(cells, r)
  {
    RootAt(table, 0);
    r := RootIndex(table, pool, cells, 0);
    var ms := multiset(table);
    forall x: nat | x < |cells| && cells[x].up == -1 ensures x == r {
      if x != r {
        assert table[0] in ms && ms[pool[r]] == 1 && ms[pool[x]] == 1;
        ThreeKinds(ms, null, pool[r], pool[x]);
      }
    }
  }

  lemma {:induction false} ThreeKinds(ms: multiset<Node?>, a: Node?, b: Node?, c: Node?)
    requires a != b && b != c && a != c
    ensures ms[a] + ms[b] + ms[c] <= |ms|
  {
    var rest := ms[a := 0][b := 0][c := 0];
    assert |ms[a := 0]| == |ms| - ms[a];
    assert |ms[a := 0][b := 0]| == |ms| - ms[a] - ms[b];
    assert |rest| == |ms| - ms[a] - ms[b] - ms[c];
  }

  // ---------- the counts of the roots ----------

  /** The counts of the entries that are not null. */
  ghost function CountsOf(s: seq<Node?>): seq<nat>
    reads s`count
  {
    if |s| == 0 then [] else CountsOf(s[..|s| - 1]) + CountOf(s[|s| - 1])
  }

  ghost function CountOf(p: Node?): seq<nat>
    reads {p}`count
  {
    if p == null then [] else [p.count]
  }

  lemma {:induction false} CountsConcat(a: seq<Node?>, b: seq<Node?>)
    ensures CountsOf(a + b) == CountsOf(a) + CountsOf(b)
  {
    if |b| == 0 {
      assert a + b == a;
    } else {
      var n := |b| - 1;
      assert (a + b)[..|a| + n] == a + b[..n];
      CountsConcat(a, b[..n]);
    }
  }

  lemma {:induction false} CountsOne(p: Node?)
    ensures CountsOf([p]) == CountOf(p)
  {
    assert [p][..0] == [];
  }

  /** The last entry of one table, in another with the same entries. */
  lemma {:induction false} TakenOut(s: seq<Node?>, t: seq<Node?>) returns (i: nat)
    requires multiset(s) == multiset(t) && |t| > 0
    ensures i < |s| && s[i] == t[|t| - 1]
    ensures var rest: seq<Node?> := s[..i] + s[i + 1..]; multiset(rest) == multiset(t[..|t| - 1])
  {
    var n := |t| - 1;
    assert t == t[..n] + [t[n]];
    assert t[n] in multiset(s);
    i :| i < |s| && s[i] == t[n];
    assert s == s[..i] + [t[n]] + s[i + 1..];
    var rest: seq<Node?> := s[..i] + s[i + 1..];
    assert multiset(rest) == multiset(s) - multiset{t[n]} && multiset(t[..n]) == multiset(t) - multiset{t[n]};
  }

  lemma {:induction false} CountsWithout(s: seq<Node?>, i: nat)
    requires i < |s|
    ensures multiset(CountsOf(s)) == multiset(CountsOf(s[..i] + s[i + 1..])) + multiset(CountOf(s[i]))
  {
    hide CountOf;
    assert s == s[..i] + [s[i]] + s[i + 1..];
    CountsConcat(s[..i] + [s[i]], s[i + 1..]);
    CountsConcat(s[..i], [s[i]]);
    CountsConcat(s[..i], s[i + 1..]);
    CountsOne(s[i]);
  }

  /** The same entries have the same counts, in some order. */
  lemma {:induction false} CountsPerm(s: seq<Node?>, t: seq<Node?>)
    requires multiset(s) == multiset(t)
    ensures multiset(CountsOf(s)) == multiset(CountsOf(t))
    decreases |t|
  {
    hide CountOf;
    assert |multiset(s)| == |s| && |multiset(t)| == |t|;
    if |t| > 0 {
      var i := TakenOut(s, t);
      CountsPerm(s[..i] + s[i + 1..], t[..|t| - 1]);
      CountsWithout(s, i);
    }
  }

  lemma {:induction false} CountsAtLeast(s: seq<Node?>, v: nat)
    requires forall i | 0 <= i < |s| :: s[i] == null || s[i].count >= v
    ensures forall k | 0 <= k < |CountsOf(s)| :: CountsOf(s)[k] >= v
  {
    if |s| > 0 { CountsAtLeast(s[..|s| - 1], v); }
  }

  /** The first two entries have the smallest counts. */
  lemma {:induction false} FirstCounts(s: seq<Node?>)
    requires Ascending(s) && 2 <= |s| && s[0] != null && s[1] != null
    ensures CountsOf(s) == [s[0].count, s[1].count] + CountsOf(s[2..]) && TwoSmallest(CountsOf(s), 0)
  {
    assert s == [s[0]] + ([s[1]] + s[2..]);
    CountsConcat([s[0]], [s[1]] + s[2..]);
    CountsConcat([s[1]], s[2..]);
    CountsOne(s[0]);
    CountsOne(s[1]);
    forall i | 0 <= i < |s[2..]| ensures s[2..][i] == null || s[2..][i].count >= s[1].count {
      assert NotAfter(s[1], s[i + 2]);
    }
    assert NotAfter(s[0], s[1]);
    CountsAtLeast(s[2..], s[1].count);
    hide CountsOf, Ascending, NotAfter;
  }

  /** After the join, before the sort. */
  lemma {:induction false} JoinedCounts(s: seq<Node?>, p: Node)
    requires 2 <= |s|
    ensures CountsOf(s[0 := p][1 := null]) == [p.count] + CountsOf(s[2..])
  {
    hide CountsOf;
    assert s[0 := p][1 := null] == [p] + ([null] + s[2..]);
    CountsConcat([p], [null] + s[2..]);
    CountsConcat([null], s[2..]);
    CountsOne(p);
    CountsOne(null);
  }

  lemma {:induction false} JoinTotalSame(cells: seq<Cell>, cells': seq<Cell>, n: nat, m: nat)
    requires m <= |cells| && m <= |cells'| && forall x: nat | x < m :: cells'[x].count == cells[x].count
    ensures JoinTotal(cells', n, m) == JoinTotal(cells, n, m)
  {
    if m > n { JoinTotalSame(cells, cells', n, m - 1); }
  }

  lemma {:induction false} JoinTotalNext(cells: seq<Cell>, n: nat, a: nat, b: nat)
    requires a < |cells| && b < |cells| && n <= |cells|
    ensures |Joined(cells, a, b)| == |cells| + 1
    ensures JoinTotal(Joined(cells, a, b), n, |cells| + 1) == JoinTotal(cells, n, |cells|) + cells[a].count + cells[b].count
    ensures LeafCounts(Joined(cells, a, b), n) == LeafCounts(cells, n)
  {
    hide Joined;
    JoinedAt(cells, a, b);
    JoinTotalSame(cells, Joined(cells, a, b), n, |cells|);
  }

  /** The tree so far is as short as it can be. */
  ghost predicate ShortSoFar(leaves: seq<nat>, counts: seq<nat>, cells: seq<Cell>, n: nat) {
    n <= |cells| && leaves == LeafCounts(cells, n) && Bound(leaves, counts, JoinTotal(cells, n, |cells|))
  }

  /** A join of the two rarest roots keeps it so. */
  lemma {:induction false} ShortNext(leaves: seq<nat>, w: seq<nat>, w': seq<nat>, cells: seq<Cell>, n: nat, a: nat, b: nat)
    requires ShortSoFar(leaves, w, cells, n) && TwoSmallest(w, 0) && a < |cells| && b < |cells|
    requires w[0] == cells[a].count && w[1] == cells[b].count
    requires multiset(w') == multiset(w[2..]) + multiset{w[0] + w[1]}
    ensures ShortSoFar(leaves, w', Joined(cells, a, b), n)
  {
    hide Bound, JoinTotal, Joined, LeafCounts;
    JoinTotalNext(cells, n, a, b);
    BoundNext(leaves, w, w', JoinTotal(cells, n, |cells|));
  }

  /** One join, and the table sorted again. */
  method JoinAndSort(pSF: array<Node?>, n: nat, ghost pool: seq<Node>, ghost cells: seq<Cell>, ghost m: nat, ghost leaves: seq<nat>)
    returns (ghost pool': seq<Node>, ghost cells': seq<Cell>)
    requires n <= pSF.Length && m >= 1
    requires Matches(pool, cells, n) && Ascending(pSF[..n]) && Joining(pSF[..n], pool, cells, n, m + 1)
    requires ShortSoFar(leaves, CountsOf(pSF[..n]), cells, n)
    modifies pSF, pool`parent
    ensures |pool'| == |pool| + 1 && pool'[..|pool|] == pool && fresh(pool'[|pool|])
    ensures Matches(pool', cells', n) && Ascending(pSF[..n]) && Joining(pSF[..n], pool', cells', n, m) && Grows(cells, cells')
    ensures ShortSoFar(leaves, CountsOf(pSF[..n]), cells', n)
    ensures pSF[n..] == old(pSF[n..])
  {
    hide *;
    ghost var s := pSF[..n];
    JoiningSizes(s, pool, cells, n, m + 1);
    TwoRoots(s, n, m);
    ghost var a, b;
    pool', cells', a, b := JoinFirst(pSF, n, pool, cells);
    ghost var t := pSF[..n];
    QSort(pSF, n);
    ghost var t' := pSF[..n];
    AfterSort(s, t, t', pool'[|pool|], pool', cells, n, m, leaves, a, b);
  }

  /** Two roots or more come first in a sorted table. */
  lemma {:induction false} TwoRoots(s: seq<Node?>, n: nat, m: nat)
    requires Ascending(s) && |s| == n && 1 <= m && multiset(s)[null] + m + 1 == n
    ensures 2 <= n && s[0] != null && s[1] != null
  {
    hide Ascending;
    RootAt(s, 0);
    RootAt(s, 1);
  }

  /** The join of the first two entries of `s` is `t`, up to the new node; `t'` is the table sorted again. */
  lemma {:induction false} AfterSort(s: seq<Node?>, t: seq<Node?>, t': seq<Node?>, p: Node, pool: seq<Node>, cells: seq<Cell>,
                                     n: nat, m: nat, leaves: seq<nat>, a: nat, b: nat)
    requires Ascending(s) && |s| == |t'| == n >= 2 && s[0] != null && s[1] != null && multiset(t') == multiset(t)
    requires t == s[0 := p][1 := null] && p.count == s[0].count + s[1].count && a < |cells| && b < |cells| && |cells| + m + 1 == n + n
    requires Matches(pool, Joined(cells, a, b), n) && a < |pool| && b < |pool| && pool[a] == s[0] && pool[b] == s[1]
    requires Forest(Joined(cells, a, b), n) && Roots(multiset(t), pool, Joined(cells, a, b)) && multiset(t)[null] + m == n && 1 <= m
    requires ShortSoFar(leaves, CountsOf(s), cells, n)
    ensures Joining(t', pool, Joined(cells, a, b), n, m) && Grows(cells, Joined(cells, a, b))
    ensures ShortSoFar(leaves, CountsOf(t'), Joined(cells, a, b), n)
  {
    hide Forest, Matches, Ascending, Roots, Joining, Grows, CountsOf, ShortSoFar, Joined, TwoSmallest;
    FirstCounts(s);
    JoinedGrows(cells, a, b);
    JoinedCounts(s, p);
    CountsPerm(t', t);
    JoiningNext(t', t, pool, Joined(cells, a, b), n, m);
    CellCounts(pool, Joined(cells, a, b), n, a, b);
    JoinedKeeps(cells, a, b);
    ShortNext(leaves, CountsOf(s), CountsOf(t'), cells, n, a, b);
  }

  lemma {:induction false} JoiningNext(t': seq<Node?>, t: seq<Node?>, pool: seq<Node>, cells: seq<Cell>, n: nat, m: nat)
    requires multiset(t') == multiset(t) && |t'| == n && Roots(multiset(t), pool, cells) && multiset(t)[null] + m == n
    requires |cells| + m == n + n && 1 <= m && Forest(cells, n)
    ensures Joining(t', pool, cells, n, m)
  {
    hide Forest, Roots;
  }

  lemma {:induction false} CellCounts(pool: seq<Node>, cells: seq<Cell>, n: nat, a: nat, b: nat)
    requires Matches(pool, cells, n) && a < |pool| && b < |pool|
    ensures |pool| == |cells| && pool[a].count == cells[a].count && pool[b].count == cells[b].count
  {
    assert NodeIs(pool, pool[a], cells[a], a < n) && NodeIs(pool, pool[b], cells[b], b < n);
  }

  lemma {:induction false} JoinedKeeps(cells: seq<Cell>, a: nat, b: nat)
    requires a < |cells| && b < |cells|
    ensures |Joined(cells, a, b)| == |cells| + 1
    ensures Joined(cells, a, b)[a].count == cells[a].count && Joined(cells, a, b)[b].count == cells[b].count
  {
  }

  lemma {:induction false} JoiningSizes(table: seq<Node?>, pool: seq<Node>, cells: seq<Cell>, n: nat, m: nat)
    requires Joining(table, pool, cells, n, m)
    ensures |pool| == |cells| >= n && |table| == n && |cells| + m == n + n && m <= n && multiset(table)[null] + m == n
    ensures Forest(cells, n) && Roots(multiset(table), pool, cells)
  {
    hide Forest;
  }

  lemma {:induction false} LeavesSame(cells: seq<Cell>)
    ensures SameLeaves(cells, cells)
  {
  }

  lemma {:induction false} StillSame(cells0: seq<Cell>, cells: seq<Cell>, cells': seq<Cell>)
    requires SameLeaves(cells0, cells) && Grows(cells, cells')
    ensures SameLeaves(cells0, cells')
  {
  }

  /** The joins, until one root is left. */
  method BuildTree(pSF: array<Node?>, n: nat, ghost pool0: seq<Node>, ghost cells0: seq<Cell>, ghost leaves: seq<nat>)
    returns (ghost pool: seq<Node>, ghost cells: seq<Cell>)
    requires 1 <= n <= pSF.Length && ShortSoFar(leaves, CountsOf(pSF[..n]), cells0, n) && Matches(pool0, cells0, n) &&
             Ascending(pSF[..n]) && Joining(pSF[..n], pool0, cells0, n, n)
    modifies pSF, pool0`parent
    ensures Matches(pool, cells, n) && Ascending(pSF[..n]) && Joining(pSF[..n], pool, cells, n, 1) && SameLeaves(cells0, cells)
    ensures ShortSoFar(leaves, CountsOf(pSF[..n]), cells, n)
    ensures pSF[n..] == old(pSF[n..])
  {
    hide Matches, Ascending, Joining, Grows, SameLeaves, ShortSoFar, CountsOf;
    pool, cells := pool0, cells0;
    LeavesSame(cells);
    for i := 1 to n
      invariant forall k: nat | k < |pool| :: pool[k] in pool0 || fresh(pool[k])
      invariant Matches(pool, cells, n) && Ascending(pSF[..n]) && Joining(pSF[..n], pool, cells, n, n + 1 - i) && SameLeaves(cells0, cells)
      invariant pSF[n..] == old(pSF[n..]) && ShortSoFar(leaves, CountsOf(pSF[..n]), cells, n)
    {
      ghost var before, cells1 := pool, cells;
      pool, cells := JoinAndSort(pSF, n, pool, cells, n - i, leaves);
      StillSame(cells0, cells1, cells);
      assert forall k: nat | k < |before| :: pool[k] == before[k];
    }
  }

  // ---------- the code as a whole ----------

  /** A code for the symbols of `src`: the entries hold `paths`, and no path is the beginning of another. */
  ghost predicate CodesFor(se: seq<Slot>, paths: seq<seq<bool>>, src: seq<byte>) {
    && |se| == |paths| == MAX_SYMBOLS
    && (forall s: nat | s < MAX_SYMBOLS :: se[s].Coded? <==> Occ(src, |src|, s) > 0)
    && (forall s: nat | s < MAX_SYMBOLS && se[s].Coded? :: CodeIs(se[s].code, paths[s]) && |paths[s]| < MAX_SYMBOLS)
    && (forall s: nat, t: nat | s < MAX_SYMBOLS && t < MAX_SYMBOLS && se[s].Coded? && se[t].Coded? && paths[s] <= paths[t] :: s == t)
    && (forall s: nat | s < MAX_SYMBOLS && se[s].Coded? && |paths[s]| > 0 :: exists t: nat :: t < MAX_SYMBOLS && t != s && se[t].Coded?)
  }

  ghost function PathOf(cells: seq<Cell>, n: nat, s: nat): seq<bool>
    requires Forest(cells, n)
  {
    var x := LeafOf(cells, n, s);
    if x >= 0 then Label(cells, n, x) else []
  }

  ghost function Paths(cells: seq<Cell>, n: nat): seq<seq<bool>>
    requires Forest(cells, n)
  {
    seq(MAX_SYMBOLS, s requires 0 <= s < MAX_SYMBOLS => PathOf(cells, n, s))
  }

  ghost predicate NothingCoded(se: seq<Slot>) {
    |se| == MAX_SYMBOLS && forall s | 0 <= s < MAX_SYMBOLS :: se[s] == NoCode
  }

  /** The entry for a symbol, after all leaves have been coded. */
  lemma {:induction false} EntryOf(se0: seq<Slot>, se: seq<Slot>, cells: seq<Cell>, n: nat, r: nat, s: nat)
    requires CodedBelow(se0, se, cells, n, r) && OneRoot(cells, r) && NothingCoded(se0) && s < MAX_SYMBOLS
    ensures se[s].Coded? <==> LeafOf(cells, n, s) >= 0
    ensures se[s].Coded? ==> CodeIs(se[s].code, PathOf(cells, n, s))
  {
    hide CodeIs, Label, Under;
    var x := LeafOf(cells, n, s);
    if x >= 0 {
      UnderRoot(cells, n, r, x);
      assert LeafCoded(se, cells, n, x);
    } else {
      assert se[s] == se0[s];
    }
  }

  lemma {:induction false} PathsOf(cells: seq<Cell>, n: nat, r: nat, s: nat, t: nat)
    requires Forest(cells, n) && OneRoot(cells, r) && LeafOf(cells, n, s) >= 0 && LeafOf(cells, n, t) >= 0
    requires |cells| + 1 == n + n && n <= MAX_SYMBOLS
    ensures |PathOf(cells, n, s)| < MAX_SYMBOLS && (|PathOf(cells, n, s)| > 0 ==> n > 1)
    ensures PathOf(cells, n, s) <= PathOf(cells, n, t) ==> s == t
  {
    hide Label;
    var x, y := LeafOf(cells, n, s), LeafOf(cells, n, t);
    LabelLength(cells, n, x);
    if PathOf(cells, n, s) <= PathOf(cells, n, t) { LeafPrefix(cells, n, r, x, y); }
  }

  /** With two leaves, there is a symbol other than `s`. */
  lemma {:induction false} AnotherLeaf(cells: seq<Cell>, n: nat, s: nat) returns (t: nat)
    requires Forest(cells, n) && n > 1
    ensures t < MAX_SYMBOLS && t != s && LeafOf(cells, n, t) >= 0
  {
    t := if cells[0].symbol == s then cells[1].symbol else cells[0].symbol;
  }

  lemma {:induction false} LeavesBound(cells: seq<Cell>, n: nat, src: seq<byte>)
    requires LeavesFor(cells, n, src)
    ensures n <= MAX_SYMBOLS && n <= |cells|
    ensures forall s: nat | s < MAX_SYMBOLS :: LeafOf(cells, n, s) >= 0 <==> Occ(src, |src|, s) > 0
  {
    hide LeafOf, Occ;
  }

  lemma {:induction false} WholeCode(se0: seq<Slot>, se: seq<Slot>, cells: seq<Cell>, n: nat, r: nat, src: seq<byte>)
    requires CodedBelow(se0, se, cells, n, r) && OneRoot(cells, r) && NothingCoded(se0) && LeavesFor(cells, n, src)
    requires |cells| + 1 == n + n && Forest(cells, n) && |se| == MAX_SYMBOLS
    ensures CodesFor(se, Paths(cells, n), src)
  {
    hide CodedBelow, OneRoot, Forest, CodeIs, PathOf, Occ, LeafOf, LeavesFor, NothingCoded, Label;
    LeavesBound(cells, n, src);
    forall s: nat | s < MAX_SYMBOLS
      ensures (se[s].Coded? <==> LeafOf(cells, n, s) >= 0) && (se[s].Coded? ==> CodeIs(se[s].code, PathOf(cells, n, s)))
    {
      EntryOf(se0, se, cells, n, r, s);
    }
    forall s: nat, t: nat | s < MAX_SYMBOLS && t < MAX_SYMBOLS && se[s].Coded? && se[t].Coded?
      ensures |PathOf(cells, n, s)| < MAX_SYMBOLS && (PathOf(cells, n, s) <= PathOf(cells, n, t) ==> s == t)
    {
      PathsOf(cells, n, r, s, t);
    }
    forall s: nat | s < MAX_SYMBOLS && se[s].Coded? && |PathOf(cells, n, s)| > 0
      ensures exists t: nat :: t < MAX_SYMBOLS && t != s && se[t].Coded?
    {
      PathsOf(cells, n, r, s, s);
      var t := AnotherLeaf(cells, n, s);
    }
  }

  // ---------- counting the roots ----------

  lemma {:induction false} NullsExactly(s: seq<Node?>, n: nat)
    requires n <= |s| && (forall i | 0 <= i < n :: s[i] != null) && (forall i | n <= i < |s| :: s[i] == null)
    ensures multiset(s)[null] == |s| - n && multiset(s[..n])[null] == 0
  {
    assert s == s[..n] + s[n..];
    AllNull(s[n..]);
    NoNull(s[..n]);
  }

  lemma {:induction false} NoNull(s: seq<Node?>)
    requires forall i | 0 <= i < |s| :: s[i] != null
    ensures multiset(s)[null] == 0
  {
  }

  /** The roots come first; the rest of the table is empty. */
  lemma {:induction false} RootsFirst(table: seq<Node?>, pool: seq<Node>, cells: seq<Cell>, n: nat)
    requires Ascending(table) && Listed(table, pool, cells) && |table| == MAX_SYMBOLS && n <= |table| && AllRoots(cells)
    requires (forall i | 0 <= i < n :: table[i] != null) && (n < |table| ==> table[n] == null)
    ensures n == |cells| && Ascending(table[..n]) && (n > 0 ==> Joining(table[..n], pool, cells, n, n))
  {
    hide Ascending, Forest;
    NullsLast(table, n);
    NullsExactly(table, n);
    RootsForest(cells);
    assert table == table[..n] + table[n..];
    AllNull(table[n..]);
    var ms, first, rest := multiset(table), multiset(table[..n]), multiset(table[n..]);
    assert ms == first + rest;
    forall x: nat | x < |pool| ensures first[pool[x]] == ms[pool[x]] { assert pool[x] !in rest; }
    AscendingPart(table, n);
  }

  lemma {:induction false} NullsLast(table: seq<Node?>, n: nat)
    requires Ascending(table) && n <= |table| && (n < |table| ==> table[n] == null)
    ensures forall i | n <= i < |table| :: table[i] == null
  {
    forall i | n <= i < |table| ensures table[i] == null { if n < i { assert NotAfter(table[n], table[i]); } }
  }

  lemma {:induction false} AscendingPart(s: seq<Node?>, n: nat)
    requires Ascending(s) && n <= |s|
    ensures Ascending(s[..n])
  {
  }

  lemma {:induction false} LeafOfSame(cells0: seq<Cell>, cells: seq<Cell>, n: nat, s: nat)
    requires SameLeaves(cells0, cells) && n <= |cells0|
    ensures LeafOf(cells, n, s) == LeafOf(cells0, n, s)
  {
    if n > 0 { LeafOfSame(cells0, cells, n - 1, s); }
  }

  lemma {:induction false} LeavesCounted(table: seq<Node?>, pool: seq<Node>, cells: seq<Cell>, src: seq<byte>)
    requires Indexed(table, pool, cells) && Counts(table, src, |src|) && |cells| <= MAX_SYMBOLS
    ensures LeavesFor(cells, |cells|, src)
  {
    forall s: nat | s < MAX_SYMBOLS ensures LeafOf(cells, |cells|, s) >= 0 <==> Occ(src, |src|, s) > 0 {
      assert table[s] == null <==> Occ(src, |src|, s) == 0;
      var x := LeafOf(cells, |cells|, s);
      if x >= 0 { assert table[cells[x].symbol] == pool[x]; }
    }
  }

  lemma {:induction false} LeavesStay(cells0: seq<Cell>, cells: seq<Cell>, n: nat, src: seq<byte>)
    requires SameLeaves(cells0, cells) && LeavesFor(cells0, n, src)
    ensures LeavesFor(cells, n, src)
  {
    hide LeafOf, Occ;
    forall s: nat | s < MAX_SYMBOLS ensures LeafOf(cells, n, s) == LeafOf(cells0, n, s) { LeafOfSame(cells0, cells, n, s); }
  }

  lemma {:induction false} LeafCountsOf(table: seq<Node?>, pool: seq<Node>, cells: seq<Cell>, src: seq<byte>)
    requires Indexed(table, pool, cells) && Counts(table, src, |src|) && Matches(pool, cells, |cells|) && LeavesFor(cells, |cells|, src)
    ensures CountedFor(cells, |cells|, src)
  {
    hide AllRoots, LeavesFor, Occ;
    forall x: nat | x < |cells| ensures cells[x].count == Occ(src, |src|, cells[x].symbol) {
      assert table[cells[x].symbol] == pool[x] && NodeIs(pool, pool[x], cells[x], true);
    }
  }

  lemma {:induction false} CountsStay(cells0: seq<Cell>, cells: seq<Cell>, n: nat, src: seq<byte>)
    requires SameLeaves(cells0, cells) && CountedFor(cells0, n, src)
    ensures CountedFor(cells, n, src)
  {
    hide Occ;
    LeavesStay(cells0, cells, n, src);
  }

  ghost function PathLengths(paths: seq<seq<bool>>): (l: seq<nat>)
    ensures |l| == |paths|
  {
    seq(|paths|, s requires 0 <= s < |paths| => |paths[s]|)
  }

  /** The code of the tree is a shortest one. */
  lemma {:induction false} CodeShortest(s: seq<Node?>, pool: seq<Node>, cells: seq<Cell>, n: nat, r: nat, src: seq<byte>)
    requires Forest(cells, n) && OneRoot(cells, r) && CountedFor(cells, n, src) && ShortSoFar(LeafCounts(cells, n), CountsOf(s), cells, n)
    ensures ShortestFor(PathLengths(Paths(cells, n)), src)
  {
    hide CountedFor, ShortestFor, Shortest, CountsOf, Label, OneRoot;
    TreeShortest(cells, n, r, CountsOf(s));
    var lens := PathLengths(Paths(cells, n));
    forall x: nat | x < n ensures lens[cells[x].symbol] == |Label(cells, n, x)| { assert LeafOf(cells, n, cells[x].symbol) == x; }
    SourceShortest(cells, n, src, lens);
  }

  lemma {:induction false} NothingShortest(lens: seq<nat>, src: seq<byte>)
    requires |lens| == MAX_SYMBOLS && |src| == 0
    ensures ShortestFor(lens, src)
  {
  }

  lemma {:induction false} NoLeaves(cells: seq<Cell>, src: seq<byte>)
    requires LeavesFor(cells, 0, src)
    ensures |src| == 0
  {
    if |src| > 0 { OccPositive(src, |src|, 0); }
  }

  lemma {:induction false} SameLeafCounts(cells0: seq<Cell>, cells: seq<Cell>, n: nat)
    requires SameLeaves(cells0, cells) && n <= |cells0|
    ensures n <= |cells| && LeafCounts(cells, n) == LeafCounts(cells0, n)
  {
  }

  /** An empty source has no code. */
  lemma {:induction false} NoCodes(se: seq<Slot>, cells: seq<Cell>, src: seq<byte>)
    requires NothingCoded(se) && LeavesFor(cells, 0, src)
    ensures CodesFor(se, seq(MAX_SYMBOLS, _ => []), src)
  {
    forall s: nat | s < MAX_SYMBOLS ensures Occ(src, |src|, s) == 0 { assert LeafOf(cells, 0, s) == -1; }
  }

  /** Number of entries before the first null. */
  method CountEntries(pSF: array<Node?>) returns (n: nat)
    ensures n <= pSF.Length && (forall i | 0 <= i < n :: pSF[i] != null) && (n < pSF.Length ==> pSF[n] == null)
  {
    n := 0;
    while n < pSF.Length && pSF[n] != null
      invariant n <= pSF.Length && forall i | 0 <= i < n :: pSF[i] != null
    {
      n := n + 1;
    }
  }

  /** calculate_huffman_codes: a prefix code for exactly the symbols counted. */
  method CalculateCodes(pSF: array<Node?>, src: seq<byte>, ghost pool0: seq<Node>, ghost cells0: seq<Cell>)
    returns (pSE: array<Slot>, ghost paths: seq<seq<bool>>)
    requires pSF.Length == MAX_SYMBOLS && Indexed(pSF[..], pool0, cells0) && Counts(pSF[..], src, |src|)
    requires Matches(pool0, cells0, |cells0|) && Listed(pSF[..], pool0, cells0)
    modifies pSF, pool0
    ensures fresh(pSE) && CodesFor(pSE[..], paths, src) && ShortestFor(PathLengths(paths), src)
  {
    hide ShortestFor, ShortSoFar, CountedFor, CountsOf, LeafCounts;
    hide Indexed, Counts, Matches, Listed, Ascending, Joining, CodesFor, LeavesFor, NothingCoded, SameLeaves, CodedBelow, OneRoot, Forest, Paths;
    TableFacts(pSF[..], pool0, cells0);
    LeavesCounted(pSF[..], pool0, cells0, src);
    LeafCountsOf(pSF[..], pool0, cells0, src);
    assert pSF[..MAX_SYMBOLS] == pSF[..];
    QSort(pSF, MAX_SYMBOLS);
    assert pSF[..MAX_SYMBOLS] == pSF[..];
    ListedSame(old(pSF[..]), pSF[..], pool0, cells0);
    var n := CountEntries(pSF);
    RootsFirst(pSF[..], pool0, cells0, n);
    pSE := new Slot[MAX_SYMBOLS](_ => NoCode);
    ghost var se := pSE[..];
    NothingYet(se);
    if n == 0 {
      NoCodes(se, cells0, src);
      paths := seq(MAX_SYMBOLS, _ => []);
      NoLeaves(cells0, src);
      NothingShortest(PathLengths(paths), src);
      return;
    }
    ghost var pool, cells;
    LeavesOptimal(pSF[..n], n, pool0, cells0);
    pool, cells := BuildTree(pSF, n, pool0, cells0, LeafCounts(cells0, n));
    LeavesStay(cells0, cells, n, src);
    Different(pool, cells, n);
    ghost var r := LastRoot(pSF[..n], pool, cells, n);
    JoiningForest(pSF[..n], pool, cells, n);
    BuildSymbolEncoder(pSF[0], pSE, pool, cells, n, r);
    WholeCode(se, pSE[..], cells, n, r, src);
    CountsStay(cells0, cells, n, src);
    SameLeafCounts(cells0, cells, n);
    CodeShortest(pSF[..n], pool, cells, n, r, src);
    paths := Paths(cells, n);
  }

  /** At the start the entries are the leaves. */
  lemma {:induction false} EntriesArePool(s: seq<Node?>, pool: seq<Node>, cells: seq<Cell>, p: seq<Node?>)
    requires Roots(multiset(s), pool, cells) && multiset(s)[null] == 0 && (forall x: nat | x < |cells| :: cells[x].up == -1) && p == pool
    requires forall y: nat, z: nat | y < z < |pool| :: pool[y] != pool[z]
    ensures multiset(s) == multiset(p)
  {
    var a, b := multiset(s), multiset(p);
    forall e: Node? ensures a[e] == b[e] {
      if e != null && e in pool {
        var x: nat :| x < |pool| && pool[x] == e;
        PoolOnce(pool, p, x);
      } else {
        assert e !in p && e !in b && e !in a;
      }
    }
  }

  lemma {:induction false} PoolOnce(pool: seq<Node>, p: seq<Node?>, x: nat)
    requires p == pool && x < |pool| && forall y: nat, z: nat | y < z < |pool| :: pool[y] != pool[z]
    ensures multiset(p)[pool[x]] == 1
  {
    assert p == p[..x] + [p[x]] + p[x + 1..];
    assert p[x] !in p[..x] && p[x] !in p[x + 1..];
  }

  lemma {:induction false} CountsNext(s: seq<Node?>)
    requires |s| > 0
    ensures CountsOf(s) == CountsOf(s[..|s| - 1]) + CountOf(s[|s| - 1])
  {
  }

  lemma {:induction false} CountsNone(s: seq<Node?>)
    ensures CountsOf(s[..0]) == []
  {
  }

  lemma {:induction false} LeafCountsLast(pool: seq<Node>, cells: seq<Cell>, n: nat, k: nat)
    requires Matches(pool, cells, n) && n == |cells| && k < n
    ensures |pool| == n && CountOf(pool[k]) == [LeafCounts(cells, n)[k]]
  {
    assert NodeIs(pool, pool[k], cells[k], true);
  }

  lemma {:induction false} PoolCounts(pool: seq<Node>, cells: seq<Cell>, n: nat, m: nat, p: seq<Node?>)
    requires Matches(pool, cells, n) && n == |cells| && m <= n && p == pool
    ensures CountsOf(p[..m]) == LeafCounts(cells, n)[..m]
  {
    hide CountsOf, LeafCounts, Matches;
    CountsNone(p);
    if m > 0 {
      PoolCounts(pool, cells, n, m - 1, p);
      LeafCountsLast(pool, cells, n, m - 1);
      CountsNext(p[..m]);
      assert p[..m][..m - 1] == p[..m - 1];
      assert LeafCounts(cells, n)[..m] == LeafCounts(cells, n)[..m - 1] + [LeafCounts(cells, n)[m - 1]];
    }
  }

  /** At the start the roots are the leaves. */
  lemma {:induction false} LeavesOptimal(s: seq<Node?>, n: nat, pool: seq<Node>, cells: seq<Cell>)
    requires AllRoots(cells) && n == |cells| > 0 && Matches(pool, cells, n) && Joining(s, pool, cells, n, n)
    ensures ShortSoFar(LeafCounts(cells, n), CountsOf(s), cells, n)
  {
    hide CountsOf, LeafCounts, Forest, Matches;
    Different(pool, cells, n);
    var p: seq<Node?> := pool;
    EntriesArePool(s, pool, cells, p);
    CountsPerm(s, p);
    PoolCounts(pool, cells, n, n, p);
    assert p[..n] == p && LeafCounts(cells, n)[..n] == LeafCounts(cells, n);
    BoundStarts(LeafCounts(cells, n), CountsOf(s));
    assert JoinTotal(cells, n, n) == 0;
  }

  lemma {:induction false} TableFacts(table: seq<Node?>, pool: seq<Node>, cells: seq<Cell>)
    requires Indexed(table, pool, cells) && Listed(table, pool, cells)
    ensures AllRoots(cells) && |cells| == |pool| <= MAX_SYMBOLS
  {
  }

  lemma {:induction false} ListedSame(table: seq<Node?>, table': seq<Node?>, pool: seq<Node>, cells: seq<Cell>)
    requires Listed(table, pool, cells) && multiset(table) == multiset(table')
    ensures Listed(table', pool, cells)
  {
  }

  lemma {:induction false} NothingYet(se: seq<Slot>)
    requires |se| == MAX_SYMBOLS && forall s | 0 <= s < |se| :: se[s] == NoCode
    ensures NothingCoded(se)
  {
  }

  lemma {:induction false} JoiningForest(table: seq<Node?>, pool: seq<Node>, cells: seq<Cell>, n: nat)
    requires Joining(table, pool, cells, n, 1)
    ensures Forest(cells, n) && |cells| + 1 == n + n && |pool| == |cells|
  {
  }
}
