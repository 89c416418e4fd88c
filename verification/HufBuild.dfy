/**
  HUF_buildCTable_wksp: sorting the counts, the two-queue construction of the tree, and the lengths it gives.
 */
module HufBuild {
  import opened Bits
  import opened HufHeight
  import opened HufTree

  const STARTNODE := HUF_SYMBOLVALUE_MAX + 1
  const TABLE_SIZE := 511
  const NOT_YET := 0x4000_0000
  const BARRIER := 0x8000_0000

  // ---------- the two queues as one list ----------

  /**
    The items still to be joined: the first `s` are leaves, largest count first, the others are joined
    nodes in the order of their creation.
   */
  ghost predicate Queues(c: seq<nat>, s: nat) {
    && s <= |c|
    && (forall p, q | 0 <= p < q < s :: c[p] >= c[q])
    && (forall p, q | s <= p < q < |c| :: c[p] <= c[q])
    && (forall k, p, q | s <= k < |c| && 0 <= p < q < |c| :: c[k] <= c[p] + c[q])
  }

  /** The choice made by comparing the two queue heads twice. */
  ghost function Choice(c: seq<nat>, s: nat): (i: int)
    requires 2 <= |c| && s <= |c|
    ensures s - 2 <= i <= s && 0 <= i <= |c| - 2
  {
    if s > 0 && (s == |c| || c[s - 1] < c[s]) then
      if s > 1 && (s == |c| || c[s - 2] < c[s]) then s - 2 else s - 1
    else
      if s > 0 && (s + 1 == |c| || c[s - 1] < c[s + 1]) then s - 1 else s
  }

  lemma {:induction false} ChoiceSmallest(c: seq<nat>, s: nat)
    requires 2 <= |c| && Queues(c, s)
    ensures TwoSmallest(c, Choice(c, s))
  {
  }

  /**
    A leaf is taken before a node only if it is smaller: the last two leaves are joined if both are smaller than every
    node, the first two nodes if both are at most as large as every leaf, and otherwise one of each.
   */
  lemma {:induction false} NodesFirst(c: seq<nat>, s: nat)
    requires 2 <= |c| && Queues(c, s)
    ensures Choice(c, s) == s - 2 <==> s >= 2 && forall k | s <= k < |c| :: c[s - 2] < c[k]
    ensures Choice(c, s) == s <==> s + 2 <= |c| && forall k | 0 <= k < s :: c[s] <= c[k] && c[s + 1] <= c[k]
  {
  }

  /** The choices for the counts `c`, of which the first `s` are leaves. */
  ghost function Picks(c: seq<nat>, s: nat): (picks: seq<nat>)
    requires s <= |c|
    ensures |c| > 0 ==> |picks| == |c| - 1
    ensures forall k | 0 <= k < |picks| :: picks[k] < |picks| - k
    decreases |c|
  {
    if |c| < 2 then []
    else
      var i := Choice(c, s);
      var rest := Picks(Join2(c, i), i);
      assert forall k | 0 < k < |rest| + 1 :: ([i] + rest)[k] == rest[k - 1];
      [i] + rest
  }

  /** The lengths of the leaves for counts in decreasing order. */
  ghost function QueueLengths(c: seq<nat>): seq<nat> {
    Lengths(Picks(c, |c|))
  }

  lemma {:induction false} PicksNext(picks: seq<nat>, c: seq<nat>, s: nat)
    requires 2 <= |c| && s <= |c|
    ensures var i := Choice(c, s); picks + Picks(c, s) == (picks + [i]) + Picks(Join2(c, i), i)
  {
    hide Choice, Join2;
  }

  lemma {:induction false} QueuesNext(c: seq<nat>, s: nat)
    requires 2 <= |c| && Queues(c, s)
    ensures Queues(Join2(c, Choice(c, s)), Choice(c, s))
  {
    hide Choice;
    var i := Choice(c, s);
    ChoiceSmallest(c, s);
    QueuesJoin(c, s, i);
  }

  lemma {:induction false} QueuesJoin(c: seq<nat>, s: nat, i: nat)
    requires Queues(c, s) && TwoSmallest(c, i) && s - 2 <= i <= s
    ensures Queues(Join2(c, i), i)
  {
    var c' := Join2(c, i);
    assert forall p | 0 <= p < i :: c'[p] == c[p];
    assert forall p | i <= p < |c'| - 1 :: c'[p] == c[p + 2];
    assert c'[|c'| - 1] == c[i] + c[i + 1];
    hide Join2;
    JoinedSorted(c, c', s, i);
    JoinedBounded(c, c', s, i);
  }

  lemma {:induction false} JoinedSorted(c: seq<nat>, c': seq<nat>, s: nat, i: nat)
    requires Queues(c, s) && s - 2 <= i <= s && i + 2 <= |c| && |c'| == |c| - 1
    requires forall p | 0 <= p < i :: c'[p] == c[p]
    requires forall p | i <= p < |c'| - 1 :: c'[p] == c[p + 2]
    requires c'[|c'| - 1] == c[i] + c[i + 1]
    ensures forall p, q | 0 <= p < q < i :: c'[p] >= c'[q]
    ensures forall p, q | i <= p < q < |c'| :: c'[p] <= c'[q]
  {
    forall p, q | i <= p < q < |c'| ensures c'[p] <= c'[q] {
      assert c[p + 2] <= c[i] + c[i + 1];
    }
  }

  lemma {:induction false} JoinedBounded(c: seq<nat>, c': seq<nat>, s: nat, i: nat)
    requires Queues(c, s) && TwoSmallest(c, i) && s - 2 <= i <= s && |c'| == |c| - 1
    requires forall p | 0 <= p < i :: c'[p] == c[p]
    requires forall p | i <= p < |c'| - 1 :: c'[p] == c[p + 2]
    requires c'[|c'| - 1] == c[i] + c[i + 1]
    ensures forall k, p, q | i <= k < |c'| && 0 <= p < q < |c'| :: c'[k] <= c'[p] + c'[q]
  {
    forall k, p, q | i <= k < |c'| && 0 <= p < q < |c'| ensures c'[k] <= c'[p] + c'[q] {
      if k < |c'| - 1 { assert c[k + 2] <= c[i] + c[i + 1]; }
      hide Queues;
      AtLeastPair(c, c', i, p);
      if q < |c'| - 1 { AtLeastPair(c, c', i, q); }
    }
  }

  lemma {:induction false} AtLeastPair(c: seq<nat>, c': seq<nat>, i: nat, p: nat)
    requires TwoSmallest(c, i) && |c'| == |c| - 1 && p < |c'| - 1
    requires c'[p] == if p < i then c[p] else c[p + 2]
    ensures c[i] <= c'[p] && c[i + 1] <= c'[p]
  {
  }

  lemma {:induction false} TotalBound(c: seq<nat>, k: nat)
    requires k < |c|
    ensures c[k] <= Total(c)
  {
    if k < |c| - 1 { TotalBound(c[..|c| - 1], k); }
  }

  /** The choices from the heads of the queues join two smallest items at every step. */
  lemma {:induction false} PicksGreedy(c: seq<nat>, s: nat)
    requires 0 < |c| && Queues(c, s)
    ensures Greedy(c, Picks(c, s))
    decreases |c|
  {
    hide Choice, TwoSmallest;
    if |c| >= 2 {
      var i := Choice(c, s);
      ChoiceSmallest(c, s);
      QueuesNext(c, s);
      PicksGreedy(Join2(c, i), i);
      assert Picks(c, s)[1..] == Picks(Join2(c, i), i);
    }
  }

  // ---------- the run of the construction ----------

  /** Joining two smallest items at each of `picks` leads from `c` to `c'`. */
  ghost predicate GreedyRun(c: seq<nat>, picks: seq<nat>, c': seq<nat>)
    decreases |picks|
  {
    if |picks| == 0 then c == c'
    else TwoSmallest(c, picks[0]) && GreedyRun(Join2(c, picks[0]), picks[1..], c')
  }

  lemma {:induction false} RunSnoc(c: seq<nat>, picks: seq<nat>, c': seq<nat>, i: nat)
    requires GreedyRun(c, picks, c') && TwoSmallest(c', i)
    ensures GreedyRun(c, picks + [i], Join2(c', i))
    decreases |picks|
  {
    if |picks| == 0 {
      assert [i][1..] == [];
    } else {
      assert (picks + [i])[1..] == picks[1..] + [i];
      RunSnoc(Join2(c, picks[0]), picks[1..], c', i);
    }
  }

  lemma {:induction false} RunIsGreedy(c: seq<nat>, picks: seq<nat>, c': seq<nat>)
    requires GreedyRun(c, picks, c') && |c'| == 1
    ensures Greedy(c, picks)
    decreases |picks|
  {
    if |picks| > 0 { RunIsGreedy(Join2(c, picks[0]), picks[1..], c'); }
  }

  /** Number of leaves left before step `j`. */
  function LeavesLeft(m: nat, picks: seq<nat>, j: nat): nat
    requires j <= |picks|
  {
    if j == 0 then m else picks[j - 1]
  }

  /** The table entry of item `k` before step `j`. */
  function Entry(m: nat, s: nat, j: nat, k: nat): int {
    if k < s then k else STARTNODE + j + j + k - m
  }

  /** Each step takes the last leaves, the first nodes, or one of each. */
  ghost predicate Steps(m: nat, picks: seq<nat>) {
    forall j {:trigger picks[j]} | 0 <= j < |picks| ::
      picks[j] + 2 <= m - j && LeavesLeft(m, picks, j) - 2 <= picks[j] <= LeavesLeft(m, picks, j)
  }

  /** The two items joined by step `j` have node STARTNODE + j as their parent. */
  ghost predicate Linked(parent: seq<nat>, m: nat, picks: seq<nat>) {
    && |parent| == TABLE_SIZE && 2 <= m <= STARTNODE && |picks| < m && Steps(m, picks)
    && (forall j {:trigger picks[j]} | 0 <= j < |picks| ::
          ParentIs(parent, m, LeavesLeft(m, picks, j), j, picks[j])
          && ParentIs(parent, m, LeavesLeft(m, picks, j), j, picks[j] + 1))
  }

  ghost predicate ParentIs(parent: seq<nat>, m: nat, s: nat, j: nat, k: nat) {
    0 <= Entry(m, s, j, k) < |parent| && parent[Entry(m, s, j, k)] == STARTNODE + j
  }

  /** Lengths, root first: a node is one bit longer than its parent. */
  ghost predicate Descends(nbBits: seq<nat>, parent: seq<nat>, m: nat, x: int) {
    0 <= x < |nbBits| == |parent| && parent[x] < |nbBits| && nbBits[x] == nbBits[parent[x]] + 1
  }

  ghost predicate TreeLengths(nbBits: seq<nat>, parent: seq<nat>, m: nat) {
    && |nbBits| == |parent| == TABLE_SIZE && 2 <= m <= STARTNODE
    && nbBits[STARTNODE + m - 2] == 0
    && (forall x: int | 0 <= x < m || STARTNODE <= x < STARTNODE + m - 2 :: Descends(nbBits, parent, m, x))
  }

  ghost function LengthAt(nbBits: seq<nat>, x: int): nat {
    if 0 <= x < |nbBits| then nbBits[x] else 0
  }

  /** Lengths of the items before step `j`, when `s` leaves are left. */
  ghost function ItemLengths(nbBits: seq<nat>, m: nat, s: nat, j: nat): seq<nat>
    requires j <= m
  {
    seq(m - j, k requires 0 <= k => LengthAt(nbBits, Entry(m, s, j, k)))
  }

  lemma {:induction false} LeavesBound(m: nat, picks: seq<nat>, j: nat)
    requires Steps(m, picks) && j <= |picks| <= m
    ensures m <= j + j + LeavesLeft(m, picks, j)
    ensures LeavesLeft(m, picks, j) <= m - j
  {
    if j > 0 { LeavesBound(m, picks, j - 1); }
  }

  lemma {:induction false} JoinedItem(nbBits: seq<nat>, parent: seq<nat>, m: nat, s: nat, j: nat, k: nat)
    requires TreeLengths(nbBits, parent, m) && ParentIs(parent, m, s, j, k)
    requires m <= j + j + s && s <= m && k < m - j && j < m - 1
    ensures LengthAt(nbBits, Entry(m, s, j, k)) == LengthAt(nbBits, STARTNODE + j) + 1
  {
    assert Descends(nbBits, parent, m, Entry(m, s, j, k));
  }

  lemma {:induction false} TreeStep(nbBits: seq<nat>, parent: seq<nat>, m: nat, picks: seq<nat>, j: nat)
    requires Linked(parent, m, picks) && |picks| == m - 1 && TreeLengths(nbBits, parent, m)
    requires j < m - 1
    ensures picks[j] + 1 <= m - j - 1
    ensures ItemLengths(nbBits, m, LeavesLeft(m, picks, j), j)
         == Split2(ItemLengths(nbBits, m, picks[j], j + 1), picks[j])
  {
    hide TreeLengths, ParentIs, LengthAt, LeavesLeft, Entry, ItemLengths, Split2;
    var i, s := picks[j], LeavesLeft(m, picks, j);
    LeavesBound(m, picks, j);
    assert ParentIs(parent, m, s, j, i) && ParentIs(parent, m, s, j, i + 1);
    JoinedItem(nbBits, parent, m, s, j, i);
    JoinedItem(nbBits, parent, m, s, j, i + 1);
    SplitItems(nbBits, m, s, j, i);
  }

  lemma {:induction false} SplitItems(nbBits: seq<nat>, m: nat, s: nat, j: nat, i: nat)
    requires i + 2 <= m - j && s - 2 <= i <= s
    requires LengthAt(nbBits, Entry(m, s, j, i)) == LengthAt(nbBits, STARTNODE + j) + 1
    requires LengthAt(nbBits, Entry(m, s, j, i + 1)) == LengthAt(nbBits, STARTNODE + j) + 1
    ensures ItemLengths(nbBits, m, s, j) == Split2(ItemLengths(nbBits, m, i, j + 1), i)
  {
    hide LengthAt;
    var l, l0 := ItemLengths(nbBits, m, i, j + 1), ItemLengths(nbBits, m, s, j);
    var n := |l| - 1;
    assert l[n] == LengthAt(nbBits, STARTNODE + j);
    forall k: nat | k < m - j ensures l0[k] == Split2(l, i)[k] {
      assert l0[k] == LengthAt(nbBits, Entry(m, s, j, k));
      if k < i { assert l[k] == LengthAt(nbBits, k); }
      if k >= i + 2 { assert l[k - 2] == LengthAt(nbBits, Entry(m, i, j + 1, k - 2)); }
    }
  }

  lemma {:induction false} PicksInRange(m: nat, picks: seq<nat>, j: nat)
    requires Steps(m, picks) && |picks| == m - 1 && j < m
    ensures forall k | 0 <= k < |picks[j..]| :: picks[j..][k] < |picks[j..]| - k
    ensures if j < m - 1 then picks[j..][1..] == picks[j + 1..] && picks[j..][0] == picks[j] else picks[j..] == []
  {
    hide LeavesLeft;
    forall k | 0 <= k < |picks[j..]| ensures picks[j..][k] < |picks[j..]| - k { assert picks[j..][k] == picks[j + k]; }
  }

  /** The lengths in the table are those of the list construction. */
  lemma {:induction false} TreeIsList(nbBits: seq<nat>, parent: seq<nat>, m: nat, picks: seq<nat>, j: nat)
    requires Linked(parent, m, picks) && |picks| == m - 1 && TreeLengths(nbBits, parent, m)
    requires j < m
    ensures forall k | 0 <= k < |picks[j..]| :: picks[j..][k] < |picks[j..]| - k
    ensures Lengths(picks[j..]) == ItemLengths(nbBits, m, LeavesLeft(m, picks, j), j)
    decreases m - j
  {
    hide Linked, TreeLengths, ItemLengths, Split2, Steps;
    LinkedSteps(parent, m, picks);
    PicksInRange(m, picks, j);
    if j < m - 1 {
      TreeIsList(nbBits, parent, m, picks, j + 1);
      TreeStep(nbBits, parent, m, picks, j);
    } else {
      RootAlone(nbBits, parent, m, picks);
    }
  }

  lemma {:induction false} RootAlone(nbBits: seq<nat>, parent: seq<nat>, m: nat, picks: seq<nat>)
    requires Steps(m, picks) && |picks| == m - 1 && TreeLengths(nbBits, parent, m)
    ensures ItemLengths(nbBits, m, LeavesLeft(m, picks, m - 1), m - 1) == [0]
  {
    LeavesBound(m, picks, m - 1);
  }

  /** Leaves get longer, joined nodes shorter, along the list; no item is two bits longer than the last. */
  ghost predicate Shape(l: seq<nat>, s: nat) {
    && 0 < |l| && s <= |l|
    && (forall p, q | 0 <= p < q < s :: l[p] <= l[q])
    && (forall p, q | s <= p < q < |l| :: l[p] >= l[q])
    && (forall p | 0 <= p < |l| :: l[p] <= l[|l| - 1] + 1)
  }

  lemma {:induction false} ShapeStep(l: seq<nat>, s: nat, i: nat)
    requires Shape(l, i) && i < |l| && s - 2 <= i <= s
    ensures Shape(Split2(l, i), s)
  {
    var n := |l| - 1;
    var l' := Split2(l, i);
    assert forall k | 0 <= k < i :: l'[k] == l[k];
    assert l'[i] == l'[i + 1] == l[n] + 1;
    assert forall k | i + 2 <= k < |l'| :: l'[k] == l[k - 2] >= l[n];
    hide Split2;
  }

  lemma {:induction false} ShapeOf(m: nat, picks: seq<nat>, j: nat)
    requires Steps(m, picks) && |picks| == m - 1 && j < m
    ensures forall k | 0 <= k < |picks[j..]| :: picks[j..][k] < |picks[j..]| - k
    ensures Shape(Lengths(picks[j..]), LeavesLeft(m, picks, j))
    decreases m - j
  {
    hide Split2, Shape;
    PicksInRange(m, picks, j);
    LeavesBound(m, picks, j);
    if j < m - 1 {
      ShapeOf(m, picks, j + 1);
      ShapeStep(Lengths(picks[j + 1..]), LeavesLeft(m, picks, j), picks[j]);
    } else {
      RootShape(LeavesLeft(m, picks, j));
    }
  }

  lemma {:induction false} RootShape(s: nat)
    requires s <= 1
    ensures Shape([0], s)
  {
  }

  // ---------- the construction ----------

  /** huffNode[n].count, the entry in front of the table being a barrier. */
  function CountAt(count: seq<nat>, n: int): nat {
    if 0 <= n < |count| then count[n] else BARRIER
  }

  /** Before step `j`: the remaining items, and the counts of the nodes to come. */
  ghost predicate Building(count: seq<nat>, parent: seq<nat>, m: nat, s: nat, c0: seq<nat>, picks: seq<nat>, c: seq<nat>) {
    && |count| == TABLE_SIZE && Linked(parent, m, picks)
    && s == LeavesLeft(m, picks, |picks|)
    && |c| == m - |picks| && Queues(c, s) && Total(c) < NOT_YET
    && (forall k | 0 <= k < |c| :: Holds(count, m, s, |picks|, c, k))
    && (forall x | STARTNODE + |picks| <= x <= STARTNODE + m - 2 :: count[x] == NOT_YET)
    && Covered(parent, m, s, |picks|)
    && GreedyRun(c0, picks, c)
  }

  ghost predicate Holds(count: seq<nat>, m: nat, s: nat, j: nat, c: seq<nat>, k: nat) {
    k < |c| && 0 <= Entry(m, s, j, k) < |count| && count[Entry(m, s, j, k)] == c[k]
  }

  /** Position in the table of the first joined node before step `j`. */
  function FirstNode(m: nat, s: nat, j: nat): int {
    STARTNODE + j + j + s - m
  }

  /** The entries that have been joined before step `j`. */
  ghost predicate Consumed(m: nat, s: nat, j: nat, x: int) {
    s <= x < m || STARTNODE <= x < FirstNode(m, s, j)
  }

  /** Each of them has a parent, a later node. */
  ghost predicate Covered(parent: seq<nat>, m: nat, s: nat, j: nat) {
    |parent| == TABLE_SIZE
    && forall x: int | Consumed(m, s, j, x) && x < TABLE_SIZE :: x < parent[x] && STARTNODE <= parent[x] < STARTNODE + j
  }

  lemma {:induction false} ConsumedEarlier(m: nat, picks: seq<nat>, j': nat, j: nat, k: nat)
    requires Steps(m, picks) && j' < j <= |picks| < m <= STARTNODE
    requires picks[j'] <= k <= picks[j'] + 1
    ensures Consumed(m, LeavesLeft(m, picks, j), j, Entry(m, LeavesLeft(m, picks, j'), j', k))
    decreases j
  {
    LeavesBound(m, picks, j');
    if j' + 1 < j { ConsumedEarlier(m, picks, j', j - 1, k); }
  }

  /** Comparing the heads of the queues in the table compares them in the list. */
  ghost predicate HeadsAgree(count: seq<nat>, m: nat, s: nat, j: nat, c: seq<nat>) {
    var n := FirstNode(m, s, j);
    && s <= |c| && STARTNODE <= n <= STARTNODE + j
    && (CountAt(count, s - 1) < CountAt(count, n) <==> s > 0 && (s == |c| || c[s - 1] < c[s]))
    && (s > 0 ==> (CountAt(count, s - 2) < CountAt(count, n) <==> s > 1 && (s == |c| || c[s - 2] < c[s])))
    && (s < |c| ==> (CountAt(count, s - 1) < CountAt(count, n + 1) <==> s > 0 && (s + 1 == |c| || c[s - 1] < c[s + 1])))
  }

  lemma {:induction false} BuildingSizes(parent: seq<nat>, m: nat, s: nat, picks: seq<nat>, c: seq<nat>)
    requires Linked(parent, m, picks) && s == LeavesLeft(m, picks, |picks|) && Queues(c, s) && |c| == m - |picks|
    ensures s <= |c| <= m <= STARTNODE && m <= |picks| + |picks| + s
  {
    hide Steps;
    LeavesBound(m, picks, |picks|);
  }

  lemma {:induction false} Heads(count: seq<nat>, parent: seq<nat>, m: nat, s: nat, c0: seq<nat>, picks: seq<nat>, c: seq<nat>)
    requires Building(count, parent, m, s, c0, picks, c) && |picks| < m - 1
    ensures HeadsAgree(count, m, s, |picks|, c)
  {
    hide Queues, Linked, GreedyRun, Steps, LeavesLeft, Covered;
    var j := |picks|;
    var n := FirstNode(m, s, j);
    BuildingSizes(parent, m, s, picks, c);
    forall k: nat | k < |c| ensures c[k] < NOT_YET && Holds(count, m, s, j, c, k) { TotalBound(c, k); }
    assert n == Entry(m, s, j, s) && n + 1 == Entry(m, s, j, s + 1);
    hide Total;
    assert forall k: nat | k < s :: Entry(m, s, j, k) == k;
    assert s > 0 ==> Holds(count, m, s, j, c, s - 1);
    assert s > 1 ==> Holds(count, m, s, j, c, s - 2);
    assert s < |c| ==> Holds(count, m, s, j, c, s);
    assert s + 1 < |c| ==> Holds(count, m, s, j, c, s + 1);
    assert count[STARTNODE + j] == NOT_YET;
    hide Building, Entry;
  }

  /** The parents after step |picks|, which joins items `i` and `i`+1. */
  function WithParent(parent: seq<nat>, m: nat, s: nat, j: nat, i: nat): seq<nat>
    requires 0 <= Entry(m, s, j, i) < |parent| && 0 <= Entry(m, s, j, i + 1) < |parent|
  {
    parent[Entry(m, s, j, i) := STARTNODE + j][Entry(m, s, j, i + 1) := STARTNODE + j]
  }

  lemma {:induction false} EntryRange(m: nat, picks: seq<nat>, i: nat)
    requires Steps(m, picks) && |picks| < m <= STARTNODE
    requires var s := LeavesLeft(m, picks, |picks|); s - 2 <= i <= s && i + 2 <= m - |picks|
    ensures var s, j := LeavesLeft(m, picks, |picks|), |picks|;
            0 <= Entry(m, s, j, i) < STARTNODE + j && 0 <= Entry(m, s, j, i + 1) < STARTNODE + j
            && !Consumed(m, s, j, Entry(m, s, j, i)) && !Consumed(m, s, j, Entry(m, s, j, i + 1))
            && Entry(m, s, j, i) != Entry(m, s, j, i + 1)
  {
    LeavesBound(m, picks, |picks|);
  }

  lemma {:induction false} LinkNext(parent: seq<nat>, m: nat, picks: seq<nat>, i: nat)
    requires Linked(parent, m, picks) && |picks| + 1 < m && Covered(parent, m, LeavesLeft(m, picks, |picks|), |picks|)
    requires var s := LeavesLeft(m, picks, |picks|); s - 2 <= i <= s && i + 2 <= m - |picks|
    ensures var s, j := LeavesLeft(m, picks, |picks|), |picks|;
            && 0 <= Entry(m, s, j, i) < |parent| && 0 <= Entry(m, s, j, i + 1) < |parent|
            && Linked(WithParent(parent, m, s, j, i), m, picks + [i])
            && Covered(WithParent(parent, m, s, j, i), m, i, j + 1)
  {
    hide Entry, ParentIs, Consumed, Steps;
    var s, j := LeavesLeft(m, picks, |picks|), |picks|;
    EntryRange(m, picks, i);
    var parent', picks' := WithParent(parent, m, s, j, i), picks + [i];
    StepsSnoc(m, picks, i);
    forall q: nat {:trigger picks'[q]} | q < |picks'|
      ensures ParentIs(parent', m, LeavesLeft(m, picks', q), q, picks'[q])
           && ParentIs(parent', m, LeavesLeft(m, picks', q), q, picks'[q] + 1)
    {
      if q < j { StillLinked(parent, m, picks, q, i); } else { NewLink(parent, m, s, j, i); }
    }
    NewCovered(parent, m, s, j, i);
  }

  lemma {:induction false} StepsSnoc(m: nat, picks: seq<nat>, i: nat)
    requires Steps(m, picks)
    requires var s := LeavesLeft(m, picks, |picks|); s - 2 <= i <= s && i + 2 <= m - |picks|
    ensures Steps(m, picks + [i])
    ensures forall q: nat | q <= |picks| :: LeavesLeft(m, picks + [i], q) == LeavesLeft(m, picks, q)
  {
    var picks' := picks + [i];
    assert forall q: nat | q <= |picks| :: LeavesLeft(m, picks', q) == LeavesLeft(m, picks, q);
    assert forall q | 0 <= q < |picks| :: picks'[q] == picks[q];
    hide LeavesLeft;
  }

  lemma {:induction false} NewLink(parent: seq<nat>, m: nat, s: nat, j: nat, i: nat)
    requires 0 <= Entry(m, s, j, i) < |parent| && 0 <= Entry(m, s, j, i + 1) < |parent|
    requires Entry(m, s, j, i) != Entry(m, s, j, i + 1)
    ensures ParentIs(WithParent(parent, m, s, j, i), m, s, j, i)
    ensures ParentIs(WithParent(parent, m, s, j, i), m, s, j, i + 1)
  {
  }

  lemma {:induction false} NewCovered(parent: seq<nat>, m: nat, s: nat, j: nat, i: nat)
    requires Covered(parent, m, s, j) && s - 2 <= i <= s
    requires 0 <= Entry(m, s, j, i) < STARTNODE + j && 0 <= Entry(m, s, j, i + 1) < STARTNODE + j
    requires STARTNODE + j <= TABLE_SIZE
    ensures Covered(WithParent(parent, m, s, j, i), m, i, j + 1)
  {
  }

  lemma {:induction false} LinkedAt(parent: seq<nat>, m: nat, picks: seq<nat>, q: nat)
    requires Linked(parent, m, picks) && q < |picks|
    ensures |parent| == TABLE_SIZE && 2 <= m <= STARTNODE && Steps(m, picks)
    ensures ParentIs(parent, m, LeavesLeft(m, picks, q), q, picks[q])
    ensures ParentIs(parent, m, LeavesLeft(m, picks, q), q, picks[q] + 1)
  {
    hide Entry, Consumed, Steps, LeavesLeft, ParentIs;
  }

  lemma {:induction false} StillLinked(parent: seq<nat>, m: nat, picks: seq<nat>, q: nat, i: nat)
    requires Linked(parent, m, picks) && |picks| + 1 < m && q < |picks|
    requires var s := LeavesLeft(m, picks, |picks|); s - 2 <= i <= s && i + 2 <= m - |picks|
    ensures var s, j := LeavesLeft(m, picks, |picks|), |picks|;
            && 0 <= Entry(m, s, j, i) < |parent| && 0 <= Entry(m, s, j, i + 1) < |parent|
            && ParentIs(WithParent(parent, m, s, j, i), m, LeavesLeft(m, picks, q), q, picks[q])
            && ParentIs(WithParent(parent, m, s, j, i), m, LeavesLeft(m, picks, q), q, picks[q] + 1)
  {
    hide Entry, Consumed, Steps, Linked, LeavesLeft;
    LinkedAt(parent, m, picks, q);
    EntryRange(m, picks, i);
    ConsumedEarlier(m, picks, q, |picks|, picks[q]);
    ConsumedEarlier(m, picks, q, |picks|, picks[q] + 1);
  }

  /** The table after the step that joins items `i` and `i`+1. */
  ghost predicate Built(count: seq<nat>, parent: seq<nat>, m: nat, s: nat, c0: seq<nat>, picks: seq<nat>, c: seq<nat>)
    requires 2 <= |c| && s <= |c|
  {
    var j, i := |picks|, Choice(c, s);
    && 0 <= Entry(m, s, j, i) < |parent| && 0 <= Entry(m, s, j, i + 1) < |parent| && STARTNODE + j < |count|
    && Holds(count, m, s, j, c, i) && Holds(count, m, s, j, c, i + 1)
    && Building(count[STARTNODE + j := c[i] + c[i + 1]], WithParent(parent, m, s, j, i), m, i, c0, picks + [i], Join2(c, i))
  }

  lemma {:induction false} BuildNext(count: seq<nat>, parent: seq<nat>, m: nat, s: nat, c0: seq<nat>, picks: seq<nat>, c: seq<nat>)
    requires Building(count, parent, m, s, c0, picks, c) && |picks| < m - 1
    requires 2 <= |c| && s <= |c|
    ensures Built(count, parent, m, s, c0, picks, c)
  {
    hide Queues, Linked, GreedyRun, Steps, Covered, Total, Choice, TwoSmallest, Consumed;
    var j := |picks|;
    BuildingSizes(parent, m, s, picks, c);
    ChoiceSmallest(c, s);
    QueuesNext(c, s);
    var i: nat := Choice(c, s);
    LinkedSteps(parent, m, picks);
    LinkNext(parent, m, picks, i);
    RunSnoc(c0, picks, c, i);
    TotalJoin(c, i);
    assert LeavesLeft(m, picks + [i], |picks + [i]|) == i;
    hide LeavesLeft;
    assert Holds(count, m, s, j, c, i) && Holds(count, m, s, j, c, i + 1);
    var count', c' := count[STARTNODE + j := c[i] + c[i + 1]], Join2(c, i);
    ItemsNext(count, count', m, s, j, j + 1, c, c', i);
    assert |picks + [i]| == j + 1;
    hide Entry, Holds, WithParent, Join2;
  }

  lemma {:induction false} LinkedSteps(parent: seq<nat>, m: nat, picks: seq<nat>)
    requires Linked(parent, m, picks)
    ensures Steps(m, picks)
  {
  }

  lemma {:induction false} ItemsNext(count: seq<nat>, count': seq<nat>, m: nat, s: nat, j: nat, j': nat, c: seq<nat>, c': seq<nat>, i: nat)
    requires |count| == TABLE_SIZE && |c| == m - j && m <= STARTNODE && j < m - 1 && j' == j + 1
    requires s - 2 <= i <= s <= |c| && i + 2 <= |c|
    requires forall k | 0 <= k < |c| :: Holds(count, m, s, j, c, k)
    requires count' == count[STARTNODE + j := c[i] + c[i + 1]] && c' == Join2(c, i)
    ensures forall k | 0 <= k < |c'| :: Holds(count', m, i, j', c', k)
  {
    forall k | 0 <= k < |c'| ensures Holds(count', m, i, j', c', k) {
      if k < |c| - 2 { assert Holds(count, m, s, j, c, if k < i then k else k + 2); }
    }
  }

  /** Nothing joined yet: all items are leaves. */
  lemma {:induction false} BuildStart(count: seq<nat>, parent: seq<nat>, m: nat, c0: seq<nat>)
    requires |count| == |parent| == TABLE_SIZE && 2 <= m <= STARTNODE && c0 == count[..m]
    requires forall p, q | 0 <= p < q < m :: c0[p] >= c0[q]
    requires Total(c0) < NOT_YET
    requires forall x | STARTNODE <= x <= STARTNODE + m - 2 :: count[x] == NOT_YET
    ensures Building(count, parent, m, m, c0, [], c0)
  {
    forall k | 0 <= k < m ensures Holds(count, m, m, 0, c0, k) {}
  }

  /** The counts once every node to come has its placeholder. */
  ghost function Filled(count: seq<nat>, m: nat): seq<nat>
    requires |count| == TABLE_SIZE
  {
    seq(TABLE_SIZE, x requires 0 <= x < TABLE_SIZE => if STARTNODE <= x <= STARTNODE + m - 2 then NOT_YET else count[x])
  }

  /** The first step takes the last two leaves. */
  lemma {:induction false} FirstStep(count: seq<nat>, parent: seq<nat>, m: nat, c0: seq<nat>)
    requires |count| == |parent| == TABLE_SIZE && 2 <= m <= STARTNODE && c0 == count[..m]
    requires (forall p, q | 0 <= p < q < m :: c0[p] >= c0[q]) && Total(c0) < NOT_YET
    ensures Entry(m, m, 0, m - 2) == m - 2 && Entry(m, m, 0, m - 1) == m - 1
    ensures Building(Filled(count, m)[STARTNODE := c0[m - 2] + c0[m - 1]], WithParent(parent, m, m, 0, m - 2), m, m - 2, c0, [m - 2],
                     Join2(c0, m - 2))
    ensures Picks(c0, m) == [m - 2] + Picks(Join2(c0, m - 2), m - 2)
  {
    hide Building, WithParent, Total;
    assert Filled(count, m)[..m] == c0;
    BuildStart(Filled(count, m), parent, m, c0);
    BuildNext(Filled(count, m), parent, m, m, c0, [], c0);
    assert Choice(c0, m) == m - 2;
    assert [] + [m - 2] == [m - 2];
  }

  /** The first node joins the two last leaves; the nodes to come get a placeholder count. */
  method FirstJoin(count: array<nat>, parent: array<nat>, m: nat) returns (ghost c: seq<nat>)
    requires count.Length == parent.Length == TABLE_SIZE && count != parent && 2 <= m <= STARTNODE
    requires forall p, q | 0 <= p < q < m :: count[p] >= count[q]
    requires Total(count[..m]) < NOT_YET
    modifies count, parent
    ensures Building(count[..], parent[..], m, m - 2, old(count[..m]), [m - 2], c)
    ensures |c| == m - 1 && Picks(old(count[..m]), m) == [m - 2] + Picks(c, m - 2)
    ensures forall k | 0 <= k < STARTNODE :: count[k] == old(count[k])
  {
    hide Building, WithParent, Total, Picks, Entry;
    ghost var c0, filled := count[..m], Filled(count[..], m);
    FirstStep(count[..], parent[..], m, c0);
    ghost var after := WithParent(parent[..], m, m, 0, m - 2);
    WithParentAt(parent[..], m, m, 0, m - 2);
    c := Join2(c0, m - 2);
    var nodeNb, lowS := STARTNODE, m - 1;
    var nodeRoot := nodeNb + lowS - 1;
    count[nodeNb] := count[lowS] + count[lowS - 1];
    parent[lowS - 1], parent[lowS] := nodeNb, nodeNb;
    assert parent[..] == after;
    for n := nodeNb + 1 to nodeRoot + 1
      invariant forall x | 0 <= x < TABLE_SIZE && !(n <= x <= nodeRoot) && x != STARTNODE :: count[x] == filled[x]
      invariant count[STARTNODE] == c0[m - 1] + c0[m - 2] && parent[..] == after
    {
      count[n] := NOT_YET;
    }
    assert count[..] == filled[STARTNODE := c0[m - 2] + c0[m - 1]];
  }

  lemma {:induction false} WithParentAt(parent: seq<nat>, m: nat, s: nat, j: nat, i: nat)
    requires 0 <= Entry(m, s, j, i) < |parent| && 0 <= Entry(m, s, j, i + 1) < |parent|
    ensures WithParent(parent, m, s, j, i)
         == parent[Entry(m, s, j, i) := STARTNODE + j][Entry(m, s, j, i + 1) := STARTNODE + j]
  {
  }

  /** The two entries to join: the smaller head of the two queues, twice. */
  method PickTwo(count: array<nat>, lowS0: int, lowN0: nat, ghost m: nat, ghost s: nat, ghost j: nat, ghost c: seq<nat>)
    returns (n1: int, n2: int, lowS: int, lowN: nat)
    requires s == lowS0 + 1 && lowN0 == FirstNode(m, s, j) && 2 <= |c| && s <= |c|
    requires HeadsAgree(count[..], m, s, j, c)
    ensures var i := Choice(c, s);
            lowS == i - 1 && lowN == FirstNode(m, i, j + 1)
            && ((n1 == Entry(m, s, j, i) && n2 == Entry(m, s, j, i + 1)) || (n2 == Entry(m, s, j, i) && n1 == Entry(m, s, j, i + 1)))
  {
    hide CountAt;
    lowS, lowN := lowS0, lowN0;
    if CountAt(count[..], lowS) < CountAt(count[..], lowN) {
      n1 := lowS;
      lowS := lowS - 1;
    } else {
      n1 := lowN;
      lowN := lowN + 1;
    }
    if CountAt(count[..], lowS) < CountAt(count[..], lowN) {
      n2 := lowS;
      lowS := lowS - 1;
    } else {
      n2 := lowN;
      lowN := lowN + 1;
    }
  }

  /** One node: the two smallest items get a common parent. */
  method JoinOne(count: array<nat>, parent: array<nat>, m: nat, nodeNb: nat, lowS0: int, lowN0: nat,
                 ghost c0: seq<nat>, ghost picks: seq<nat>, ghost c: seq<nat>)
    returns (lowS: int, lowN: nat, ghost i: nat)
    requires count != parent && lowS0 >= -1
    requires Building(count[..], parent[..], m, lowS0 + 1, c0, picks, c) && |picks| < m - 1
    requires nodeNb == STARTNODE + |picks| && lowN0 == FirstNode(m, lowS0 + 1, |picks|)
    modifies count, parent
    ensures i + 2 <= |c| && i == lowS + 1 && lowS0 < |c| && i == Choice(c, lowS0 + 1)
    ensures Building(count[..], parent[..], m, i, c0, picks + [i], Join2(c, i))
    ensures lowN == FirstNode(m, i, |picks| + 1)
    ensures count.Length == TABLE_SIZE && forall k | 0 <= k < STARTNODE :: count[k] == old(count[k])
  {
    hide Building, Entry, WithParent, Choice;
    ghost var s, j: nat := lowS0 + 1, |picks|;
    ghost var before, parents := count[..], parent[..];
    Heads(count[..], parent[..], m, s, c0, picks, c);
    BuildingLength(count[..], parent[..], m, s, c0, picks, c);
    BuildNext(count[..], parent[..], m, s, c0, picks, c);
    i := Choice(c, s);
    WithParentAt(parents, m, s, j, i);
    var n1, n2;
    n1, n2, lowS, lowN := PickTwo(count, lowS0, lowN0, m, s, j, c);
    count[nodeNb] := count[n1] + count[n2];
    parent[n1], parent[n2] := nodeNb, nodeNb;
    assert count[..] == before[nodeNb := c[i] + c[i + 1]];
    assert parent[..] == WithParent(parents, m, s, j, i);
  }

  lemma {:induction false} BuildingLength(count: seq<nat>, parent: seq<nat>, m: nat, s: nat, c0: seq<nat>, picks: seq<nat>, c: seq<nat>)
    requires Building(count, parent, m, s, c0, picks, c) && |picks| < m - 1
    ensures 2 <= |c| == m - |picks| && s <= |c|
    ensures |count| == |parent| == TABLE_SIZE && m <= STARTNODE
  {
    hide Queues, GreedyRun, Steps, LeavesLeft, Covered, Total;
    BuildingSizes(parent, m, s, picks, c);
  }

  /** The joining of nodes, smallest counts first. */
  method JoinNodes(count: array<nat>, parent: array<nat>, m: nat) returns (ghost picks: seq<nat>)
    requires count.Length == parent.Length == TABLE_SIZE && count != parent && 2 <= m <= STARTNODE
    requires forall p, q | 0 <= p < q < m :: count[p] >= count[q]
    requires Total(count[..m]) < NOT_YET
    modifies count, parent
    ensures picks == Picks(old(count[..m]), m)
    ensures |picks| == m - 1 && Linked(parent[..], m, picks) && Greedy(old(count[..m]), picks)
    ensures Covered(parent[..], m, 0, m - 1)
    ensures forall k | 0 <= k < STARTNODE :: count[k] == old(count[k])
  {
    hide Building, Total, Picks;
    ghost var c0 := count[..m];
    ghost var c := FirstJoin(count, parent, m);
    picks := [m - 2];
    var nodeNb, lowS: int := STARTNODE + 1, m - 3;
    var nodeRoot, lowN: nat := STARTNODE + m - 2, STARTNODE;
    while nodeNb <= nodeRoot
      invariant lowS >= -1 && 1 <= |picks| <= m - 1
      invariant nodeNb == STARTNODE + |picks| && lowN == FirstNode(m, lowS + 1, |picks|)
      invariant Building(count[..], parent[..], m, lowS + 1, c0, picks, c)
      invariant forall k | 0 <= k < STARTNODE :: count[k] == old(count[k])
      invariant lowS < |c| && |c| == m - |picks| && Picks(c0, m) == picks + Picks(c, lowS + 1)
    {
      ghost var i, i0: nat := 0, lowS + 1;
      lowS, lowN, i := JoinOne(count, parent, m, nodeNb, lowS, lowN, c0, picks, c);
      PicksNext(picks, c, i0);
      c, picks := Join2(c, i), picks + [i];
      nodeNb := nodeNb + 1;
    }
    JoinedAll(count[..], parent[..], m, lowS + 1, c0, picks, c);
    NoMorePicks(c, lowS + 1);
  }

  lemma {:induction false} NoMorePicks(c: seq<nat>, s: nat)
    requires s <= |c| == 1
    ensures Picks(c, s) == []
  {
  }

  lemma {:induction false} JoinedAll(count: seq<nat>, parent: seq<nat>, m: nat, s: nat, c0: seq<nat>, picks: seq<nat>, c: seq<nat>)
    requires Building(count, parent, m, s, c0, picks, c) && |picks| == m - 1
    ensures Linked(parent, m, picks) && Greedy(c0, picks) && Covered(parent, m, 0, m - 1)
  {
    hide Queues, GreedyRun, Total;
    RunIsGreedy(c0, picks, c);
    assert s == 0;
  }

  // ---------- lengths ----------

  /** Lengths of the joined nodes from the root down, then of the leaves. */
  method SetLengths(parent: array<nat>, nbBits: array<nat>, m: nat)
    requires parent != nbBits && parent.Length == nbBits.Length == TABLE_SIZE && 2 <= m <= STARTNODE
    requires Covered(parent[..], m, 0, m - 1)
    modifies nbBits
    ensures TreeLengths(nbBits[..], parent[..], m)
  {
    var nodeRoot := STARTNODE + m - 2;
    nbBits[nodeRoot] := 0;
    for n := nodeRoot downto STARTNODE
      invariant nbBits[nodeRoot] == 0
      invariant forall x | n <= x < nodeRoot :: nbBits[x] == nbBits[parent[x]] + 1
    {
      assert Consumed(m, 0, m - 1, n);
      nbBits[n] := nbBits[parent[n]] + 1;
    }
    for n := 0 to m
      invariant nbBits[nodeRoot] == 0
      invariant forall x | STARTNODE <= x < nodeRoot || 0 <= x < n :: nbBits[x] == nbBits[parent[x]] + 1
    {
      assert Consumed(m, 0, m - 1, n);
      nbBits[n] := nbBits[parent[n]] + 1;
    }
    forall x: int | 0 <= x < m || STARTNODE <= x < nodeRoot ensures Descends(nbBits[..], parent[..], m, x) {
      assert Consumed(m, 0, m - 1, x);
    }
  }

  /** The lengths of the leaves: a complete code in the order of the leaves, and the cheapest prefix code. */
  lemma {:induction false} LeafLengths(nbBits: seq<nat>, parent: seq<nat>, m: nat, picks: seq<nat>, c0: seq<nat>)
    requires Linked(parent, m, picks) && |picks| == m - 1 && TreeLengths(nbBits, parent, m)
    requires Greedy(c0, picks)
    ensures |c0| == m && m <= |nbBits|
    ensures (forall k | 0 <= k < |picks| :: picks[k] < |picks| - k) && nbBits[..m] == Lengths(picks)
    ensures NonDecreasing(nbBits[..m]) && AtMost(nbBits[..m], m - 1)
    ensures Kraft(nbBits[..m], m - 1) == Pow2(m - 1)
    ensures forall l: seq<nat>, D: nat | |l| == m && PrefixCode(l, D) :: Cost(c0, nbBits[..m]) <= Cost(c0, l)
  {
    hide Linked, TreeLengths, Greedy, Kraft, Cost, Pow2;
    assert picks[0..] == picks;
    TreeIsList(nbBits, parent, m, picks, 0);
    LinkedSteps(parent, m, picks);
    ShapeOf(m, picks, 0);
    LeavesFirst(nbBits, parent, m, picks);
    LengthsBound(picks);
    GreedyLength(c0, picks);
    forall l: seq<nat>, D: nat | |l| == m && PrefixCode(l, D) ensures Cost(c0, nbBits[..m]) <= Cost(c0, l) {
      Optimal(c0, picks, l, D);
    }
  }

  lemma {:induction false} GreedyLength(c: seq<nat>, picks: seq<nat>)
    requires Greedy(c, picks)
    ensures |c| == |picks| + 1
  {
  }

  lemma {:induction false} LeavesFirst(nbBits: seq<nat>, parent: seq<nat>, m: nat, picks: seq<nat>)
    requires TreeLengths(nbBits, parent, m)
    ensures m <= |nbBits| && ItemLengths(nbBits, m, LeavesLeft(m, picks, 0), 0) == nbBits[..m]
  {
    forall k: nat | k < m ensures LengthAt(nbBits, Entry(m, m, 0, k)) == nbBits[..m][k] {}
  }

  /** A complete code is complete when measured at its own height. */
  lemma {:induction false} KraftAtHeight(l: seq<nat>, D: nat, M: nat)
    requires AtMost(l, M) && M <= D && Kraft(l, D) == Pow2(D)
    ensures Kraft(l, M) == Pow2(M)
  {
    var k, p, d := Kraft(l, M), Pow2(M), D - M;
    KraftScale(l, M, D);
    Pow2IsShl(M, d);
    ShlOne(d);
    if k < p {
      ShlMono(k + 1, p, d);
      ShlAdd(k, 1, d);
    }
    if p < k {
      ShlMono(p + 1, k, d);
      ShlAdd(p, 1, d);
    }
  }
}
