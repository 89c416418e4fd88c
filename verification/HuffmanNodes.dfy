/**
  The Huffman tree of huffman.c as linked nodes: counting, sorting the roots, and joining the two rarest ones
  until one is left.
 */
module HuffmanNodes {
  import opened Bits
  import opened HuffmanLabels
  import opened FseSpread

  /** huffman_node. `id` is its place in the order of creation. */
  class Node {
    const isLeaf: bool
    var count: nat
    var parent: Node?
    var zero: Node?
    var one: Node?
    const symbol: byte
    ghost var id: nat

    /** new_leaf_node. */
    constructor Leaf(symbol: byte, ghost id: nat)
      ensures isLeaf && count == 0 && parent == null && zero == null && one == null
      ensures this.symbol == symbol && this.id == id
    {
      isLeaf, count, parent, zero, one := true, 0, null, null, null;
      this.symbol, this.id := symbol, id;
    }

    /** new_nonleaf_node. */
    constructor NonLeaf(count: nat, zero: Node?, one: Node?, ghost id: nat)
      ensures !isLeaf && this.count == count && parent == null && this.zero == zero && this.one == one
      ensures this.id == id
    {
      isLeaf, this.count, parent, this.zero, this.one := false, count, null, zero, one;
      symbol, this.id := 0, id;
    }
  }

  function At(pool: seq<Node>, i: int): Node? {
    if 0 <= i < |pool| then pool[i] else null
  }

  /** The linked nodes `pool` are `cells`, with leaves first. */
  ghost predicate Matches(pool: seq<Node>, cells: seq<Cell>, n: nat)
    reads pool
  {
    |pool| == |cells| && forall x: nat | x < |pool| :: pool[x].id == x && NodeIs(pool, pool[x], cells[x], x < n)
  }

  ghost predicate NodeIs(pool: seq<Node>, p: Node, c: Cell, leaf: bool)
    reads p
  {
    && p.isLeaf == leaf && p.count == c.count && p.parent == At(pool, c.up)
    && p.zero == At(pool, c.zero) && p.one == At(pool, c.one) && (leaf ==> p.symbol == c.symbol)
  }

  /** The entries of the table are the roots, each once, and nulls. */
  ghost predicate Roots(entries: multiset<Node?>, pool: seq<Node>, cells: seq<Cell>) {
    && |pool| == |cells|
    && (forall x: nat | x < |pool| :: entries[pool[x]] == if cells[x].up == -1 then 1 else 0)
    && (forall e | e in entries :: e == null || e in pool)
  }

  // ---------- SFComp and qsort ----------

  /** SFComp: rarest first, nulls last. */
  ghost predicate NotAfter(p: Node?, q: Node?)
    reads {p, q}`count
  {
    q == null || (p != null && p.count <= q.count)
  }

  ghost predicate Ascending(s: seq<Node?>)
    reads s`count
  {
    forall i, j | 0 <= i < j < |s| :: NotAfter(s[i], s[j])
  }

  /** A place for `e` in a sorted table. */
  method PlaceFor(s: seq<Node?>, e: Node?) returns (k: nat)
    requires Ascending(s)
    ensures k <= |s| && (forall i | 0 <= i < k :: NotAfter(s[i], e)) && (forall i | k <= i < |s| :: NotAfter(e, s[i]))
  {
    k := 0;
    while k < |s| && (e == null || (s[k] != null && s[k].count <= e.count))
      invariant k <= |s| && forall i | 0 <= i < k :: NotAfter(s[i], e)
    {
      k := k + 1;
    }
  }

  lemma {:induction false} InsertAscending(s: seq<Node?>, e: Node?, k: nat)
    requires Ascending(s) && k <= |s| && (forall i | 0 <= i < k :: NotAfter(s[i], e)) && (forall i | k <= i < |s| :: NotAfter(e, s[i]))
    ensures Ascending(s[..k] + [e] + s[k..]) && multiset(s[..k] + [e] + s[k..]) == multiset(s) + multiset{e}
  {
    hide NotAfter;
    assert s == s[..k] + s[k..];
    var r := s[..k] + [e] + s[k..];
    forall i, j | 0 <= i < j < |r| ensures NotAfter(r[i], r[j]) {
      assert i != k && j != k ==> NotAfter(s[if i < k then i else i - 1], s[if j < k then j else j - 1]);
    }
  }

  method SortNodes(t: seq<Node?>) returns (s: seq<Node?>)
    ensures Ascending(s) && multiset(s) == multiset(t)
  {
    s := [];
    for i := 0 to |t|
      invariant Ascending(s) && multiset(s) == multiset(t[..i])
    {
      hide Ascending, NotAfter;
      var k := PlaceFor(s, t[i]);
      InsertAscending(s, t[i], k);
      assert t[..i + 1] == t[..i] + [t[i]];
      s := s[..k] + [t[i]] + s[k..];
    }
    assert t[..|t|] == t;
  }

  /** qsort on the first `n` entries. No use is made of how it orders entries of equal count. */
  method QSort(pSF: array<Node?>, n: nat)
    requires n <= pSF.Length
    modifies pSF
    ensures Ascending(pSF[..n]) && multiset(pSF[..n]) == multiset(old(pSF[..n]))
    ensures pSF[n..] == old(pSF[n..])
  {
    hide Ascending, NotAfter;
    var s := SortNodes(pSF[..n]);
    SameLength(s, pSF[..n]);
    ghost var rest := pSF[n..];
    forall i | 0 <= i < n { pSF[i] := s[i]; }
    assert pSF[..n] == s;
    assert pSF[n..] == rest;
  }

  lemma {:induction false} SameLength(s: seq<Node?>, t: seq<Node?>)
    requires multiset(s) == multiset(t)
    ensures |s| == |t|
  {
    assert |multiset(s)| == |s| && |multiset(t)| == |t|;
  }

  /** Only nulls from `k` on. */
  lemma {:induction false} NullsCounted(s: seq<Node?>, k: nat)
    requires k <= |s| && forall i | k <= i < |s| :: s[i] == null
    ensures multiset(s)[null] >= |s| - k
  {
    if k < |s| {
      assert s == s[..|s| - 1] + [null];
      NullsCounted(s[..|s| - 1], k);
    }
  }

  /** With at least `k`+1 roots left, entry `k` is one. */
  lemma {:induction false} RootAt(s: seq<Node?>, k: nat)
    requires Ascending(s) && k < |s| && multiset(s)[null] + k < |s|
    ensures s[k] != null
  {
    if s[k] == null { NullsCounted(s, k); }
  }

  // ---------- joining ----------

  /** One more cell, and the others keep their symbols and counts. */
  ghost predicate Grows(cells: seq<Cell>, cells': seq<Cell>) {
    |cells'| == |cells| + 1
    && forall x: nat | x < |cells| :: cells'[x].symbol == cells[x].symbol && cells'[x].count == cells[x].count
  }

  lemma {:induction false} JoinedGrows(cells: seq<Cell>, a: nat, b: nat)
    requires a < |cells| && b < |cells|
    ensures |Joined(cells, a, b)| == |cells| + 1 && Grows(cells, Joined(cells, a, b))
  {
    JoinedAt(cells, a, b);
  }

  lemma {:induction false} RootIndex(s: seq<Node?>, pool: seq<Node>, cells: seq<Cell>, k: nat) returns (a: nat)
    requires Roots(multiset(s), pool, cells) && k < |s| && s[k] != null
    ensures a < |pool| && s[k] == pool[a]
  {
    assert s[k] in multiset(s);
    a :| a < |pool| && s[k] == pool[a];
  }

  lemma {:induction false} Different(pool: seq<Node>, cells: seq<Cell>, n: nat)
    requires Matches(pool, cells, n)
    ensures |pool| == |cells| && forall x: nat, y: nat | x < y < |pool| :: pool[x] != pool[y]
  {
    forall x: nat, y: nat | x < y < |pool| ensures pool[x] != pool[y] { assert pool[x].id == x && pool[y].id == y; }
  }

  /** The first two entries are different roots. */
  lemma {:induction false} JoinRoots(s: seq<Node?>, pool: seq<Node>, cells: seq<Cell>, a: nat, b: nat)
    requires Roots(multiset(s), pool, cells) && 2 <= |s| && a < |pool| && b < |pool| && s[0] == pool[a] && s[1] == pool[b]
    ensures a != b && cells[a].up == -1 == cells[b].up
  {
    assert s == [s[0], s[1]] + s[2..];
    assert multiset(s) == multiset{s[0], s[1]} + multiset(s[2..]);
  }

  lemma {:induction false} FirstReplaced(s: seq<Node?>, p: Node)
    requires 2 <= |s|
    ensures multiset(s[0 := p][1 := null]) + multiset{s[0], s[1]} == multiset(s) + multiset{p, null}
  {
    assert s == [s[0], s[1]] + s[2..];
    assert s[0 := p][1 := null] == [p, null] + s[2..];
  }

  lemma {:induction false} JoinedRoots(s: seq<Node?>, pool: seq<Node>, cells: seq<Cell>, a: nat, b: nat, p: Node)
    requires Roots(multiset(s), pool, cells) && 2 <= |s| && a < |pool| && b < |pool| && s[0] == pool[a] && s[1] == pool[b]
    requires a != b && cells[a].up == -1 == cells[b].up
    requires forall x: nat, y: nat | x < y < |pool| :: pool[x] != pool[y]
    requires p !in pool
    ensures Roots(multiset(s[0 := p][1 := null]), pool + [p], Joined(cells, a, b))
    ensures multiset(s[0 := p][1 := null])[null] == multiset(s)[null] + 1
  {
    hide Joined;
    FirstReplaced(s, p);
    JoinedAt(cells, a, b);
    EntriesAfter(multiset(s), multiset(s[0 := p][1 := null]), pool, cells, Joined(cells, a, b), a, b, p);
  }

  lemma {:induction false} EntriesAfter(ms: multiset<Node?>, ms': multiset<Node?>, pool: seq<Node>, cells: seq<Cell>, cells': seq<Cell>,
                                        a: nat, b: nat, p: Node)
    requires Roots(ms, pool, cells) && a < |pool| && b < |pool| && a != b && cells[a].up == -1 == cells[b].up
    requires forall x: nat, y: nat | x < y < |pool| :: pool[x] != pool[y]
    requires p !in pool && ms' + multiset{pool[a] as Node?, pool[b] as Node?} == ms + multiset{p as Node?, null}
    requires |cells'| == |cells| + 1 && cells'[|cells|].up == -1
    requires forall x: nat | x < |cells| :: cells'[x] == if x == a || x == b then cells[x].(up := |cells|) else cells[x]
    ensures Roots(ms', pool + [p], cells') && ms'[null] == ms[null] + 1
  {
    var out, into := multiset{pool[a] as Node?, pool[b] as Node?}, multiset{p as Node?, null};
    forall e: Node? ensures ms'[e] + out[e] == ms[e] + into[e] {
      assert (ms' + out)[e] == ms'[e] + out[e] && (ms + into)[e] == ms[e] + into[e];
    }
    assert p !in ms;
    forall x: nat | x < |pool| + 1 ensures ms'[(pool + [p])[x]] == if cells'[x].up == -1 then 1 else 0 {
      if x < |pool| && x != a && x != b { assert pool[x] != pool[a] && pool[x] != pool[b]; }
    }
  }

  lemma {:induction false} AtSame(pool: seq<Node>, p: Node, i: int)
    requires i < |pool|
    ensures At(pool + [p], i) == At(pool, i)
  {
  }

  lemma {:induction false} AtEnds(pool: seq<Node>, p: Node, a: nat, b: nat)
    requires a < |pool| && b < |pool|
    ensures var pool' := pool + [p]; At(pool', |pool|) == p && At(pool', -1) == null && At(pool', a) == pool[a] && At(pool', b) == pool[b]
  {
  }

  lemma {:induction false} LinksInside(cells: seq<Cell>, n: nat, x: nat)
    requires Forest(cells, n) && x < |cells|
    ensures cells[x].up < |cells| && cells[x].zero < |cells| && cells[x].one < |cells|
  {
    assert UpOk(cells, n, x);
    if n <= x { assert Joins(cells, x); }
  }

  /** A common parent for the roots `m1` and `m2`. */
  method NewParent(m1: Node, m2: Node, n: nat, ghost pool: seq<Node>, ghost cells: seq<Cell>, ghost a: nat, ghost b: nat) returns (p: Node)
    requires Forest(cells, n) && Matches(pool, cells, n) && a < |pool| && b < |pool| && a != b && m1 == pool[a] && m2 == pool[b]
    requires n <= |pool|
    modifies m1`parent, m2`parent
    ensures fresh(p) && p !in pool && p.count == old(m1.count) + old(m2.count)
    ensures Matches(pool + [p], Joined(cells, a, b), n)
  {
    hide Forest, Joined, At;
    p := new Node.NonLeaf(m1.count + m2.count, m1, m2, |pool|);
    m1.parent := p;
    m2.parent := p;
    JoinedAt(cells, a, b);
    AtEnds(pool, p, a, b);
    forall x: nat | x < |pool| + 1
      ensures (pool + [p])[x].id == x && NodeIs(pool + [p], (pool + [p])[x], Joined(cells, a, b)[x], x < n)
    {
      if x < |pool| {
        LinksInside(cells, n, x);
        assert pool[x].id == x && pool[a].id == a && pool[b].id == b;
        AtSame(pool, p, cells[x].up);
        AtSame(pool, p, cells[x].zero);
        AtSame(pool, p, cells[x].one);
      }
    }
  }

  /** The two rarest roots get a common parent, which replaces them. */
  method JoinFirst(pSF: array<Node?>, n: nat, ghost pool: seq<Node>, ghost cells: seq<Cell>)
    returns (ghost pool': seq<Node>, ghost cells': seq<Cell>, ghost a: nat, ghost b: nat)
    requires 2 <= n <= pSF.Length && n <= |pool| && Forest(cells, n) && Matches(pool, cells, n)
    requires Ascending(pSF[..n]) && Roots(multiset(pSF[..n]), pool, cells) && multiset(pSF[..n])[null] + 2 <= n
    modifies pSF, pool`parent
    ensures a < |pool| == |cells| && b < |pool| && pool[a] == old(pSF[0]) && pool[b] == old(pSF[1])
    ensures Forest(cells', n) && Matches(pool', cells', n) && cells' == Joined(cells, a, b)
    ensures |pool'| == |pool| + 1 && pool'[..|pool|] == pool && fresh(pool'[|pool|])
    ensures Roots(multiset(pSF[..n]), pool', cells') && multiset(pSF[..n])[null] == multiset(old(pSF[..n]))[null] + 1
    ensures old(pSF[0]) != null && old(pSF[1]) != null && pool'[|pool|].count == old(pSF[0].count) + old(pSF[1].count)
    ensures pSF[0] == pool'[|pool|] && pSF[..n] == old(pSF[..n])[0 := pSF[0]][1 := null]
    ensures pSF[n..] == old(pSF[n..])
  {
    hide Forest, Ascending, Matches, Roots, Grows, Joined;
    ghost var s := pSF[..n];
    RootAt(s, 0);
    RootAt(s, 1);
    var m1, m2 := pSF[0], pSF[1];
    a := RootIndex(s, pool, cells, 0);
    b := RootIndex(s, pool, cells, 1);
    Different(pool, cells, n);
    JoinRoots(s, pool, cells, a, b);
    JoinedForest(cells, n, a, b);
    var p := NewParent(m1, m2, n, pool, cells, a, b);
    JoinedRoots(s, pool, cells, a, b, p);
    pool', cells' := pool + [p], Joined(cells, a, b);
    ghost var rest := pSF[n..];
    pSF[0] := p;
    pSF[1] := null;
    assert pSF[..n] == s[0 := p][1 := null];
    assert pSF[n..] == rest;
  }

  // ---------- counting ----------

  /** Leaves only, for different symbols. */
  ghost predicate AllRoots(cells: seq<Cell>) {
    && (forall x: nat | x < |cells| :: cells[x] == Cell(-1, -1, -1, cells[x].symbol, cells[x].count))
    && (forall x: nat, y: nat | x < y < |cells| :: cells[x].symbol != cells[y].symbol)
  }

  lemma {:induction false} RootsForest(cells: seq<Cell>)
    requires AllRoots(cells)
    ensures Forest(cells, |cells|)
  {
  }

  /** The leaf for each symbol is at its place in the table. */
  ghost predicate Indexed(table: seq<Node?>, pool: seq<Node>, cells: seq<Cell>) {
    && |table| == MAX_SYMBOLS && AllRoots(cells) && |pool| == |cells|
    && (forall x: nat | x < |pool| :: table[cells[x].symbol] == pool[x])
    && (forall s: nat | s < MAX_SYMBOLS && table[s] != null :: exists x: nat :: x < |pool| && pool[x] == table[s] && cells[x].symbol == s)
  }

  /** The leaves have the counts of the first `n` bytes of `src`. */
  ghost predicate Counts(table: seq<Node?>, src: seq<byte>, n: nat)
    requires |table| == MAX_SYMBOLS && n <= |src|
    reads table
  {
    forall s: nat {:trigger table[s]} | s < MAX_SYMBOLS ::
      (table[s] == null <==> Occ(src, n, s) == 0) && (table[s] != null ==> table[s].count == Occ(src, n, s))
  }

  /** Every leaf is in the table once. */
  ghost predicate Listed(table: seq<Node?>, pool: seq<Node>, cells: seq<Cell>) {
    Roots(multiset(table), pool, cells) && multiset(table)[null] + |pool| == MAX_SYMBOLS
  }

  lemma {:induction false} AddLeaf(table: seq<Node?>, pool: seq<Node>, cells: seq<Cell>, s: byte, p: Node)
    requires Listed(table, pool, cells) && AllRoots(cells) && |table| == MAX_SYMBOLS && table[s] == null && p !in pool
    ensures Listed(table[s := p], pool + [p], cells + [Cell(-1, -1, -1, s, 0)])
  {
    hide Roots, AllRoots;
    var table' := table[s := p];
    assert table == table[..s] + [null] + table[s + 1..] && table' == table[..s] + [p] + table[s + 1..];
    EntryAdded(multiset(table), multiset(table'), pool, cells, s, p);
  }

  lemma {:induction false} EntryAdded(ms: multiset<Node?>, ms': multiset<Node?>, pool: seq<Node>, cells: seq<Cell>, s: byte, p: Node)
    requires Roots(ms, pool, cells) && ms[null] + |pool| == MAX_SYMBOLS && p !in pool
    requires ms' + multiset{null as Node?} == ms + multiset{p as Node?}
    ensures Roots(ms', pool + [p], cells + [Cell(-1, -1, -1, s, 0)]) && ms'[null] + |pool| + 1 == MAX_SYMBOLS
  {
    forall e: Node? ensures ms'[e] + (if e == null then 1 else 0) == ms[e] + (if e == p then 1 else 0) {
      assert (ms' + multiset{null as Node?})[e] == (ms + multiset{p as Node?})[e];
    }
    assert p !in ms;
  }

  lemma {:induction false} AllNull(s: seq<Node?>)
    requires forall i | 0 <= i < |s| :: s[i] == null
    ensures multiset(s)[null] == |s|
    ensures forall e | e in multiset(s) :: e == null
  {
    NullsCounted(s, 0);
    assert |multiset(s)| == |s|;
    assert multiset(s)[null] <= |multiset(s)|;
  }

  /** A leaf for a symbol that has none. */
  method NewLeaf(pSF: array<Node?>, uc: byte, ghost pool: seq<Node>, ghost cells: seq<Cell>) returns (p: Node, ghost cells': seq<Cell>)
    requires pSF.Length == MAX_SYMBOLS && pSF[uc] == null
    requires Indexed(pSF[..], pool, cells) && Matches(pool, cells, |cells|) && Listed(pSF[..], pool, cells)
    modifies pSF
    ensures fresh(p) && p.count == 0 && pSF[..] == old(pSF[..])[uc := p]
    ensures Indexed(pSF[..], pool + [p], cells') && Matches(pool + [p], cells', |cells'|) && Listed(pSF[..], pool + [p], cells')
  {
    hide Listed;
    ghost var table := pSF[..];
    p := new Node.Leaf(uc, |pool|);
    AddLeaf(table, pool, cells, uc, p);
    pSF[uc] := p;
    cells' := cells + [Cell(-1, -1, -1, uc, 0)];
    assert pSF[..] == table[uc := p];
    hide Indexed;
    IndexedNext(table, pool, cells, uc, p);
  }

  lemma {:induction false} IndexedNext(table: seq<Node?>, pool: seq<Node>, cells: seq<Cell>, s: byte, p: Node)
    requires Indexed(table, pool, cells) && table[s] == null
    ensures Indexed(table[s := p], pool + [p], cells + [Cell(-1, -1, -1, s, 0)])
  {
    var table', pool', cells' := table[s := p], pool + [p], cells + [Cell(-1, -1, -1, s, 0)];
    forall r: nat | r < MAX_SYMBOLS && table'[r] != null
      ensures exists x: nat :: x < |pool'| && pool'[x] == table'[r] && cells'[x].symbol == r
    {
      if r == s {
        assert pool'[|pool|] == table'[r] && cells'[|pool|].symbol == r;
      } else {
        var x: nat :| x < |pool| && pool[x] == table[r] && cells[x].symbol == r;
        assert pool'[x] == table'[r] && cells'[x].symbol == r;
      }
    }
  }

  /** One byte: a new leaf if there is none, and one more in its count. */
  method CountOne(pSF: array<Node?>, bufin: seq<byte>, i: nat, ghost pool: seq<Node>, ghost cells: seq<Cell>)
    returns (ghost pool': seq<Node>, ghost cells': seq<Cell>)
    requires pSF.Length == MAX_SYMBOLS && i < |bufin| && Indexed(pSF[..], pool, cells)
    requires Counts(pSF[..], bufin, i) && Matches(pool, cells, |cells|) && Listed(pSF[..], pool, cells)
    modifies pSF, pool
    ensures pool <= pool' && (forall k | |pool| <= k < |pool'| :: fresh(pool'[k])) && Indexed(pSF[..], pool', cells')
    ensures Counts(pSF[..], bufin, i + 1) && Matches(pool', cells', |cells'|) && Listed(pSF[..], pool', cells')
  {
    hide Listed, Occ, Indexed, Matches, OneMore;
    pool', cells' := pool, cells;
    var uc := bufin[i];
    CountNext(bufin, i, uc);
    if pSF[uc] == null {
      var p;
      p, cells' := NewLeaf(pSF, uc, pool, cells);
      pool' := pool + [p];
    }
    var p := pSF[uc];
    InPool(pSF[..], pool', cells');
    ghost var x := IndexOf(pSF[..], pool', cells', uc);
    AddOne(p, pool', cells', x);
    OneMoreKeeps(pSF[..], pool', cells', x);
    cells' := OneMore(cells', x);
  }

  ghost function OneMore(cells: seq<Cell>, x: nat): seq<Cell>
    requires x < |cells|
  {
    cells[x := cells[x].(count := cells[x].count + 1)]
  }

  /** ++p->count. */
  method AddOne(p: Node, ghost pool: seq<Node>, ghost cells: seq<Cell>, ghost x: nat)
    requires Matches(pool, cells, |cells|) && x < |pool| && pool[x] == p && x < |cells|
    modifies p`count
    ensures p.count == old(p.count) + 1 && Matches(pool, OneMore(cells, x), |cells|)
  {
    p.count := p.count + 1;
    assert pool[x].id == x;
  }

  /** Counts do not matter for what is a root, or a leaf for what symbol. */
  lemma {:induction false} OneMoreKeeps(table: seq<Node?>, pool: seq<Node>, cells: seq<Cell>, x: nat)
    requires Indexed(table, pool, cells) && Listed(table, pool, cells) && x < |cells|
    ensures Indexed(table, pool, OneMore(cells, x)) && Listed(table, pool, OneMore(cells, x))
  {
    hide OneMore;
    OneMoreAt(cells, x);
    SameIndex(table, pool, cells, OneMore(cells, x));
    SameRoots(multiset(table), pool, cells, OneMore(cells, x));
  }

  lemma {:induction false} OneMoreAt(cells: seq<Cell>, x: nat)
    requires x < |cells|
    ensures |OneMore(cells, x)| == |cells|
    ensures forall y: nat | y < |cells| :: OneMore(cells, x)[y] == cells[y].(count := OneMore(cells, x)[y].count)
  {
  }

  lemma {:induction false} SameRoots(ms: multiset<Node?>, pool: seq<Node>, cells: seq<Cell>, cells': seq<Cell>)
    requires Roots(ms, pool, cells) && |cells'| == |cells| && forall y: nat | y < |cells| :: cells'[y] == cells[y].(count := cells'[y].count)
    ensures Roots(ms, pool, cells')
  {
  }

  lemma {:induction false} SameIndex(table: seq<Node?>, pool: seq<Node>, cells: seq<Cell>, cells': seq<Cell>)
    requires Indexed(table, pool, cells) && |cells'| == |cells|
    requires forall y: nat | y < |cells| :: cells'[y] == cells[y].(count := cells'[y].count)
    ensures Indexed(table, pool, cells')
  {
    forall s: nat | s < MAX_SYMBOLS && table[s] != null ensures exists y: nat :: y < |pool| && pool[y] == table[s] && cells'[y].symbol == s {
      var y: nat :| y < |pool| && pool[y] == table[s] && cells[y].symbol == s;
      assert cells'[y].symbol == s;
    }
  }

  lemma {:induction false} IndexOf(table: seq<Node?>, pool: seq<Node>, cells: seq<Cell>, s: nat) returns (x: nat)
    requires Indexed(table, pool, cells) && s < MAX_SYMBOLS && table[s] != null
    ensures x < |pool| == |cells| && pool[x] == table[s]
  {
    x :| x < |pool| && pool[x] == table[s] && cells[x].symbol == s;
  }

  lemma {:induction false} InPool(table: seq<Node?>, pool: seq<Node>, cells: seq<Cell>)
    requires Indexed(table, pool, cells) && Matches(pool, cells, |cells|)
    ensures |table| == MAX_SYMBOLS && forall s: nat | s < MAX_SYMBOLS :: table[s] == null || table[s] in pool
    ensures forall s: nat, t: nat | s < t < MAX_SYMBOLS && table[s] != null :: table[s] != table[t]
  {
  }

  lemma {:induction false} CountNext(src: seq<byte>, i: nat, uc: nat)
    requires i < |src| && uc == src[i]
    ensures forall s: nat {:trigger Occ(src, i, s)} :: Occ(src, i + 1, s) == Occ(src, i, s) + (if s == uc then 1 else 0)
  {
  }

  /** get_symbol_frequencies_from_memory, and get_symbol_frequencies on the bytes of a file. */
  method GetFrequencies(bufin: seq<byte>) returns (pSF: array<Node?>, totalCount: nat, ghost pool: seq<Node>, ghost cells: seq<Cell>)
    ensures fresh(pSF) && fresh(pool) && pSF.Length == MAX_SYMBOLS && totalCount == Low(|bufin|, 32)
    ensures Indexed(pSF[..], pool, cells) && Counts(pSF[..], bufin, |bufin|)
    ensures Matches(pool, cells, |cells|) && Listed(pSF[..], pool, cells)
  {
    hide Indexed, Counts, Matches, Listed, Low;
    pSF := new Node?[MAX_SYMBOLS](_ => null);
    totalCount := 0;
    pool, cells := [], [];
    NothingCounted(pSF[..], bufin);
    for i := 0 to |bufin|
      invariant fresh(pSF) && pSF.Length == MAX_SYMBOLS && fresh(pool) && totalCount == Low(i, 32)
      invariant Indexed(pSF[..], pool, cells) && Counts(pSF[..], bufin, i)
      invariant Matches(pool, cells, |cells|) && Listed(pSF[..], pool, cells)
    {
      pool, cells := CountOne(pSF, bufin, i, pool, cells);
      totalCount := Low(totalCount + 1, 32);
      NextCount(i);
    }
  }

  lemma {:induction false} NothingCounted(table: seq<Node?>, src: seq<byte>)
    requires |table| == MAX_SYMBOLS && forall i | 0 <= i < |table| :: table[i] == null
    ensures Indexed(table, [], []) && Counts(table, src, 0) && Matches([], [], 0) && Listed(table, [], []) && Low(0, 32) == 0
  {
    AllNull(table);
    LowNothing(32);
  }

  lemma {:induction false} LowNothing(n: nat)
    ensures Low(0, n) == 0
  {
    if n > 0 { LowNothing(n - 1); }
  }

  /** The counter of the number of symbols has 32 bits. */
  lemma {:induction false} NextCount(i: nat)
    ensures Low(Low(i, 32) + 1, 32) == Low(i + 1, 32)
  {
    hide Low, Shr, Shl, Pow2;
    Split(i, 32);
    var r := Low(i, 32) + 1;
    Split(r, 32);
    ShlAdd(Shr(r, 32), Shr(i, 32), 32);
    Join(Low(r, 32), Shr(r, 32) + Shr(i, 32), 32);
  }
}
