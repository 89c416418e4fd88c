/**
  The tree that the readers of huffman.c build, one code after another. `at` gives the node at the end of
  each path from the root that exists.
 */
module HuffmanTrie {
  import opened Bits
  import opened HuffmanBits
  import opened HuffmanNodes

  ghost function Kid(at: map<seq<bool>, Node>, path: seq<bool>, b: bool): Node? {
    if path + [b] in at then at[path + [b]] else null
  }

  /** The paths are those of a tree, with different nodes at their ends; only inner nodes have children. */
  ghost predicate TreePaths(at: map<seq<bool>, Node>) {
    && [] in at
    && (forall p | p in at && |p| > 0 :: p[..|p| - 1] in at && !at[p[..|p| - 1]].isLeaf)
    && (forall p, q | p in at && q in at && at[p] == at[q] :: p == q)
  }

  /** The links of the nodes are the tree. */
  ghost predicate Trie(at: map<seq<bool>, Node>)
    reads at.Values
  {
    TreePaths(at) && forall p | p in at :: Linked(at, p, at[p])
  }

  ghost predicate Linked(at: map<seq<bool>, Node>, path: seq<bool>, p: Node)
    reads p
  {
    p.isLeaf || (p.zero == Kid(at, path, false) && p.one == Kid(at, path, true))
  }

  /** One step down from `p`; a missing child is created, as a leaf for the last bit. */
  method Descend(p: Node, b: bool, last: bool, symbol: byte, ghost at: map<seq<bool>, Node>, ghost path: seq<bool>)
    returns (q: Node, ghost at': map<seq<bool>, Node>)
    requires Trie(at) && path in at && at[path] == p && !p.isLeaf
    modifies p
    ensures Trie(at') && path + [b] in at' && at'[path + [b]] == q
    ensures path + [b] in at ==> at' == at
    ensures path + [b] !in at ==> at' == at[path + [b] := q] && fresh(q) && q.isLeaf == last && (last ==> q.symbol == symbol)
  {
    hide TreePaths, Kid;
    assert Linked(at, path, p);
    at' := at;
    var next := if b then p.one else p.zero;
    if next == null {
      if last { q := new Node.Leaf(symbol, 0); } else { q := new Node.NonLeaf(0, null, null, 0); }
      at' := at[path + [b] := q];
      KidIs(at, path, b);
      NewPath(at, path, b, q);
      Alone(at, path);
      label Before:
      if b { p.one := q; } else { p.zero := q; }
      q.parent := p;
      forall r | r in at' ensures Linked(at', r, at'[r]) {
        NewKid(at, path, b, q, r, false);
        NewKid(at, path, b, q, r, true);
        if r != path + [b] { assert old@Before(Linked(at, r, at[r])); }
      }
    } else {
      KidIs(at, path, b);
      q := next;
    }
  }

  lemma {:induction false} KidIs(at: map<seq<bool>, Node>, path: seq<bool>, b: bool)
    ensures Kid(at, path, b) == null <==> path + [b] !in at
    ensures path + [b] in at ==> Kid(at, path, b) == at[path + [b]]
  {
  }

  lemma {:induction false} Alone(at: map<seq<bool>, Node>, path: seq<bool>)
    requires TreePaths(at) && path in at
    ensures forall r | r in at && r != path :: at[r] != at[path]
  {
  }

  lemma {:induction false} NewPath(at: map<seq<bool>, Node>, path: seq<bool>, b: bool, q: Node)
    requires TreePaths(at) && path in at && path + [b] !in at && !at[path].isLeaf && q !in at.Values
    ensures TreePaths(at[path + [b] := q])
  {
    var at' := at[path + [b] := q];
    assert (path + [b])[..|path|] == path;
    forall p | p in at' && |p| > 0 ensures p[..|p| - 1] in at' && !at'[p[..|p| - 1]].isLeaf {
      if p != path + [b] { assert p[..|p| - 1] in at; }
    }
    forall p, r | p in at' && r in at' && at'[p] == at'[r] ensures p == r {
      if p in at && p != path + [b] { assert at[p] in at.Values; }
      if r in at && r != path + [b] { assert at[r] in at.Values; }
    }
  }

  lemma {:induction false} SnocSame(r: seq<bool>, c: bool, path: seq<bool>, b: bool)
    requires r + [c] == path + [b]
    ensures r == path && c == b
  {
    assert (r + [c])[..|r|] == r && (path + [b])[..|path|] == path;
  }

  /** Below a path that does not exist there is none. */
  lemma {:induction false} NoKid(at: map<seq<bool>, Node>, path: seq<bool>, c: bool)
    requires TreePaths(at) && path !in at
    ensures path + [c] !in at
  {
    assert (path + [c])[..|path|] == path;
  }

  /** Only `path` gets a new child, and the new node has none. */
  lemma {:induction false} NewKid(at: map<seq<bool>, Node>, path: seq<bool>, b: bool, q: Node, r: seq<bool>, c: bool)
    requires TreePaths(at) && path in at && path + [b] !in at
    ensures Kid(at[path + [b] := q], r, c) == if r == path && c == b then q else Kid(at, r, c)
    ensures r == path + [b] ==> Kid(at, r, c) == null
  {
    if r + [c] == path + [b] { SnocSame(r, c, path, b); }
    if r == path + [b] { NoKid(at, r, c); }
  }

  // ---------- inserting a code ----------

  /** `at` is extended to `at'` by the beginnings of `c` of at most `k` bits; a node for the whole of `c` is a leaf for `symbol`. */
  ghost predicate Extends(at: map<seq<bool>, Node>, at': map<seq<bool>, Node>, c: seq<bool>, k: nat, symbol: byte) {
    && (forall p :: p in at' <==> p in at || (p <= c && |p| <= k))
    && (forall p | p in at :: at'[p] == at[p])
    && (forall p | p in at' && p !in at :: at'[p].isLeaf == (p == c) && (p == c ==> at'[p].symbol == symbol))
  }

  lemma {:induction false} ExtendsNext(at: map<seq<bool>, Node>, at1: map<seq<bool>, Node>, at2: map<seq<bool>, Node>, c: seq<bool>, k: nat,
                                       symbol: byte, q: Node)
    requires Extends(at, at1, c, k, symbol) && k < |c|
    requires var path := c[..k];
             if path + [c[k]] in at1 then at2 == at1
             else at2 == at1[path + [c[k]] := q] && q.isLeaf == (k + 1 == |c|) && (q.isLeaf ==> q.symbol == symbol)
    ensures Extends(at, at2, c, k + 1, symbol)
  {
    assert c[..k] + [c[k]] == c[..k + 1];
    forall p ensures p in at2 <==> p in at || (p <= c && |p| <= k + 1) {
      if p <= c && |p| == k + 1 { assert p == c[..k + 1]; }
    }
  }

  ghost function BitsOf(bytes: seq<byte>, numbits: nat): (c: seq<bool>)
    ensures |c| == numbits
  {
    seq(numbits, i requires 0 <= i < numbits => GetBit(bytes, i))
  }

  /** No leaf among the beginnings of `c` of fewer than `k` bits. */
  ghost predicate Clear(at: map<seq<bool>, Node>, c: seq<bool>, k: nat) {
    forall p | p in at && p <= c && |p| < k :: !at[p].isLeaf
  }

  lemma {:induction false} InsertStart(at: map<seq<bool>, Node>, c: seq<bool>, symbol: byte)
    requires TreePaths(at)
    ensures Extends(at, at, c, 0, symbol) && Clear(at, c, 0) && c[..0] == []
  {
  }

  /** The node reached is a leaf only if it was there before. */
  lemma {:induction false} LeafWasThere(at: map<seq<bool>, Node>, at': map<seq<bool>, Node>, c: seq<bool>, k: nat, symbol: byte)
    requires Extends(at, at', c, k, symbol) && k < |c| && c[..k] in at' && Clear(at, c, k)
    ensures at'[c[..k]].isLeaf ==> !Clear(at, c, |c|)
    ensures !at'[c[..k]].isLeaf ==> Clear(at, c, k + 1)
  {
    forall p | p in at && p <= c && |p| == k ensures p == c[..k] {}
  }

  /** The loop that adds an entry to the tree; it gives up at a leaf. */
  method InsertCode(root: Node, bytes: seq<byte>, numbits: nat, symbol: byte, ghost at: map<seq<bool>, Node>)
    returns (ok: bool, ghost at': map<seq<bool>, Node>)
    requires Trie(at) && TreePaths(at) && root == at[[]]
    modifies at.Values
    ensures Trie(at') && [] in at' && at'[[]] == root && (forall p | p in at' :: at'[p] in at.Values || fresh(at'[p]))
    ensures ok <==> Clear(at, BitsOf(bytes, numbits), numbits)
    ensures ok ==> Extends(at, at', BitsOf(bytes, numbits), numbits, symbol)
  {
    hide Trie, TreePaths, Extends, Clear, GetBit;
    ghost var c := BitsOf(bytes, numbits);
    var p := root;
    at', ok := at, true;
    InsertStart(at, c, symbol);
    for curbit := 0 to numbits
      invariant Trie(at') && c[..curbit] in at' && at'[c[..curbit]] == p && [] in at' && at'[[]] == root
      invariant forall r | r in at' :: at'[r] in at.Values || fresh(at'[r])
      invariant Extends(at, at', c, curbit, symbol) && Clear(at, c, curbit)
    {
      LeafWasThere(at, at', c, curbit, symbol);
      if p.isLeaf { return false, at'; }
      ghost var at1 := at';
      p, at' := Descend(p, GetBit(bytes, curbit), curbit == numbits - 1, symbol, at1, c[..curbit]);
      assert c[..curbit] + [c[curbit]] == c[..curbit + 1];
      ExtendsNext(at, at1, at', c, curbit, symbol, p);
    }
  }

  // ---------- the tree as a value ----------

  datatype Twig = Inner | Leaf(symbol: byte)

  /** The tree without its nodes: what is at the end of each path. */
  ghost function Shape(at: map<seq<bool>, Node>): (m: map<seq<bool>, Twig>) {
    map p | p in at :: if at[p].isLeaf then Twig.Leaf(at[p].symbol) else Inner
  }

  ghost function Beginnings(c: seq<bool>): set<seq<bool>> {
    set i | 0 <= i <= |c| :: c[..i]
  }

  /** The tree with the beginnings of `c` that it lacks, of which the whole of `c` is a leaf. */
  ghost function Inserted(m: map<seq<bool>, Twig>, c: seq<bool>, symbol: byte): map<seq<bool>, Twig> {
    map p | p in m.Keys + Beginnings(c) :: if p in m then m[p] else if p == c then Twig.Leaf(symbol) else Inner
  }

  /** The way of `c` runs through a leaf. */
  ghost predicate Blocked(m: map<seq<bool>, Twig>, c: seq<bool>) {
    exists p :: p in m && p <= c && |p| < |c| && m[p].Leaf?
  }

  lemma {:induction false} BeginsWith(p: seq<bool>, c: seq<bool>)
    ensures p in Beginnings(c) <==> p <= c
  {
    if p <= c { assert p == c[..|p|]; }
  }

  lemma {:induction false} ShapeInserted(at: map<seq<bool>, Node>, at': map<seq<bool>, Node>, c: seq<bool>, symbol: byte)
    requires Extends(at, at', c, |c|, symbol)
    ensures Shape(at') == Inserted(Shape(at), c, symbol)
  {
    var m, m' := Inserted(Shape(at), c, symbol), Shape(at');
    forall p ensures p in m <==> p in m' { BeginsWith(p, c); }
    forall p | p in m ensures m[p] == m'[p] { BeginsWith(p, c); }
  }

  lemma {:induction false} ClearShape(at: map<seq<bool>, Node>, c: seq<bool>)
    ensures Clear(at, c, |c|) <==> !Blocked(Shape(at), c)
  {
    var m := Shape(at);
    if Blocked(m, c) {
      var p :| p in m && p <= c && |p| < |c| && m[p].Leaf?;
      assert p in at && at[p].isLeaf;
    }
    if !Clear(at, c, |c|) {
      var p :| p in at && p <= c && |p| < |c| && at[p].isLeaf;
      assert p in m && m[p].Leaf?;
    }
  }
}
