/**
  The code tree of huffman.c on values: nodes in the order of their creation, first the leaves, each with
  the index of its parent. The code of a leaf is the path from the root to it.
 */
module HuffmanLabels {
  import opened Bits

  const MAX_SYMBOLS := 256

  /** A node; -1 for a missing parent or child. */
  datatype Cell = Cell(up: int, zero: int, one: int, symbol: byte, count: nat)

  /** The first `n` cells are leaves for different symbols; a later cell is the parent of two earlier ones. */
  ghost predicate Forest(cells: seq<Cell>, n: nat) {
    && n <= |cells|
    && (forall x: nat | x < |cells| :: UpOk(cells, n, x))
    && (forall x: nat | x < n :: cells[x].zero == -1 && cells[x].one == -1)
    && (forall x: nat | n <= x < |cells| :: Joins(cells, x))
    && (forall x: nat, y: nat | x < y < n :: cells[x].symbol != cells[y].symbol)
  }

  ghost predicate UpOk(cells: seq<Cell>, n: nat, x: nat)
    requires x < |cells|
  {
    var u := cells[x].up;
    u == -1 || (x < u < |cells| && n <= u && (cells[u].zero == x || cells[u].one == x))
  }

  ghost predicate Joins(cells: seq<Cell>, x: nat)
    requires x < |cells|
  {
    var a, b := cells[x].zero, cells[x].one;
    && 0 <= a < x && 0 <= b < x && a != b && cells[a].up == x && cells[b].up == x
    && cells[x].count == cells[a].count + cells[b].count
  }

  /** The bits from the root of its tree down to cell `x`. */
  ghost function Label(cells: seq<Cell>, n: nat, x: nat): seq<bool>
    requires Forest(cells, n) && x < |cells|
    decreases |cells| - x
  {
    assert UpOk(cells, n, x);
    var u := cells[x].up;
    if u == -1 then [] else Label(cells, n, u) + [cells[u].one == x]
  }

  ghost predicate OneRoot(cells: seq<Cell>, r: nat) {
    forall x: nat | x < |cells| :: cells[x].up == -1 ==> x == r
  }

  /** A path leads to one cell only. */
  lemma {:induction false} LabelInjective(cells: seq<Cell>, n: nat, r: nat, x: nat, y: nat)
    requires Forest(cells, n) && OneRoot(cells, r) && x < |cells| && y < |cells|
    requires Label(cells, n, x) == Label(cells, n, y)
    ensures x == y
    decreases |cells| - x
  {
    assert UpOk(cells, n, x) && UpOk(cells, n, y);
    var u, v := cells[x].up, cells[y].up;
    if u != -1 && v != -1 {
      var a, b := Label(cells, n, u), Label(cells, n, v);
      assert (a + [cells[u].one == x])[..|a|] == a && (b + [cells[v].one == y])[..|b|] == b;
      assert (a + [cells[u].one == x])[|a|] == (b + [cells[v].one == y])[|b|];
      LabelInjective(cells, n, r, u, v);
    }
  }

  /** No code is the beginning of another path: a leaf has no cell below it. */
  lemma {:induction false} LeafPrefix(cells: seq<Cell>, n: nat, r: nat, x: nat, y: nat)
    requires Forest(cells, n) && OneRoot(cells, r) && x < n && y < |cells|
    requires Label(cells, n, x) <= Label(cells, n, y)
    ensures x == y
    decreases |cells| - y
  {
    assert UpOk(cells, n, x) && UpOk(cells, n, y);
    var a, b := Label(cells, n, x), Label(cells, n, y);
    if |a| == |b| {
      LabelInjective(cells, n, r, x, y);
    } else {
      var v := cells[y].up;
      assert b[..|b| - 1] == Label(cells, n, v);
      LeafPrefix(cells, n, r, x, v);
    }
  }

  /** A path is not longer than the number of joins after its cell. */
  lemma {:induction false} LabelLength(cells: seq<Cell>, n: nat, x: nat)
    requires Forest(cells, n) && x < |cells|
    ensures |Label(cells, n, x)| + (if x < n then n else x + 1) <= |cells|
    decreases |cells| - x
  {
    assert UpOk(cells, n, x);
    if cells[x].up != -1 { LabelLength(cells, n, cells[x].up); }
  }

  // ---------- the nodes below a node ----------

  ghost predicate Under(cells: seq<Cell>, n: nat, x: nat, top: nat)
    requires Forest(cells, n) && x < |cells|
    decreases |cells| - x
  {
    assert UpOk(cells, n, x);
    x == top || (cells[x].up != -1 && Under(cells, n, cells[x].up, top))
  }

  /** What is below a node is the node itself or below one of its children. */
  lemma {:induction false} UnderChild(cells: seq<Cell>, n: nat, x: nat, top: nat)
    requires Forest(cells, n) && x < |cells| && n <= top < |cells| && Under(cells, n, x, top) && x != top
    ensures Joins(cells, top) && (Under(cells, n, x, cells[top].zero) || Under(cells, n, x, cells[top].one))
    decreases |cells| - x
  {
    assert UpOk(cells, n, x) && Joins(cells, top);
    if cells[x].up != top { UnderChild(cells, n, cells[x].up, top); }
  }

  /** Everything is below the only root. */
  lemma {:induction false} UnderRoot(cells: seq<Cell>, n: nat, r: nat, x: nat)
    requires Forest(cells, n) && OneRoot(cells, r) && x < |cells|
    ensures Under(cells, n, x, r)
    decreases |cells| - x
  {
    assert UpOk(cells, n, x);
    if cells[x].up != -1 { UnderRoot(cells, n, r, cells[x].up); }
  }

  /** Nothing but a leaf is below it. */
  lemma {:induction false} UnderLeaf(cells: seq<Cell>, n: nat, x: nat, top: nat)
    requires Forest(cells, n) && x < n && x < |cells| && Under(cells, n, x, top) && top < n
    ensures x == top
    decreases |cells| - x
  {
    assert UpOk(cells, n, x);
    if x != top { AboveLeaf(cells, n, cells[x].up, top); }
  }

  lemma {:induction false} AboveLeaf(cells: seq<Cell>, n: nat, x: nat, top: nat)
    requires Forest(cells, n) && n <= x < |cells| && top < n
    ensures !Under(cells, n, x, top)
    decreases |cells| - x
  {
    assert UpOk(cells, n, x);
    if cells[x].up != -1 { AboveLeaf(cells, n, cells[x].up, top); }
  }

  // ---------- joining two roots ----------

  /** A new cell above the roots `a` and `b`. */
  ghost function Joined(cells: seq<Cell>, a: nat, b: nat): seq<Cell>
    requires a < |cells| && b < |cells|
  {
    var u := |cells|;
    cells[a := cells[a].(up := u)][b := cells[b].(up := u)] + [Cell(-1, a, b, 0, cells[a].count + cells[b].count)]
  }

  lemma {:induction false} JoinedForest(cells: seq<Cell>, n: nat, a: nat, b: nat)
    requires Forest(cells, n) && a < |cells| && b < |cells| && a != b && cells[a].up == -1 == cells[b].up
    ensures Forest(Joined(cells, a, b), n)
  {
    var c := Joined(cells, a, b);
    JoinedAt(cells, a, b);
    forall x: nat | x < |c| ensures UpOk(c, n, x) {
      if x < |cells| { assert UpOk(cells, n, x); }
    }
    forall x: nat | n <= x < |c| ensures Joins(c, x) {
      if x < |cells| {
        assert Joins(cells, x);
        assert UpOk(cells, n, cells[x].zero) && UpOk(cells, n, cells[x].one);
      }
    }
  }

  lemma {:induction false} JoinedAt(cells: seq<Cell>, a: nat, b: nat)
    requires a < |cells| && b < |cells|
    ensures var c := Joined(cells, a, b);
            && |c| == |cells| + 1 && c[|cells|] == Cell(-1, a, b, 0, cells[a].count + cells[b].count)
            && forall x: nat | x < |cells| :: c[x] == if x == a || x == b then cells[x].(up := |cells|) else cells[x]
  {
  }

  // ---------- leaves by symbol ----------

  /** The leaf for symbol `s`, or -1. */
  function LeafOf(cells: seq<Cell>, n: nat, s: nat): (x: int)
    requires n <= |cells|
    ensures -1 <= x < n && (x >= 0 ==> cells[x].symbol == s)
    ensures x == -1 ==> forall y: nat | y < n :: cells[y].symbol != s
  {
    if n == 0 then -1 else if cells[n - 1].symbol == s then n - 1 else LeafOf(cells, n - 1, s)
  }
}
