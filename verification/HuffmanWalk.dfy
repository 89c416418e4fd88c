/**
  What the decoding loops of huffman.c make of any tree and any bits: a walk that starts again at the root after
  each leaf. It succeeds exactly if the bits are paths to leaves, as far as symbols are wanted, and then the
  beginning of another path.
 */
module HuffmanWalk {
  import opened Errors
  import opened Bits
  import opened HuffmanBits
  import opened HuffmanNodes
  import opened HuffmanTrie

  /** The path from the root so far is `path`, bit `t` is next, and `left` symbols are wanted; without a node to go to there is no result. */
  ghost function Walked(m: map<seq<bool>, Twig>, bits: seq<bool>, t: nat, path: seq<bool>, left: nat): Option<seq<byte>>
    requires t <= |bits|
    decreases |bits| - t
  {
    if left == 0 || t == |bits| then Some([])
    else
      var p := path + [bits[t]];
      if p !in m then None
      else if m[p].Leaf? then Led([m[p].symbol], Walked(m, bits, t + 1, [], left - 1))
      else Walked(m, bits, t + 1, p, left)
  }

  ghost function Led(out: seq<byte>, rest: Option<seq<byte>>): Option<seq<byte>> {
    match rest
    case Some(s) => Some(out + s)
    case None => None
  }

  /** The paths are closed under beginnings, and only the ends of paths are leaves. */
  ghost predicate Grown(m: map<seq<bool>, Twig>) {
    [] in m && m[[]].Inner? && forall p, q | p in m && q <= p && q != p :: q in m && m[q].Inner?
  }

  /** `out` is what `bits` say: the path of each symbol in turn. Fewer than `n` only if the bits end on the way to a leaf. */
  ghost predicate Says(m: map<seq<bool>, Twig>, bits: seq<bool>, n: nat, out: seq<byte>)
    decreases |out|
  {
    if out == [] then n == 0 || (bits in m && m[bits].Inner?)
    else n > 0 && exists c :: c in m && m[c] == Twig.Leaf(out[0]) && c <= bits && Says(m, bits[|c|..], n - 1, out[1..])
  }

  /** The walk finds exactly what the bits say. */
  lemma {:induction false} WalkSays(m: map<seq<bool>, Twig>, bits: seq<bool>, n: nat, out: seq<byte>)
    requires Grown(m)
    ensures Walked(m, bits, 0, [], n) == Some(out) <==> Says(m, bits, n, out)
  {
    assert [] + bits[0..] == bits;
    SaysFrom(m, bits, 0, [], n, out);
  }

  lemma {:induction false} SaysFrom(m: map<seq<bool>, Twig>, bits: seq<bool>, t: nat, path: seq<bool>, n: nat, out: seq<byte>)
    requires Grown(m) && t <= |bits| && path in m && m[path].Inner?
    ensures Walked(m, bits, t, path, n) == Some(out) <==> Says(m, path + bits[t..], n, out)
    decreases |bits| - t
  {
    hide Grown, Says;
    var all := path + bits[t..];
    if n == 0 {
      SaysNone(m, all, out);
    } else if t == |bits| {
      assert all == path;
      SaysEnd(m, path, n, out);
    } else {
      var p := path + [bits[t]];
      assert all == p + bits[t + 1..];
      if p !in m {
        SaysNowhere(m, path, bits[t], bits[t + 1..], n, out);
      } else if m[p].Leaf? {
        SaysLeaf(m, p, bits[t + 1..], n, out);
        RootInner(m);
        if out != [] {
          assert [] + bits[t + 1..] == bits[t + 1..];
          SaysFrom(m, bits, t + 1, [], n - 1, out[1..]);
        }
        LedIs(m[p].symbol, Walked(m, bits, t + 1, [], n - 1), out);
      } else {
        SaysFrom(m, bits, t + 1, p, n, out);
      }
    }
  }

  lemma {:induction false} RootInner(m: map<seq<bool>, Twig>)
    requires Grown(m)
    ensures [] in m && m[[]].Inner?
  {
  }

  lemma {:induction false} LedIs(s: byte, rest: Option<seq<byte>>, out: seq<byte>)
    ensures Led([s], rest) == Some(out) <==> out != [] && out[0] == s && rest == Some(out[1..])
  {
    if rest.Some? { assert ([s] + rest.value)[1..] == rest.value; }
    if out != [] { assert out == [out[0]] + out[1..]; }
  }

  lemma {:induction false} SaysNone(m: map<seq<bool>, Twig>, all: seq<bool>, out: seq<byte>)
    ensures Says(m, all, 0, out) <==> out == []
  {
  }

  lemma {:induction false} BothBegin(p: seq<bool>, q: seq<bool>, all: seq<bool>)
    requires p <= all && q <= all
    ensures |p| <= |q| ==> p <= q
    ensures |q| <= |p| ==> q <= p
  {
  }

  /** A leaf at a beginning of `all` is not above, or at, an inner node on the way. */
  lemma {:induction false} LeafBelow(m: map<seq<bool>, Twig>, path: seq<bool>, all: seq<bool>, c: seq<bool>)
    requires Grown(m) && path in m && m[path].Inner? && path <= all && c in m && m[c].Leaf? && c <= all
    ensures |c| > |path| && path <= c && all[..|path| + 1] in m
  {
    BothBegin(c, path, all);
    assert all[..|path| + 1] <= c;
  }

  lemma {:induction false} SaysEnd(m: map<seq<bool>, Twig>, path: seq<bool>, n: nat, out: seq<byte>)
    requires Grown(m) && path in m && m[path].Inner? && n > 0
    ensures Says(m, path, n, out) <==> out == []
  {
    hide Grown;
    if out != [] && Says(m, path, n, out) {
      var c :| c in m && m[c] == Twig.Leaf(out[0]) && c <= path && Says(m, path[|c|..], n - 1, out[1..]);
      LeafBelow(m, path, path, c);
      assert false;
    }
  }

  lemma {:induction false} SaysNowhere(m: map<seq<bool>, Twig>, path: seq<bool>, b: bool, rest: seq<bool>, n: nat, out: seq<byte>)
    requires Grown(m) && path in m && m[path].Inner? && n > 0 && path + [b] !in m
    ensures !Says(m, path + [b] + rest, n, out)
  {
    var all := path + [b] + rest;
    assert path + [b] <= all && all[..|path| + 1] == path + [b];
    if Says(m, all, n, out) {
      if out != [] {
        var c :| c in m && m[c] == Twig.Leaf(out[0]) && c <= all && Says(m, all[|c|..], n - 1, out[1..]);
        LeafBelow(m, path, all, c);
      }
      assert false;
    }
  }

  lemma {:induction false} SaysLeaf(m: map<seq<bool>, Twig>, p: seq<bool>, rest: seq<bool>, n: nat, out: seq<byte>)
    requires Grown(m) && p in m && m[p].Leaf? && n > 0
    ensures Says(m, p + rest, n, out) <==> out != [] && out[0] == m[p].symbol && Says(m, rest, n - 1, out[1..])
  {
    var all := p + rest;
    assert p <= all && all[|p|..] == rest;
    if Says(m, all, n, out) {
      if out != [] {
        var c :| c in m && m[c] == Twig.Leaf(out[0]) && c <= all && Says(m, all[|c|..], n - 1, out[1..]);
        BothBegin(c, p, all);
        assert c == p;
      }
    }
  }

  /** The tree of nodes is such a tree. */
  lemma {:induction false} TrieGrown(at: map<seq<bool>, Node>)
    requires TreePaths(at) && !at[[]].isLeaf
    ensures Grown(Shape(at))
  {
    forall p, q | p in at && q <= p && q != p ensures q in at && !at[q].isLeaf { AboveIn(at, p, q); }
  }

  lemma {:induction false} AboveIn(at: map<seq<bool>, Node>, p: seq<bool>, q: seq<bool>)
    requires TreePaths(at) && p in at && q <= p && q != p
    ensures q in at && !at[q].isLeaf
    decreases |p|
  {
    var up := p[..|p| - 1];
    assert up in at && !at[up].isLeaf;
    if q != up { AboveIn(at, up, q); }
  }

  /** The bits of the bytes from `start` on. */
  ghost function BitsFrom(input: seq<byte>, start: nat): (bits: seq<bool>)
    requires start <= |input|
    ensures |bits| == Times8(|input| - start)
  {
    BitsOf(input[start..], Times8(|input| - start))
  }

  lemma {:induction false} BitFrom(input: seq<byte>, start: nat, i: nat, b: nat)
    requires start <= i < |input| && b < 8
    ensures Times8(i - start) + b < Times8(|input| - start)
    ensures BitsFrom(input, start)[Times8(i - start) + b] == TestBit(input[i], b)
  {
    hide TestBit, Shr, Low;
    Place(i - start, b);
    assert input[start..][i - start] == input[i];
  }
}
