/**
  The codes of huffman.c: the roots joined to one tree, and for each leaf the path from the root to it,
  collected on the way up and then reversed.
 */
module HuffmanCodes {
  import opened Bits
  import opened HuffmanBits
  import opened HuffmanLabels
  import opened HuffmanNodes

  /** huffman_code. */
  datatype Code = Code(numbits: nat, bits: seq<byte>)

  /** An entry of a SymbolEncoder. */
  datatype Slot = NoCode | Coded(code: Code)

  ghost predicate CodeIs(c: Code, path: seq<bool>) {
    c.numbits == |path| && Filled(c.bits, path)
  }

  // ---------- reverse_bits ----------

  ghost function Backwards(s: seq<bool>): (r: seq<bool>)
    ensures |r| == |s|
  {
    if |s| == 0 then [] else [s[|s| - 1]] + Backwards(s[..|s| - 1])
  }

  lemma {:induction false} BackwardsAt(s: seq<bool>, i: nat)
    requires i < |s|
    ensures Backwards(s)[i] == s[|s| - 1 - i]
  {
    if i > 0 { BackwardsAt(s[..|s| - 1], i - 1); }
  }

  lemma {:induction false} NumBytesMono(a: nat, b: nat)
    requires a <= b
    ensures NumBytes(a) <= NumBytes(b)
  {
    hide NumBytes;
    NumBytesBound(a);
    NumBytesBound(b);
  }

  /** The part of the result after `n` bits. */
  ghost predicate Turned(tmp: seq<byte>, up: seq<bool>, n: nat) {
    && n <= |up| && |tmp| == NumBytes(|up|) && NumBytes(n) <= |tmp|
    && Filled(tmp[..NumBytes(n)], Backwards(up)[..n])
    && (forall k | NumBytes(n) <= k < |tmp| :: tmp[k] == 0)
  }

  lemma {:induction false} TurnedNext(tmp: seq<byte>, up: seq<bool>, n: nat)
    requires Turned(tmp, up, n) && n < |up|
    ensures var q := Shr(n, 3);
            && q < |tmp| && SetBit(tmp[q], Low(n, 3), up[|up| - 1 - n]) < 256
            && Turned(tmp[q := SetBit(tmp[q], Low(n, 3), up[|up| - 1 - n])], up, n + 1)
  {
    hide NumBytes, Filled, SetBit, Low, Shr;
    BackwardsAt(up, n);
    NumBytesBound(n);
    NumBytesMono(n + 1, |up|);
    var before, b := tmp[..NumBytes(n)], up[|up| - 1 - n];
    FillNext(before, Backwards(up)[..n], b);
    assert Extended(before, n) == tmp[..NumBytes(n + 1)];
    var q := Shr(n, 3);
    var w := SetBit(tmp[q], Low(n, 3), b);
    assert tmp[q := w][..NumBytes(n + 1)] == tmp[..NumBytes(n + 1)][q := w];
    assert Backwards(up)[..n + 1] == Backwards(up)[..n] + [b];
  }

  method ReverseBits(bits: seq<byte>, numbits: nat, ghost up: seq<bool>) returns (r: seq<byte>)
    requires numbits == |up| && Filled(bits, up)
    ensures Filled(r, Backwards(up))
  {
    hide Filled, SetBit, Low, Shr, Turned, NumBytes;
    var tmp := new byte[NumBytes(numbits)](_ => 0);
    var curbyte := 0;
    TurnedStart(tmp[..], up);
    for curbit := 0 to numbits
      invariant Turned(tmp[..], up, curbit)
      invariant curbyte == if curbit == 0 then 0 else Shr(curbit - 1, 3)
    {
      ghost var before := tmp[..];
      var bitpos := Low(curbit, 3);
      ByteAfter(curbit);
      if curbit > 0 && bitpos == 0 { curbyte := curbyte + 1; }
      TurnedNext(before, up, curbit);
      BitsHeld(bits, up, numbits - curbit - 1);
      var w: byte := SetBit(tmp[curbyte], bitpos, GetBit(bits, numbits - curbit - 1));
      tmp[curbyte] := w;
      assert tmp[..] == before[curbyte := w];
    }
    TurnedEnd(tmp[..], up);
    r := tmp[..];
  }

  lemma {:induction false} BitsHeld(bits: seq<byte>, up: seq<bool>, i: nat)
    requires Filled(bits, up) && i < |up|
    ensures GetBit(bits, i) == up[i]
  {
  }

  lemma {:induction false} ByteAfter(n: nat)
    ensures n > 0 ==> Shr(n, 3) == Shr(n - 1, 3) + (if Low(n, 3) == 0 then 1 else 0)
    ensures n == 0 ==> Shr(n, 3) == 0
  {
    hide Shr, Low, NumBytes;
    BytesAndBits(n);
    if n > 0 {
      BytesAndBits(n - 1);
      NumBytesBound(n - 1);
    }
  }

  lemma {:induction false} TurnedStart(tmp: seq<byte>, up: seq<bool>)
    requires |tmp| == NumBytes(|up|) && forall k | 0 <= k < |tmp| :: tmp[k] == 0
    ensures Turned(tmp, up, 0)
  {
    NumBytesMono(0, |up|);
    FilledNone();
    assert tmp[..0] == [] && Backwards(up)[..0] == [];
  }

  lemma {:induction false} FilledNone()
    ensures NumBytes(0) == 0 && Filled([], [])
  {
    hide Shr, Low;
    BytesAndBits(0);
  }

  lemma {:induction false} TurnedEnd(tmp: seq<byte>, up: seq<bool>)
    requires Turned(tmp, up, |up|)
    ensures Filled(tmp, Backwards(up))
  {
    hide Filled, NumBytes;
    assert tmp[..|tmp|] == tmp && Backwards(up)[..|up|] == Backwards(up);
  }

  // ---------- new_code ----------

  /** Climbing from cell `y` to its parent: the bit comes before those collected. */
  lemma {:induction false} Climb(pool: seq<Node>, cells: seq<Cell>, n: nat, y: nat, up: seq<bool>)
    requires Forest(cells, n) && Matches(pool, cells, n) && y < |pool| && pool[y].parent != null
    ensures var u := cells[y].up;
            && y < u < |pool| && pool[y].parent == pool[u]
            && Label(cells, n, y) + Backwards(up) == Label(cells, n, u) + Backwards(up + [pool[y] == pool[u].one])
  {
    hide Backwards;
    assert UpOk(cells, n, y) && NodeIs(pool, pool[y], cells[y], y < n);
    var u := cells[y].up;
    assert NodeIs(pool, pool[u], cells[u], u < n) && Joins(cells, u) && pool[y].id == y;
    var b := cells[u].one == y;
    assert pool[cells[u].one].id == cells[u].one;
    BackwardsSnoc(Label(cells, n, u), up, b);
  }

  lemma {:induction false} BackwardsSnoc(path: seq<bool>, up: seq<bool>, b: bool)
    ensures path + [b] + Backwards(up) == path + Backwards(up + [b])
  {
    assert (up + [b])[..|up|] == up;
  }

  lemma {:induction false} Top(pool: seq<Node>, cells: seq<Cell>, n: nat, y: nat)
    requires Forest(cells, n) && Matches(pool, cells, n) && y < |pool| && pool[y].parent == null
    ensures Label(cells, n, y) == []
  {
    assert UpOk(cells, n, y) && NodeIs(pool, pool[y], cells[y], y < n);
  }

  /** new_code: the code of `leaf` is the path from the root to it. */
  method NewCode(leaf: Node, ghost pool: seq<Node>, ghost cells: seq<Cell>, ghost n: nat, ghost x: nat) returns (c: Code)
    requires Forest(cells, n) && Matches(pool, cells, n) && x < |pool| == |cells| && leaf == pool[x]
    ensures CodeIs(c, Label(cells, n, x))
  {
    hide Forest, Matches, Filled, Label, SetBit, Low, Shr, NumBytes;
    var p := leaf;
    var numbits, bits: seq<byte> := 0, [];
    ghost var y, up := x, [];
    FilledNone();
    assert Label(cells, n, x) == Label(cells, n, x) + Backwards([]);
    while p.parent != null
      invariant y < |pool| && p == pool[y] && numbits == |up| && Filled(bits, up)
      invariant Label(cells, n, x) == Label(cells, n, y) + Backwards(up)
      decreases |pool| - y
    {
      Climb(pool, cells, n, y, up);
      var parent := p.parent;
      var curBit, curByte := Low(numbits, 3), Shr(numbits, 3);
      FillNext(bits, up, p == parent.one);
      if curBit == 0 { bits := bits + [0]; }
      BitUnset(bits[curByte], curBit);
      assert bits[curByte := bits[curByte]] == bits;
      if p == parent.one { bits := bits[curByte := SetBit(bits[curByte], curBit, true)]; }
      up := up + [p == parent.one];
      numbits := numbits + 1;
      y := cells[y].up;
      p := parent;
    }
    Top(pool, cells, n, y);
    bits := ReverseBits(bits, numbits, up);
    assert [] + Backwards(up) == Backwards(up);
    c := Code(numbits, bits);
  }

  lemma {:induction false} BitUnset(v: nat, k: nat)
    ensures SetBit(v, k, false) == v
  {
  }

  // ---------- build_symbol_encoder ----------

  /** The entry for leaf `x` is its code. */
  ghost predicate LeafCoded(se: seq<Slot>, cells: seq<Cell>, n: nat, x: nat)
    requires Forest(cells, n) && x < n && |se| == MAX_SYMBOLS
  {
    se[cells[x].symbol].Coded? && CodeIs(se[cells[x].symbol].code, Label(cells, n, x))
  }

  /** From `se` to `se'`: the leaves below `top` are coded, those that were stay so, and nothing else is. */
  ghost predicate CodedBelow(se: seq<Slot>, se': seq<Slot>, cells: seq<Cell>, n: nat, top: nat) {
    && Forest(cells, n) && top < |cells| && |se| == |se'| == MAX_SYMBOLS
    && (forall x: nat | x < n :: Under(cells, n, x, top) || LeafCoded(se, cells, n, x) ==> LeafCoded(se', cells, n, x))
    && (forall s: nat {:trigger se'[s]} | s < MAX_SYMBOLS && se'[s] != se[s] :: exists x: nat :: x < n && cells[x].symbol == s)
  }

  lemma {:induction false} LeafAlone(se: seq<Slot>, cells: seq<Cell>, n: nat, top: nat, c: Code)
    requires Forest(cells, n) && top < n && |se| == MAX_SYMBOLS && CodeIs(c, Label(cells, n, top))
    ensures CodedBelow(se, se[cells[top].symbol := Coded(c)], cells, n, top)
  {
    hide CodeIs, Label;
    var se' := se[cells[top].symbol := Coded(c)];
    forall x: nat | x < n && (Under(cells, n, x, top) || LeafCoded(se, cells, n, x)) ensures LeafCoded(se', cells, n, x) {
      if Under(cells, n, x, top) { UnderLeaf(cells, n, x, top); }
      if x != top { assert cells[x].symbol != cells[top].symbol; }
    }
  }

  lemma {:induction false} BothChildren(se: seq<Slot>, se1: seq<Slot>, se2: seq<Slot>, cells: seq<Cell>, n: nat, top: nat)
    requires Forest(cells, n) && n <= top < |cells| && Joins(cells, top)
    requires CodedBelow(se, se1, cells, n, cells[top].zero) && CodedBelow(se1, se2, cells, n, cells[top].one)
    ensures CodedBelow(se, se2, cells, n, top)
  {
    hide LeafCoded, Joins, Under;
    forall x: nat | x < n && (Under(cells, n, x, top) || LeafCoded(se, cells, n, x)) ensures LeafCoded(se2, cells, n, x) {
      if Under(cells, n, x, top) { UnderChild(cells, n, x, top); }
    }
    forall s: nat | s < MAX_SYMBOLS && se2[s] != se[s] ensures exists x: nat :: x < n && cells[x].symbol == s {
      if se1[s] == se[s] { assert se2[s] != se1[s]; }
    }
  }

  /** build_symbol_encoder. */
  method BuildSymbolEncoder(subtree: Node, pSE: array<Slot>, ghost pool: seq<Node>, ghost cells: seq<Cell>, ghost n: nat, ghost top: nat)
    requires Forest(cells, n) && Matches(pool, cells, n) && top < |pool| == |cells| && subtree == pool[top] && pSE.Length == MAX_SYMBOLS
    modifies pSE
    ensures CodedBelow(old(pSE[..]), pSE[..], cells, n, top)
    decreases top
  {
    hide Forest, Matches, CodedBelow, Label, CodeIs;
    ghost var se := pSE[..];
    NodeFields(pool, cells, n, top);
    if subtree.isLeaf {
      var c := NewCode(subtree, pool, cells, n, top);
      LeafAlone(se, cells, n, top, c);
      pSE[subtree.symbol] := Coded(c);
      assert pSE[..] == se[cells[top].symbol := Coded(c)];
    } else {
      BuildSymbolEncoder(subtree.zero, pSE, pool, cells, n, cells[top].zero);
      ghost var se1 := pSE[..];
      BuildSymbolEncoder(subtree.one, pSE, pool, cells, n, cells[top].one);
      BothChildren(se, se1, pSE[..], cells, n, top);
    }
  }

  lemma {:induction false} NodeFields(pool: seq<Node>, cells: seq<Cell>, n: nat, x: nat)
    requires Forest(cells, n) && Matches(pool, cells, n) && x < |pool|
    ensures |pool| == |cells| && pool[x].isLeaf == (x < n) && n <= |cells|
    ensures x < n ==> pool[x].symbol == cells[x].symbol
    ensures x >= n ==> Joins(cells, x) && 0 <= cells[x].zero < x && 0 <= cells[x].one < x
                       && pool[x].zero == pool[cells[x].zero] && pool[x].one == pool[cells[x].one]
  {
    assert NodeIs(pool, pool[x], cells[x], x < n);
    if n <= x { assert Joins(cells, x); }
  }
}
