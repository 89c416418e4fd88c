/**
  huffman_encode_memory, huffman_decode_memory, and their counterparts for files.
 */
module HuffmanCodec {
  import opened Bits
  import opened FseSpread
  import opened HuffmanBits
  import opened HuffmanLabels
  import opened HuffmanNodes
  import opened HuffmanCodes
  import opened HuffmanBest
  import opened HuffmanBuild
  import opened HuffmanWrite
  import opened HuffmanTrie
  import opened HuffmanRead
  import opened HuffmanWalk
  import opened Errors

  // ---------- decoding ----------

  /** The input after the code table is known: its bits are the codes of the source. */
  ghost predicate Source(k: Known, at: map<seq<bool>, Node>, input: seq<byte>, start: nat, n: nat) {
    k.good ==>
      && CodesFor(k.se, k.paths, k.src) && ReadWhole(k, input, start, at) && Several(k)
      && Filled(k.data, EncBits(k.paths, k.src, |k.src|)) && n <= |k.src|
  }

  /** `out` has been decoded, and then the bits `path` of the next code; `t` bits in all. */
  ghost predicate Decoding(k: Known, n: nat, path: seq<bool>, out: seq<byte>, left: nat, t: nat) {
    k.good ==>
      && |k.paths| == MAX_SYMBOLS && n <= |k.src| && |out| + left == n && out == k.src[..|out|]
      && t == |EncBits(k.paths, k.src, |out|)| + |path|
      && (left > 0 ==> var c := k.paths[k.src[|out|]]; path <= c && |path| < |c|)
  }

  /** The next bit is that of the next code. */
  lemma {:induction false} NextBit(k: Known, n: nat, path: seq<bool>, out: seq<byte>, left: nat, t: nat)
    requires k.good && Decoding(k, n, path, out, left, t) && left > 0
    ensures t < |EncBits(k.paths, k.src, |k.src|)|
    ensures EncBits(k.paths, k.src, |k.src|)[t] == k.paths[k.src[|out|]][|path|]
  {
    hide EncBits;
    var j: nat := |out|;
    EncLonger(k.paths, k.src, j + 1, |k.src|);
    EncLast(k.paths, k.src, j + 1);
    var a, c := EncBits(k.paths, k.src, j), k.paths[k.src[j]];
    assert (a + c)[t] == c[|path|];
  }

  lemma {:induction false} PrefixIn(at: map<seq<bool>, Node>, c: seq<bool>, m: nat)
    requires TreePaths(at) && c in at && m <= |c|
    ensures c[..m] in at
    decreases |c|
  {
    if m < |c| {
      PrefixIn(at, c[..|c| - 1], m);
      assert c[..|c| - 1][..m] == c[..m];
    } else {
      assert c[..m] == c;
    }
  }

  lemma {:induction false} CodeLeaf(at: map<seq<bool>, Node>, se: seq<Slot>, paths: seq<seq<bool>>, s: nat)
    requires |se| == |paths| && HoldsCodes(at, se, paths, |se|) && s < |se| && se[s].Coded?
    ensures paths[s] in at && at[paths[s]].isLeaf
  {
  }

  /** One step down the tree, along a code: its end is the only leaf. */
  lemma {:induction false} StepDown(k: Known, at: map<seq<bool>, Node>, s: nat, path: seq<bool>, b: bool)
    requires CodesFor(k.se, k.paths, k.src) && |k.se| == |k.paths| && HoldsCodes(at, k.se, k.paths, |k.se|) && TreePaths(at)
    requires s < |k.se| && k.se[s].Coded?
    requires var c := k.paths[s]; path <= c && |path| < |c| && b == c[|path|]
    ensures path + [b] in at && path + [b] <= k.paths[s] && (at[path + [b]].isLeaf <==> path + [b] == k.paths[s])
    ensures at[path + [b]].isLeaf ==> at[path + [b]].symbol == s
  {
    hide CodesFor, TreePaths, HoldsCodes;
    var c := k.paths[s];
    CodeLeaf(at, k.se, k.paths, s);
    PrefixIn(at, c, |path| + 1);
    assert path + [b] == c[..|path| + 1];
    if at[path + [b]].isLeaf { WholeCode(k, at, s, path + [b]); }
  }

  /** The codes of a known source are in the tree, and none is empty. */
  lemma {:induction false} SourceCode(k: Known, at: map<seq<bool>, Node>, input: seq<byte>, start: nat, n: nat, i: nat)
    requires k.good && Source(k, at, input, start, n) && i < n
    ensures |k.se| == |k.paths| == MAX_SYMBOLS && n <= |k.src| && k.se[k.src[i]].Coded? && |k.paths[k.src[i]]| > 0
    ensures CodesFor(k.se, k.paths, k.src) && HoldsCodes(at, k.se, k.paths, |k.se|)
  {
    hide CodesFor, HoldsCodes, Filled, EncBits;
    CodeOf(k.se, k.paths, k.src, i);
  }

  /** One step down the tree, along the next code. */
  lemma {:induction false} StepKnown(k: Known, at: map<seq<bool>, Node>, input: seq<byte>, start: nat, n: nat,
                                     path: seq<bool>, out: seq<byte>, left: nat, t: nat, b: bool)
    requires k.good && Source(k, at, input, start, n) && TreePaths(at) && Decoding(k, n, path, out, left, t) && left > 0
    requires var c := k.paths[k.src[|out|]]; b == c[|path|]
    ensures path + [b] in at
    ensures at[path + [b]].isLeaf ==> at[path + [b]].symbol == k.src[|out|] && Decoding(k, n, [], out + [k.src[|out|]], left - 1, t + 1)
    ensures !at[path + [b]].isLeaf ==> Decoding(k, n, path + [b], out, left, t + 1)
  {
    hide EncBits, CodesFor, TreePaths, Source, HoldsCodes;
    var j: nat := |out|;
    var s := k.src[j];
    SourceCode(k, at, input, start, n, j);
    StepDown(k, at, s, path, b);
    EncLast(k.paths, k.src, j + 1);
    assert out + [s] == k.src[..j + 1];
    if left > 1 { SourceCode(k, at, input, start, n, j + 1); }
  }

  /** A leaf on the way of a code is its end. */
  lemma {:induction false} WholeCode(k: Known, at: map<seq<bool>, Node>, s: nat, p: seq<bool>)
    requires CodesFor(k.se, k.paths, k.src) && |k.se| == |k.paths| && HoldsCodes(at, k.se, k.paths, |k.se|)
    requires s < |k.se| && k.se[s].Coded? && p in at && at[p].isLeaf && p <= k.paths[s]
    ensures p == k.paths[s] && at[p].symbol == s
  {
    hide CodeIs, Occ;
  }

  /** The node for the next bit. */
  method NextNode(p: Node, b: bool, ghost at: map<seq<bool>, Node>, ghost path: seq<bool>, root: Node) returns (q: Node?)
    requires Tree(root, at) && path in at && at[path] == p && !p.isLeaf
    ensures q == Kid(at, path, b)
  {
    assert Linked(at, path, p);
    q := if b then p.one else p.zero;
  }

  /** One bit of the input: a step down, and at a leaf its symbol. Without a node to go to, `ok` is false. */
  method DecodeBit(p: Node, b: bool, root: Node, out: seq<byte>, left: nat, ghost at: map<seq<bool>, Node>, ghost k: Known,
                   ghost input: seq<byte>, ghost start: nat, ghost n: nat, ghost path: seq<bool>, ghost t: nat, ghost bits: seq<bool>)
    returns (ok: bool, p': Node, out': seq<byte>, left': nat, ghost path': seq<bool>)
    requires t < |bits| && bits[t] == b
    requires Tree(root, at) && TreePaths(at) && path in at && at[path] == p && !p.isLeaf && left > 0
    requires Source(k, at, input, start, n) && Decoding(k, n, path, out, left, t)
    requires k.good && t < |EncBits(k.paths, k.src, |k.src|)| ==> b == EncBits(k.paths, k.src, |k.src|)[t]
    requires k.good ==> |k.paths| == MAX_SYMBOLS
    ensures k.good ==> ok
    ensures |out| <= |out'| && |out'| + left' == |out| + left
    ensures ok ==> path' in at && at[path'] == p' && !p'.isLeaf && Decoding(k, n, path', out', left', t + 1)
    ensures Led(out, Walked(Shape(at), bits, t, path, left)) == if ok then Led(out', Walked(Shape(at), bits, t + 1, path', left')) else None
  {
    hide Tree, TreePaths, Source, Kid, EncBits, Decoding, Walked, Shape, Led;
    WalkBit(at, bits, t, path, left, out);
    NextBitOf(k, at, input, start, n, path, out, left, t, b);
    p', out', left', path' := p, out, left, path;
    var q := NextNode(p, b, at, path, root);
    KidIs(at, path, b);
    if q == null { return false, p', out', left', path'; }
    p', path', ok := q, path + [b], true;
    if p'.isLeaf {
      out', left' := out + [p'.symbol], left - 1;
      RootOf(root, at);
      p', path' := root, [];
    }
  }

  /** One step of the walk. */
  lemma {:induction false} WalkBit(at: map<seq<bool>, Node>, bits: seq<bool>, t: nat, path: seq<bool>, left: nat, out: seq<byte>)
    requires t < |bits| && left > 0
    ensures var m, p := Shape(at), path + [bits[t]];
            && (p !in at ==> Led(out, Walked(m, bits, t, path, left)) == None)
            && (p in at && at[p].isLeaf ==>
                  Led(out, Walked(m, bits, t, path, left)) == Led(out + [at[p].symbol], Walked(m, bits, t + 1, [], left - 1)))
            && (p in at && !at[p].isLeaf ==> Led(out, Walked(m, bits, t, path, left)) == Led(out, Walked(m, bits, t + 1, p, left)))
  {
    var p := path + [bits[t]];
    if p in at && at[p].isLeaf {
      var s := at[p].symbol;
      match Walked(Shape(at), bits, t + 1, [], left - 1)
      case None =>
      case Some(rest) => assert out + ([s] + rest) == out + [s] + rest;
    }
  }

  lemma {:induction false} WalkEnds(m: map<seq<bool>, Twig>, bits: seq<bool>, t: nat, path: seq<bool>, left: nat, out: seq<byte>)
    requires t <= |bits| && (left == 0 || t == |bits|)
    ensures Led(out, Walked(m, bits, t, path, left)) == Some(out)
  {
    assert out + [] == out;
  }

  /** For a known source, there is a node for the next bit, and at a leaf its symbol is the next one; without one, nothing is claimed. */
  lemma {:induction false} NextBitOf(k: Known, at: map<seq<bool>, Node>, input: seq<byte>, start: nat, n: nat,
                                     path: seq<bool>, out: seq<byte>, left: nat, t: nat, b: bool)
    requires Source(k, at, input, start, n) && TreePaths(at) && Decoding(k, n, path, out, left, t) && left > 0
    requires k.good && t < |EncBits(k.paths, k.src, |k.src|)| ==> b == EncBits(k.paths, k.src, |k.src|)[t]
    requires k.good ==> |k.paths| == MAX_SYMBOLS
    ensures k.good ==> path + [b] in at
    ensures path + [b] in at ==>
              if at[path + [b]].isLeaf then Decoding(k, n, [], out + [at[path + [b]].symbol], left - 1, t + 1)
              else Decoding(k, n, path + [b], out, left, t + 1)
  {
    hide Source, TreePaths, EncBits;
    if k.good {
      NextBit(k, n, path, out, left, t);
      KnownHere(k, n, path, out, left, t, b);
      StepKnown(k, at, input, start, n, path, out, left, t, b);
    }
  }

  lemma {:induction false} KnownHere(k: Known, n: nat, path: seq<bool>, out: seq<byte>, left: nat, t: nat, b: bool)
    requires k.good && Decoding(k, n, path, out, left, t) && left > 0
    ensures |k.paths| == MAX_SYMBOLS && |out| < |k.src| && |path| < |k.paths[k.src[|out|]]|
  {
    hide EncBits;
  }

  lemma {:induction false} RootOf(root: Node, at: map<seq<bool>, Node>)
    requires Tree(root, at)
    ensures [] in at && at[[]] == root && !root.isLeaf
  {
  }

  /** The decoder is between two bits, after `t` of them. */
  ghost predicate Between(k: Known, n: nat, at: map<seq<bool>, Node>, path: seq<bool>, p: Node, out: seq<byte>, left: nat, t: nat) {
    path in at && at[path] == p && !p.isLeaf && |out| + left == n && Decoding(k, n, path, out, left, t)
  }

  lemma {:induction false} DecodingStarts(root: Node, at: map<seq<bool>, Node>, k: Known, input: seq<byte>, start: nat, n: nat)
    requires Tree(root, at) && Source(k, at, input, start, n)
    ensures TreePaths(at) && Between(k, n, at, [], root, [], n, 0)
  {
    hide Linked, TreePaths, Filled;
    if k.good && n > 0 {
      SourceCode(k, at, input, start, n, 0);
      hide CodesFor, HoldsCodes;
    }
  }

  /** Bit `b` of byte `i` is the next bit of the codes. */
  lemma {:induction false} BitOfData(k: Known, at: map<seq<bool>, Node>, input: seq<byte>, start: nat, n: nat, i: nat, b: nat)
    requires k.good && Source(k, at, input, start, n) && start <= i < |input| && b < 8
    ensures |k.paths| == MAX_SYMBOLS
    ensures var t := Times8(i - start) + b; var bits := EncBits(k.paths, k.src, |k.src|);
            t < |bits| ==> TestBit(input[i], b) == bits[t]
  {
    hide CodesFor, HoldsCodes, EncBits, Low, Shr, TestBit, NumBytes;
    Place(i - start, b);
    assert input[start..][i - start] == input[i];
    var t := Times8(i - start) + b;
    if t < |EncBits(k.paths, k.src, |k.src|)| { BitsHeld(k.data, EncBits(k.paths, k.src, |k.src|), t); }
  }

  /** After the last byte nothing is left to decode. */
  lemma {:induction false} DataEnds(k: Known, at: map<seq<bool>, Node>, input: seq<byte>, start: nat, n: nat,
                                    path: seq<bool>, p: Node, out: seq<byte>, left: nat)
    requires k.good && Source(k, at, input, start, n) && start <= |input|
    requires left > 0 ==> Between(k, n, at, path, p, out, left, Times8(|input| - start))
    ensures left == 0
  {
    hide CodesFor, HoldsCodes, EncBits, NumBytes;
    assert |input[start..]| == |input| - start;
    BytesNeeded(k.data, EncBits(k.paths, k.src, |k.src|));
    if left > 0 { NextBit(k, n, path, out, left, Times8(|input| - start)); }
  }

  /** Nothing left to decode: the output is the source. */
  lemma {:induction false} DecodedAll(k: Known, n: nat, path: seq<bool>, out: seq<byte>, t: nat)
    requires k.good && Decoding(k, n, path, out, 0, t)
    ensures n <= |k.src| && out == k.src[..n]
  {
  }

  /** The walk that was at bit `t0` is at bit `t` with the same prospects; it has failed if not `ok`. */
  ghost predicate StillLeads(at: map<seq<bool>, Node>, bits: seq<bool>, t0: nat, path0: seq<bool>, left0: nat, out0: seq<byte>,
                             ok: bool, t: nat, path: seq<bool>, left: nat, out: seq<byte>) {
    && t0 <= |bits|
    && (ok ==> t <= |bits|)
    && Led(out0, Walked(Shape(at), bits, t0, path0, left0)) == if ok then Led(out, Walked(Shape(at), bits, t, path, left)) else None
  }

  /** The bits of one byte, the least significant first, as far as symbols are left. */
  method DecodeByte(byte: byte, i: nat, p0: Node, root: Node, out0: seq<byte>, left0: nat, ghost at: map<seq<bool>, Node>, ghost k: Known,
                    ghost input: seq<byte>, ghost start: nat, ghost n: nat, ghost path0: seq<bool>)
    returns (ok: bool, p: Node, out: seq<byte>, left: nat, ghost path: seq<bool>, ghost t: nat)
    requires Tree(root, at) && TreePaths(at) && Source(k, at, input, start, n) && start <= i < |input| && input[i] == byte
    requires Between(k, n, at, path0, p0, out0, left0, Times8(i - start))
    ensures |out| + left == n && (k.good ==> ok)
    ensures ok ==> Between(k, n, at, path, p, out, left, t) && (left > 0 ==> t == Times8(i + 1 - start)) && t <= Times8(i + 1 - start)
    ensures StillLeads(at, BitsFrom(input, start), Times8(i - start), path0, left0, out0, ok, t, path, left, out)
  {
    hide Tree, TreePaths, Source, Decoding, EncBits, TestBit, Walked, Shape, Led, BitsFrom;
    ghost var bits := BitsFrom(input, start);
    ok, p, out, left, path, t := true, p0, out0, left0, path0, Times8(i - start);
    var bit := 0;
    while left > 0 && bit < 8
      invariant bit <= 8 && t == Times8(i - start) + bit && Between(k, n, at, path, p, out, left, t)
      invariant StillLeads(at, bits, Times8(i - start), path0, left0, out0, ok, t, path, left, out) && ok
      decreases 8 - bit
    {
      BitFrom(input, start, i, bit);
      if k.good { BitOfData(k, at, input, start, n, i, bit); }
      ok, p, out, left, path := DecodeBit(p, TestBit(byte, bit), root, out, left, at, k, input, start, n, path, t, bits);
      if !ok { return; }
      bit := bit + 1;
      t := t + 1;
    }
  }

  lemma {:induction false} LedNothing(r: Option<seq<byte>>)
    ensures Led([], r) == r
  {
    match r
    case None =>
    case Some(s) => assert [] + s == s;
  }

  lemma {:induction false} TreeGrown(root: Node, at: map<seq<bool>, Node>)
    requires Tree(root, at)
    ensures Grown(Shape(at))
  {
    hide TreePaths, Linked, Grown, Shape;
    TrieGrown(at);
  }

  /** The decoding loop: the walk through the tree, for any tree and bits; `ok` is false if the bits lead to no node. */
  method DecodeBits(bufin: seq<byte>, start: nat, root: Node, dataCount: nat, ghost at: map<seq<bool>, Node>, ghost k: Known)
    returns (ok: bool, out: seq<byte>)
    requires Tree(root, at) && start <= |bufin| && Source(k, at, bufin, start, dataCount)
    ensures |out| <= dataCount
    ensures k.good ==> ok && dataCount <= |k.src| && out == k.src[..dataCount]
    ensures Grown(Shape(at))
    ensures Walked(Shape(at), BitsFrom(bufin, start), 0, [], dataCount) == if ok then Some(out) else None
  {
    hide Tree, TreePaths, Source, Decoding, Walked, Shape, Led, BitsFrom, Grown;
    TreeGrown(root, at);
    ghost var bits := BitsFrom(bufin, start);
    LedNothing(Walked(Shape(at), bits, 0, [], dataCount));
    DecodingStarts(root, at, k, bufin, start, dataCount);
    var p, left, i := root, dataCount, start;
    ghost var path: seq<bool>, t: nat := [], 0;
    ok, out := true, [];
    while i < |bufin| && left > 0
      invariant start <= i <= |bufin| && Between(k, dataCount, at, path, p, out, left, t)
      invariant (left > 0 ==> t == Times8(i - start)) && t <= Times8(i - start)
      invariant StillLeads(at, bits, 0, [], dataCount, [], ok, t, path, left, out) && ok
    {
      ok, p, out, left, path, t := DecodeByte(bufin[i], i, p, root, out, left, at, k, bufin, start, dataCount, path);
      if !ok { return; }
      i := i + 1;
    }
    WalkEnds(Shape(at), bits, t, path, left, out);
    if k.good {
      DataEnds(k, at, bufin, start, dataCount, path, p, out, left);
      DecodedAll(k, dataCount, path, out, t);
    }
  }

  // ---------- the size of what is written ----------

  /** Bytes for the largest code table. */
  const TABLE_BYTES := 8712

  /** What is written, besides the table, is no more than any prefix code would take. */
  ghost predicate Compact(out: seq<byte>, src: seq<byte>) {
    && |out| <= TABLE_BYTES + |src|
    && forall lens: seq<nat>, D: nat | CodeFits(lens, src, D) :: |out| <= TABLE_BYTES + NumBytes(CodeLength(lens, src, |src|))
  }

  lemma {:induction false} EntriesSize(se: seq<Slot>, paths: seq<seq<bool>>, src: seq<byte>, s: nat)
    requires CodesFor(se, paths, src) && s <= |se| == MAX_SYMBOLS
    ensures |EntriesFrom(se, s)| <= 34 * (MAX_SYMBOLS - s)
    decreases |se| - s
  {
    hide CodesFor, NumBytes, LowByte, Filled;
    if s < |se| {
      EntriesSize(se, paths, src, s + 1);
      if se[s].Coded? {
        PathLength(se, paths, src, s);
        BitsAre(se[s].code.bits, paths[s]);
        NumBytesBound(|paths[s]|);
      }
    }
  }

  lemma {:induction false} EightBytes(n: nat)
    ensures NumBytes(Times8(n)) == n
  {
    hide NumBytes;
    NumBytesBound(Times8(n));
  }

  lemma {:induction false} IsCompact(k: Known, out: seq<byte>)
    requires k.good && WrittenFor(k, out) && ShortestFor(PathLengths(k.paths), k.src)
    ensures Compact(out, k.src)
  {
    hide CodesFor, EntriesFrom, CountFrom, ToNet, NumBytes, CodeLength, EncBits, CodeFits, Low, UsedKraft, Carries;
    EntriesSize(k.se, k.paths, k.src, 0);
    EncLength(k.paths, k.src, |k.src|);
    var best := CodeLength(PathLengths(k.paths), k.src, |k.src|);
    assert |out| <= TABLE_BYTES + NumBytes(best);
    AtMostEight(PathLengths(k.paths), k.src);
    NumBytesMono(best, Times8(|k.src|));
    EightBytes(|k.src|);
    forall lens: seq<nat>, D: nat | CodeFits(lens, k.src, D)
      ensures |lens| == MAX_SYMBOLS && |out| <= TABLE_BYTES + NumBytes(CodeLength(lens, k.src, |k.src|)) {
      FitsSize(lens, k.src, D);
      NumBytesMono(best, CodeLength(lens, k.src, |k.src|));
    }
  }

  lemma {:induction false} FitsSize(lens: seq<nat>, src: seq<byte>, D: nat)
    requires CodeFits(lens, src, D)
    ensures |lens| == MAX_SYMBOLS
  {
    hide Occ, UsedKraft;
  }

  // ---------- memory ----------

  /** huffman_encode_memory. */
  method EncodeMemory(bufin: seq<byte>) returns (bufout: seq<byte>, ghost k: Known)
    ensures k.good && k.src == bufin && WrittenFor(k, bufout) && Compact(bufout, bufin)
  {
    hide CodesFor, Indexed, Counts, Matches, Listed, BufCache.Contents, TableBytes, EncBits, Filled, Low, Compact, ShortestFor, PathLengths;
    var cache := new BufCache(CACHE_SIZE);
    var pSF, symbolCount;
    ghost var pool, cells;
    pSF, symbolCount, pool, cells := GetFrequencies(bufin);
    var pSE;
    ghost var paths;
    pSE, paths := CalculateCodes(pSF, bufin, pool, cells);
    CodeSizes(pSE[..], paths, bufin);
    WriteTableToMemory(cache, pSE, symbolCount);
    ghost var data := MemoryEncode(cache, bufin, pSE, paths);
    cache.Flush();
    bufout := cache.bufout;
    k := Known(true, pSE[..], paths, bufin, data);
    assert [] + TableBytes(pSE[..], symbolCount) == TableBytes(pSE[..], symbolCount);
    IsCompact(k, bufout);
  }

  lemma {:induction false} CodeSizes(se: seq<Slot>, paths: seq<seq<bool>>, src: seq<byte>)
    requires CodesFor(se, paths, src)
    ensures |se| == |paths| == MAX_SYMBOLS
  {
    hide CodeIs, Occ;
  }

  /** The decoder's loop will see the codes of the source. */
  lemma {:induction false} SourceReady(k: Known, input: seq<byte>, start: nat, at: map<seq<bool>, Node>)
    requires k.good && WrittenFor(k, input) && TwoSymbols(k.src) && ReadWhole(k, input, start, at)
    ensures Source(k, at, input, start, Low(|k.src|, 32))
  {
    hide CodesFor, HoldsCodes, Filled, EncBits, TableBytes, Low, Shr, TwoSymbols;
    SeveralCodes(k, input);
    Split(|k.src|, 32);
  }

  lemma {:induction false} SourceUnknown(k: Known, input: seq<byte>, start: nat, n: nat, at: map<seq<bool>, Node>)
    requires !k.good
    ensures Source(k, at, input, start, n)
  {
  }

  /** The part of the source that the 32-bit number of symbols in the table counts. */
  function Counted(src: seq<byte>): seq<byte> {
    LowIsLess(|src|);
    src[..Low(|src|, 32)]
  }

  /** What huffman_decode_memory makes of any bytes. */
  ghost function MemoryDecoded(input: seq<byte>): Outcome<seq<byte>> {
    match MemTable(input)
    case Refused => Refused
    case Undefined => Undefined
    case Done((index, n, m)) =>
      match Walked(m, BitsFrom(input, index), 0, [], n) { case Some(out) => Done(out) case None => Undefined }
  }

  /**
    huffman_decode_memory, for any bytes. What it makes of an encoded source: the source back, up to its length modulo
    2^32, if that has two different bytes, and an error if not.
   */
  method DecodeMemory(bufin: seq<byte>, ghost k: Known) returns (r: Outcome<seq<byte>>)
    requires WrittenFor(k, bufin)
    ensures r == MemoryDecoded(bufin)
    ensures k.good ==> r == if TwoSymbols(k.src) then Done(Counted(k.src)) else Refused
  {
    hide Tree, WrittenFor, ReadWhole, Source, TwoSymbols, Low, MemTable, Walked, BitsFrom, Shape, Grown;
    ghost var good := k.good && TwoSymbols(k.src);
    var t, dataCount, root;
    ghost var at;
    t, dataCount, root, at := ReadTableFromMemory(bufin, k);
    match t
    case Refused => return Refused;
    case Undefined => return Undefined;
    case Done(start) =>
      if good { SourceReady(k, bufin, start, at); } else { SourceUnknown(k, bufin, start, dataCount, at); }
      LowIsLess(|k.src|);
      var ok, out := DecodeBits(bufin, start, root, dataCount, at, k);
      r := if ok then Done(out) else Undefined;
  }

  lemma {:induction false} LowIsLess(n: nat)
    ensures Low(n, 32) <= n && (n < 0x1_0000_0000 ==> Low(n, 32) == n)
  {
    hide Low, Shr, Shl, Pow2;
    Split(n, 32);
    WordBound(4);
    if n < 0x1_0000_0000 { SmallWord(n); }
  }

  lemma {:induction false} SmallWord(n: nat)
    requires n < 0x1_0000_0000
    ensures Low(n, 32) == n
  {
    hide Pow2, Low, Shl;
    SmallPowers();
    Pow2IsShl(8, 8);
    ShlByte(256);
    Pow2IsShl(16, 8);
    ShlByte(0x1_0000);
    Pow2IsShl(24, 8);
    ShlByte(0x100_0000);
    LowSmall(n, 32);
  }

  /**
    In memory, a source comes back exactly if it has two different bytes; otherwise the decoder returns an
    error. Besides the table, no prefix code takes fewer bytes.
   */
  method MemoryRoundTrip(src: seq<byte>) returns (bufout: seq<byte>, r: Outcome<seq<byte>>)
    requires |src| < 0x1_0000_0000
    ensures r == (if TwoSymbols(src) then Done(src) else Refused) && Compact(bufout, src)
  {
    hide Compact, WrittenFor, TwoSymbols, Low;
    ghost var k;
    bufout, k := EncodeMemory(src);
    r := DecodeMemory(bufout, k);
    LowIsLess(|src|);
    assert src[..|src|] == src;
  }

  // ---------- files ----------

  /** huffman_encode_file, on the bytes of the file. */
  method EncodeFile(src: seq<byte>) returns (out: seq<byte>, ghost k: Known)
    ensures k.good && k.src == src && WrittenFor(k, out) && Compact(out, src)
  {
    hide CodesFor, Indexed, Counts, Matches, Listed, TableBytes, EncBits, Filled, Low, Compact, ShortestFor, PathLengths;
    var pSF, symbolCount;
    ghost var pool, cells;
    pSF, symbolCount, pool, cells := GetFrequencies(src);
    var pSE;
    ghost var paths;
    pSE, paths := CalculateCodes(pSF, src, pool, cells);
    CodeSizes(pSE[..], paths, src);
    out := WriteTable(pSE, symbolCount);
    var data := FileEncode(src, pSE, paths);
    out := out + data;
    k := Known(true, pSE[..], paths, src, data);
    IsCompact(k, out);
  }

  /** All bytes of a source without two different ones are alike. */
  lemma {:induction false} AllAlike(src: seq<byte>, n: nat)
    requires !TwoSymbols(src) && 0 < |src| && n <= |src|
    ensures src[..n] == seq(n, _ => src[0])
  {
    hide TwoSymbols;
    forall i: nat | i < n ensures src[i] == src[0] { if src[i] != src[0] { TwoFrom(src, 0, i); } }
  }

  /** What huffman_decode_file makes of any bytes. */
  ghost function FileDecoded(input: seq<byte>): Outcome<seq<byte>> {
    match FileTable(input)
    case Done((index, n, Nothing)) => Done([])
    case Done((index, n, OneSymbol(s))) => Done(seq(n, _ => s))
    case Done((index, n, Codes(m))) =>
      match Walked(m, BitsFrom(input, index), 0, [], n) { case Some(out) => Done(out) case None => Refused }
    case _ => Refused
  }

  /**
    huffman_decode_file, for any bytes: it decodes or returns an error. An encoded source comes back up to its
    length modulo 2^32.
   */
  method DecodeFile(input: seq<byte>, ghost k: Known) returns (r: Outcome<seq<byte>>)
    requires WrittenFor(k, input)
    ensures !r.Undefined? && r == FileDecoded(input)
    ensures k.good ==> r == Done(Counted(k.src))
  {
    hide Tree, WrittenFor, ReadWhole, Source, TwoSymbols, Low, FileTable, Walked, BitsFrom, Shape, Grown;
    LowIsLess(|k.src|);
    var t, dataCount, root;
    ghost var at;
    t, dataCount, root, at := ReadTable(input, k);
    if t.Refused? { return Refused; }
    var start := t.value;
    if root == null { return Done([]); }
    if root.isLeaf {
      if k.good { AllAlike(k.src, dataCount); }
      return Done(seq(dataCount, _ => root.symbol));
    }
    if k.good { SourceReady(k, input, start, at); } else { SourceUnknown(k, input, start, dataCount, at); }
    var ok, out := DecodeBits(input, start, root, dataCount, at, k);
    r := if ok then Done(out) else Refused;
  }

  /**
    Every file comes back, up to its length modulo 2^32: the empty one, and one with a single byte value,
    included. Besides the table, no prefix code takes fewer bytes.
   */
  method FileRoundTrip(src: seq<byte>) returns (out: seq<byte>, r: Outcome<seq<byte>>)
    ensures r == Done(Counted(src))
    ensures (r == Done(src) <==> |src| < 0x1_0000_0000) && Compact(out, src)
  {
    hide Compact, WrittenFor, TwoSymbols, Low;
    ghost var k;
    out, k := EncodeFile(src);
    r := DecodeFile(out, k);
    LowIsLess(|src|);
    LowBound(|src|);
    assert src[..|src|] == src;
  }

  lemma {:induction false} LowBound(n: nat)
    ensures Low(n, 32) < 0x1_0000_0000
  {
    hide Pow2;
    hide Low, Shr, Shl;
    Split(n, 32);
    SmallPowers();
    Pow2IsShl(8, 8);
    Pow2IsShl(16, 8);
    Pow2IsShl(24, 8);
    ShlByte(256);
    ShlByte(0x1_0000);
    ShlByte(0x100_0000);
  }
}
