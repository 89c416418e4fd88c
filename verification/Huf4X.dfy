/**
  The four-stream form of Huff0: the source in four segments, each its own stream, joined by a jump table of
  three 16-bit sizes.
 */
module Huf4X {
  import opened Bits
  import opened BitStream
  import opened Errors
  import opened HufHeight
  import opened HufCode
  import opened HufX1
  import opened HufWalk
  import opened HufStream

  const HUF_BLOCKSIZE_MAX := 0x2_0000

  /** Size of the first three segments: (n + 3) / 4. */
  function Quarter(n: nat): nat {
    Half(Half(n + 3))
  }

  /** Start of the last segment. */
  function Tail(n: nat): nat {
    Quarter(n) + Quarter(n) + Quarter(n)
  }

  lemma {:induction false} QuarterBounds(n: nat)
    ensures var g := Quarter(n); n <= g + g + g + g <= n + 3
    ensures n >= 12 ==> Quarter(n) + Quarter(n) + Quarter(n) < n
    ensures n <= HUF_BLOCKSIZE_MAX ==> Quarter(n) <= 0x8000
  {
  }

  /** How many symbols four segments take: the whole output, but three segments at least. */
  function FourRoom(n: nat): nat {
    if n < Tail(n) then Tail(n) else n
  }

  /** Only outputs of 1, 2 and 5 symbols cannot hold three segments; then they take one or two symbols more. */
  lemma {:induction false} FourRoomIs(n: nat)
    ensures n < Tail(n) <==> n == 1 || n == 2 || n == 5
    ensures n <= FourRoom(n) <= n + 2 && Tail(FourRoom(n)) <= FourRoom(n)
    ensures Quarter(FourRoom(n)) == Quarter(n) && SegmentEnds(n)[4 := FourRoom(n)] == SegmentEnds(FourRoom(n))
  {
    hide Half;
    HalvesOfSmall();
    QuarterOf(n);
    if n >= 6 { QuarterOf(FourRoom(n)); }
  }

  lemma {:induction false} QuarterOf(n: nat)
    ensures n <= Quarter(n) + Quarter(n) + Quarter(n) + Quarter(n) <= n + 3
  {
    hide Half;
  }

  lemma {:induction false} HalvesOfSmall()
    ensures Quarter(1) == 1 && Quarter(2) == 1 && Quarter(3) == 1 && Quarter(5) == 2 && Quarter(6) == 2
  {
  }

  ghost function SegmentBits(lens: seq<nat>, M: nat, seg: seq<nat>): BitString {
    CodeBits(lens, M, seg, 0)
  }

  /** `c` is the closed stream of the code of `seg`. */
  ghost predicate StreamOf(c: seq<byte>, lens: seq<nat>, M: nat, seg: seq<nat>) {
    Represents(c, SegmentBits(lens, M, seg).val, SegmentBits(lens, M, seg).len)
  }

  ghost function SegmentBytes(lens: seq<nat>, M: nat, seg: seq<nat>): nat {
    Shr(SegmentBits(lens, M, seg).len, 3) + 1
  }

  lemma {:induction false} StreamSize(c: seq<byte>, lens: seq<nat>, M: nat, seg: seq<nat>)
    requires StreamOf(c, lens, M, seg)
    ensures |c| == SegmentBytes(lens, M, seg)
  {
    hide CodeBits, LE, Shr, Pow2;
    BytesAndBits(SegmentBits(lens, M, seg).len);
  }

  /** The jump table and the first three streams. */
  ghost function FirstThree(lens: seq<nat>, M: nat, src: seq<nat>): nat
    requires Tail(|src|) <= |src|
  {
    var g := Quarter(|src|);
    6 + SegmentBytes(lens, M, src[0..g]) + SegmentBytes(lens, M, src[g..g + g]) + SegmentBytes(lens, M, src[g + g..g + g + g])
  }

  /** The last stream has room after the others; so they had room, too. */
  ghost predicate FourFit(lens: seq<nat>, M: nat, src: seq<nat>, dstSize: nat) {
    && 12 <= |src| && Tail(|src|) <= |src| && FirstThree(lens, M, src) <= dstSize
    && RoomFor(SegmentBits(lens, M, src[Tail(|src|)..|src|]).len, dstSize - FirstThree(lens, M, src))
  }

  lemma {:induction false} EarlierFit(lens: seq<nat>, M: nat, seg: seq<nat>, n: nat)
    requires SegmentBytes(lens, M, seg) + 9 <= n
    ensures RoomFor(SegmentBits(lens, M, seg).len, n)
  {
    hide CodeBits, Shr;
    BytesAndBits(SegmentBits(lens, M, seg).len);
  }

  /** The jump table and the four streams of the source. */
  ghost predicate FourStreams(c: seq<byte>, lens: seq<nat>, M: nat, src: seq<nat>) {
    var g := Quarter(|src|);
    && g + g + g <= |src| && 6 <= |c|
    && (var l1, l2, l3 := LE(c[0..2]), LE(c[2..4]), LE(c[4..6]);
        && 6 + l1 + l2 + l3 <= |c|
        && StreamOf(c[6..6 + l1], lens, M, src[..g])
        && StreamOf(c[6 + l1..6 + l1 + l2], lens, M, src[g..g + g])
        && StreamOf(c[6 + l1 + l2..6 + l1 + l2 + l3], lens, M, src[g + g..g + g + g])
        && StreamOf(c[6 + l1 + l2 + l3..], lens, M, src[g + g + g..]))
  }

  // ---------- HUF_compress4X ----------

  /** A segment of a legal block fits the 16-bit jump table. */
  lemma {:induction false} SegmentSize(c: seq<byte>, lens: seq<nat>, M: nat, seg: seq<nat>)
    requires FullCode(lens, M) && M <= HUF_TABLELOG_MAX && SourceCoded(lens, seg) && |seg| <= 0x8000
    requires StreamOf(c, lens, M, seg)
    ensures 0 < |c| <= 0xFFFF
  {
    CodeBitsLength(lens, M, seg, 0);
  }

  /** The stream of `seg` is at `op`, and its size at `jump`. */
  ghost predicate SegmentAt(a: seq<byte>, jump: nat, op: nat, cSize: nat, lens: seq<nat>, M: nat, seg: seq<nat>) {
    jump + 2 <= op && op + cSize <= |a| && StreamOf(a[op..op + cSize], lens, M, seg) && LE(a[jump..jump + 2]) == cSize
  }

  /** Bytes outside [op, oend) and the two at `jump` are as before. */
  ghost predicate Kept(a: seq<byte>, a': seq<byte>, jump: nat, op: nat, oend: nat) {
    |a| == |a'| && forall k | 0 <= k < |a| && !(op <= k < oend) && !(jump <= k < jump + 2) :: a'[k] == a[k]
  }

  /** Bytes outside [start, oend) are as before. */
  ghost predicate Framed(a: seq<byte>, a': seq<byte>, start: nat, oend: nat) {
    |a| == |a'| && forall k | 0 <= k < |a| && !(start <= k < oend) :: a'[k] == a[k]
  }

  lemma {:induction false} FramedSame(a: seq<byte>, start: nat, oend: nat)
    ensures Framed(a, a, start, oend)
  {
  }

  lemma {:induction false} FramedStep(a0: seq<byte>, a: seq<byte>, a': seq<byte>, start: nat, jump: nat, op: nat, oend: nat)
    requires Framed(a0, a, start, oend) && Kept(a, a', jump, op, oend) && start <= jump && jump + 2 <= oend && start <= op
    ensures Framed(a0, a', start, oend)
  {
  }

  lemma {:induction false} SegmentKept(a: seq<byte>, a': seq<byte>, jump: nat, op: nat, cSize: nat, lens: seq<nat>, M: nat, seg: seq<nat>,
                                       jump': nat, op': nat, oend: nat)
    requires SegmentAt(a, jump, op, cSize, lens, M, seg) && Kept(a, a', jump', op', oend)
    requires jump + 2 <= jump' && op + cSize <= op' && (jump' + 2 <= op || op' == jump' <= oend - 2)
    ensures SegmentAt(a', jump, op, cSize, lens, M, seg)
  {
    hide StreamOf, LE;
    assert a'[op..op + cSize] == a[op..op + cSize] && a'[jump..jump + 2] == a[jump..jump + 2];
  }

  /** One of the first three segments: its stream at `op`, its size at `jump`. */
  method CompressSegment(dst: array<byte>, jump: nat, op: nat, oend: nat, seg: seq<nat>, table: seq<CElt>, ghost lens: seq<nat>, ghost M: nat)
    returns (cSize: nat)
    requires jump + 2 <= op <= oend <= dst.Length && |seg| <= 0x8000
    requires FullCode(lens, M) && M <= HUF_TABLELOG_MAX && CodeTable(table, lens, M) && SourceCoded(lens, seg)
    modifies dst
    ensures op + cSize <= oend
    ensures cSize == if RoomFor(SegmentBits(lens, M, seg).len, oend - op) then SegmentBytes(lens, M, seg) else 0
    ensures cSize != 0 ==> SegmentAt(dst[..], jump, op, cSize, lens, M, seg)
    ensures Kept(old(dst[..]), dst[..], jump, op, oend)
  {
    hide FullCode, CodeTable, SourceCoded, CodeBits, LE, ToLE, Represents;
    cSize := Compress1X(dst, op, oend - op, seg, table, lens, M);
    if cSize == 0 { return; }
    ghost var c := dst[op..op + cSize];
    SegmentSize(c, lens, M, seg);
    StreamSize(c, lens, M, seg);
    var size := ToLE(cSize, 2);
    dst[jump], dst[jump + 1] := size[0], size[1];
    assert dst[jump..jump + 2] == size;
    assert dst[op..op + cSize] == c;
    TwoBytes(cSize);
    assert dst[..][op..op + cSize] == c && dst[..][jump..jump + 2] == size;
  }

  lemma {:induction false} TwoBytes(x: nat)
    requires x <= 0xFFFF
    ensures LE(ToLE(x, 2)) == x
  {
    LEToLE(x, 2);
    SmallPowers();
    Pow2IsShl(8, 8);
    ShlByte(256);
    LowSmall(x, 16);
  }

  lemma {:induction false} SegmentCoded(lens: seq<nat>, src: seq<nat>, from: nat, to: nat)
    requires SourceCoded(lens, src) && from <= to <= |src|
    ensures SourceCoded(lens, src[from..to])
  {
  }

  lemma {:induction false} SliceOfSlice(a: seq<byte>, start: nat, n: nat, p: nat, q: nat)
    requires start + n <= |a| && p <= q <= n
    ensures a[start..start + n][p..q] == a[start + p..start + q]
  {
    var w := a[start..start + n];
    forall k | 0 <= k < q - p ensures w[p..q][k] == a[start + p..start + q][k] {
      assert w[p..q][k] == w[p + k] == a[start + p + k];
    }
  }

  /** The first three segments are in place. */
  ghost predicate ThreeAt(a: seq<byte>, start: nat, op: nat, lens: seq<nat>, M: nat, src: seq<nat>, c1: nat, c2: nat, c3: nat) {
    var g, o := Quarter(|src|), start + 6;
    && g + g + g <= |src| && op == o + c1 + c2 + c3
    && SegmentAt(a, start, o, c1, lens, M, src[0..g])
    && SegmentAt(a, start + 2, o + c1, c2, lens, M, src[g..g + g])
    && SegmentAt(a, start + 4, o + c1 + c2, c3, lens, M, src[g + g..g + g + g])
  }

  /** The pieces of the block, in the places the jump table gives. */
  lemma {:induction false} Assembled(a: seq<byte>, start: nat, op: nat, lens: seq<nat>, M: nat, src: seq<nat>, c1: nat,
                                     c2: nat, c3: nat, c4: nat)
    requires ThreeAt(a, start, op, lens, M, src, c1, c2, c3) && op + c4 <= |a| && Tail(|src|) <= |src|
    requires StreamOf(a[op..op + c4], lens, M, src[Tail(|src|)..|src|])
    ensures op + c4 == start + 6 + c1 + c2 + c3 + c4
    ensures FourStreams(a[start..op + c4], lens, M, src)
  {
    hide StreamOf, Quarter, LE;
    var g, c, o := Quarter(|src|), a[start..start + 6 + c1 + c2 + c3 + c4], start + 6;
    assert src[0..g] == src[..g] && src[g + g + g..|src|] == src[g + g + g..];
    var n := 6 + c1 + c2 + c3 + c4;
    SliceOfSlice(a, start, n, 0, 2);
    SliceOfSlice(a, start, n, 2, 4);
    SliceOfSlice(a, start, n, 4, 6);
    SliceOfSlice(a, start, n, 6, 6 + c1);
    SliceOfSlice(a, start, n, 6 + c1, 6 + c1 + c2);
    SliceOfSlice(a, start, n, 6 + c1 + c2, 6 + c1 + c2 + c3);
    SliceOfSlice(a, start, n, 6 + c1 + c2 + c3, n);
    assert c[6 + c1 + c2 + c3..] == c[6 + c1 + c2 + c3..n];
  }

  method ThreeSegments(dst: array<byte>, start: nat, oend: nat, src: seq<nat>, table: seq<CElt>, ghost lens: seq<nat>, ghost M: nat)
    returns (op: nat, ghost c1: nat, ghost c2: nat, ghost c3: nat)
    requires start + 6 <= oend <= dst.Length && 12 <= |src| <= HUF_BLOCKSIZE_MAX
    requires FullCode(lens, M) && M <= HUF_TABLELOG_MAX && CodeTable(table, lens, M) && SourceCoded(lens, src)
    modifies dst
    ensures op <= oend
    ensures op == 0 ==> !FourFit(lens, M, src, oend - start)
    ensures op != 0 ==> op == start + FirstThree(lens, M, src)
    ensures op != 0 ==> start + 6 <= op && ThreeAt(dst[..], start, op, lens, M, src, c1, c2, c3)
    ensures Framed(old(dst[..]), dst[..], start, oend)
  {
    hide FullCode, CodeTable, SourceCoded, Quarter, SegmentAt, Kept, Framed, SegmentBits, SegmentBytes, RoomFor, FourFit, FirstThree;
    QuarterBounds(|src|);
    FitSizes(lens, M, src, oend - start);
    ghost var a0 := dst[..];
    FramedSame(a0, start, oend);
    var g := Quarter(|src|);
    SegmentCoded(lens, src, 0, g);
    SegmentCoded(lens, src, g, g + g);
    SegmentCoded(lens, src, g + g, g + g + g);
    c1, c2, c3 := 0, 0, 0;
    op := start + 6;
    var cSize := CompressSegment(dst, start, op, oend, src[0..g], table, lens, M);
    ghost var a1 := dst[..];
    FramedStep(a0, a0, a1, start, start, op, oend);
    if cSize == 0 { return 0, 0, 0, 0; }
    c1 := cSize;
    op := op + cSize;
    cSize := CompressSegment(dst, start + 2, op, oend, src[g..g + g], table, lens, M);
    ghost var a2 := dst[..];
    FramedStep(a0, a1, a2, start, start + 2, op, oend);
    if cSize == 0 { return 0, 0, 0, 0; }
    SegmentKept(a1, a2, start, start + 6, c1, lens, M, src[0..g], start + 2, op, oend);
    c2 := cSize;
    op := op + cSize;
    cSize := CompressSegment(dst, start + 4, op, oend, src[g + g..g + g + g], table, lens, M);
    FramedStep(a0, a2, dst[..], start, start + 4, op, oend);
    if cSize == 0 { return 0, 0, 0, 0; }
    SegmentKept(a2, dst[..], start, start + 6, c1, lens, M, src[0..g], start + 4, op, oend);
    SegmentKept(a2, dst[..], start + 2, start + 6 + c1, c2, lens, M, src[g..g + g], start + 4, op, oend);
    c3 := cSize;
    op := op + cSize;
  }

  /** If all four fit, each of the first three does. */
  lemma {:induction false} FitSizes(lens: seq<nat>, M: nat, src: seq<nat>, n: nat)
    requires Tail(|src|) <= |src|
    ensures var g := Quarter(|src|);
            var s1, s2, s3 := SegmentBytes(lens, M, src[0..g]), SegmentBytes(lens, M, src[g..g + g]),
                              SegmentBytes(lens, M, src[g + g..g + g + g]);
            && FirstThree(lens, M, src) == 6 + s1 + s2 + s3 && s1 > 0 && s2 > 0 && s3 > 0
            && (FourFit(lens, M, src, n) ==>
                  && 6 + s1 + s2 + s3 <= n
                  && RoomFor(SegmentBits(lens, M, src[0..g]).len, n - 6)
                  && RoomFor(SegmentBits(lens, M, src[g..g + g]).len, n - 6 - s1)
                  && RoomFor(SegmentBits(lens, M, src[g + g..g + g + g]).len, n - 6 - s1 - s2))
  {
    if FourFit(lens, M, src, n) {
      hide CodeBits, SegmentBits, Quarter, Shr;
      var g := Quarter(|src|);
      var s1, s2 := SegmentBytes(lens, M, src[0..g]), SegmentBytes(lens, M, src[g..g + g]);
      EarlierFit(lens, M, src[0..g], n - 6);
      EarlierFit(lens, M, src[g..g + g], n - 6 - s1);
      EarlierFit(lens, M, src[g + g..g + g + g], n - 6 - s1 - s2);
    }
  }

  lemma {:induction false} LastFrame(a0: seq<byte>, a: seq<byte>, a': seq<byte>, start: nat, op: nat, oend: nat)
    requires Framed(a0, a, start, oend) && Framed(a, a', op, oend) && start <= op
    ensures Framed(a0, a', start, oend)
    ensures Kept(a, a', op, op, oend)
  {
  }

  lemma {:induction false} ThreeKept(a: seq<byte>, a': seq<byte>, start: nat, op: nat, oend: nat, lens: seq<nat>, M: nat, src: seq<nat>,
                                     c1: nat, c2: nat, c3: nat)
    requires ThreeAt(a, start, op, lens, M, src, c1, c2, c3) && Kept(a, a', op, op, oend) && op + 2 <= oend
    ensures ThreeAt(a', start, op, lens, M, src, c1, c2, c3)
  {
    hide StreamOf, LE, Quarter, Kept, SegmentAt;
    var g, o := Quarter(|src|), start + 6;
    SegmentKept(a, a', start, o, c1, lens, M, src[0..g], op, op, oend);
    SegmentKept(a, a', start + 2, o + c1, c2, lens, M, src[g..g + g], op, op, oend);
    SegmentKept(a, a', start + 4, o + c1 + c2, c3, lens, M, src[g + g..g + g + g], op, op, oend);
  }

  /**
    HUF_compress4X_usingCTable. On success the destination holds the jump table and four closed streams, one
    for each segment; 0 says that there is no room for the last one, or that the source is too short.
   */
  method Compress4X(dst: array<byte>, start: nat, dstSize: nat, src: seq<nat>, table: seq<CElt>, ghost lens: seq<nat>, ghost M: nat)
    returns (size: nat)
    requires start + dstSize <= dst.Length && |src| <= HUF_BLOCKSIZE_MAX
    requires FullCode(lens, M) && M <= HUF_TABLELOG_MAX && CodeTable(table, lens, M) && SourceCoded(lens, src)
    modifies dst
    ensures size <= dstSize && (size != 0 <==> FourFit(lens, M, src, dstSize))
    ensures size != 0 ==> FourStreams(dst[start..start + size], lens, M, src)
    ensures Framed(old(dst[..]), dst[..], start, start + dstSize)
  {
    hide FullCode, CodeTable, SourceCoded, StreamOf, Quarter, ThreeAt, FourStreams, Kept, Framed;
    ghost var a0 := dst[..];
    FramedSame(a0, start, start + dstSize);
    if dstSize < 17 { return 0; }
    if |src| < 12 { return 0; }
    QuarterBounds(|src|);
    var oend := start + dstSize;
    SegmentCoded(lens, src, Tail(|src|), |src|);
    ghost var c1, c2, c3;
    var op;
    op, c1, c2, c3 := ThreeSegments(dst, start, oend, src, table, lens, M);
    if op == 0 { return 0; }
    ghost var a := dst[..];
    var c4 := LastSegment(dst, op, oend, src[Tail(|src|)..|src|], table, lens, M);
    LastFrame(a0, a, dst[..], start, op, oend);
    if c4 == 0 { return 0; }
    ThreeKept(a, dst[..], start, op, oend, lens, M, src, c1, c2, c3);
    Assembled(dst[..], start, op, lens, M, src, c1, c2, c3, c4);
    size := op + c4 - start;
    assert dst[start..start + size] == dst[..][start..op + c4];
  }

  method LastSegment(dst: array<byte>, op: nat, oend: nat, seg: seq<nat>, table: seq<CElt>, ghost lens: seq<nat>, ghost M: nat)
    returns (cSize: nat)
    requires op <= oend <= dst.Length
    requires FullCode(lens, M) && M <= HUF_TABLELOG_MAX && CodeTable(table, lens, M) && SourceCoded(lens, seg)
    modifies dst
    ensures op + cSize <= oend && (cSize != 0 <==> RoomFor(SegmentBits(lens, M, seg).len, oend - op))
    ensures cSize != 0 ==> StreamOf(dst[..][op..op + cSize], lens, M, seg)
    ensures Framed(old(dst[..]), dst[..], op, oend)
  {
    hide FullCode, CodeTable, SourceCoded, CodeBits, Represents;
    cSize := Compress1X(dst, op, oend - op, seg, table, lens, M);
    assert dst[..][op..op + cSize] == dst[op..op + cSize];
  }

  // ---------- four streams by the reference decoder ----------

  /** Where the segments of `n` symbols begin and end. */
  function SegmentEnds(n: nat): (e: seq<nat>)
    ensures |e| == 5
  {
    var g := Quarter(n);
    [0, g, g + g, g + g + g, n]
  }

  /** Number of symbols of segment `k`. */
  function SegmentLength(n: nat, k: nat): (l: nat)
    requires Tail(n) <= n && k < 4
    ensures SegmentEnds(n)[k] + l == SegmentEnds(n)[k + 1] <= n
  {
    if k < 3 then Quarter(n) else n - Tail(n)
  }

  /** The sizes in the jump table leave a place for every stream. */
  predicate Laid(c: seq<byte>) {
    |c| >= 10 && 6 + LE(c[0..2]) + LE(c[2..4]) + LE(c[4..6]) <= |c|
  }

  /** Stream `k` of the four. */
  function StreamSlice(c: seq<byte>, k: nat): seq<byte>
    requires Laid(c)
  {
    var o1 := 6 + LE(c[0..2]);
    var o2 := o1 + LE(c[2..4]);
    var o3 := o2 + LE(c[4..6]);
    if k == 0 then c[6..o1] else if k == 1 then c[o1..o2] else if k == 2 then c[o2..o3] else c[o3..]
  }

  /** The first of the streams from `k` on that cannot be opened. */
  function FirstError(c: seq<byte>, k: nat): Option<Error>
    requires Laid(c) && k <= 4
    decreases 4 - k
  {
    if k == 4 then None
    else
      match InitError(StreamSlice(c, k))
      case Some(e) => Some(e)
      case None => FirstError(c, k + 1)
  }

  lemma {:induction false} AllOpen(c: seq<byte>, k: nat)
    requires Laid(c) && k <= 4 && FirstError(c, k) == None
    ensures forall i: nat | k <= i < 4 :: InitError(StreamSlice(c, i)) == None
    decreases 4 - k
  {
    hide InitError, StreamSlice;
    if k < 4 { AllOpen(c, k + 1); }
  }

  lemma {:induction false} ErrorAt(c: seq<byte>, k: nat, i: nat)
    requires Laid(c) && k <= i < 4 && InitError(StreamSlice(c, i)).Some?
    requires forall i': nat | k <= i' < i :: InitError(StreamSlice(c, i')) == None
    ensures FirstError(c, k) == InitError(StreamSlice(c, i))
    decreases i - k
  {
    hide InitError, StreamSlice;
    if k < i { ErrorAt(c, k + 1, i); }
  }

  /** What the reference decoder makes of segment `k` of `n` symbols. */
  ghost function SegmentWalk(steps: seq<Step>, D: nat, c: seq<byte>, n: nat, k: nat): Option<seq<nat>>
    requires Laid(c) && Tail(n) <= n && k < 4
  {
    StreamWalk(steps, D, StreamSlice(c, k), SegmentLength(n, k))
  }

  ghost predicate AllDecoded(steps: seq<Step>, D: nat, c: seq<byte>, n: nat)
    requires Laid(c) && Tail(n) <= n
  {
    && SegmentWalk(steps, D, c, n, 0).Some? && SegmentWalk(steps, D, c, n, 1).Some?
    && SegmentWalk(steps, D, c, n, 2).Some? && SegmentWalk(steps, D, c, n, 3).Some?
  }

  /** What a decoder of four streams returns for `n` symbols, of which `out` has room for at least three segments. */
  ghost predicate FourDecoded(steps: seq<Step>, D: nat, c: seq<byte>, n: nat, r: Result<nat>, out: seq<nat>) {
    if !Laid(c) then r == Err(CorruptionDetected)
    else
      match FirstError(c, 0)
      case Some(e) => r == Err(e)
      case None =>
        && Tail(|out|) <= |out|
        && if AllDecoded(steps, D, c, |out|) then
             && r == Ok(n)
             && out == SegmentWalk(steps, D, c, |out|, 0).value + SegmentWalk(steps, D, c, |out|, 1).value
                       + SegmentWalk(steps, D, c, |out|, 2).value + SegmentWalk(steps, D, c, |out|, 3).value
           else r == Err(CorruptionDetected)
  }

  // ---------- lanes ----------

  ghost predicate Different(d: seq<DStream>) {
    |d| == 4 && forall i, k | 0 <= i < k < 4 :: d[i] != d[k]
  }

  /** The aims of the four lanes; the output is wanted if all of them have a result. */
  ghost predicate Aims(hs: seq<Aim>, steps: seq<Step>, D: nat, e: seq<nat>) {
    && |hs| == 4 && |e| == 5 && StepsOk(steps, D)
    && (forall k: nat | k < 4 :: AimOk(hs[k]) && hs[k].steps == steps && hs[k].D == D && e[k] + hs[k].n == e[k + 1])
    && (forall k: nat | k < 4 :: hs[k].keep == (hs[0].result.Some? && hs[1].result.Some? && hs[2].result.Some? && hs[3].result.Some?))
  }

  ghost function AimsFor(steps: seq<Step>, D: nat, c: seq<byte>, n: nat): (hs: seq<Aim>)
    requires StepsOk(steps, D) && Laid(c) && Tail(n) <= n
    ensures |hs| == 4
  {
    seq(4, k requires 0 <= k < 4 =>
      Aim(steps, D, SegmentLength(n, k), SegmentWalk(steps, D, c, n, k), AllDecoded(steps, D, c, n)))
  }

  lemma {:induction false} AimsAre(steps: seq<Step>, D: nat, c: seq<byte>, n: nat)
    requires StepsOk(steps, D) && Laid(c) && Tail(n) <= n
    ensures Aims(AimsFor(steps, D, c, n), steps, D, SegmentEnds(n))
  {
    hide StepsOk, Laid, Walk, LE, StreamSlice, InitError, Quarter;
    var hs := AimsFor(steps, D, c, n);
    forall k: nat | k < 4 ensures AimOk(hs[k]) {
      assert hs[k].result == SegmentWalk(steps, D, c, n, k);
      assert k == 0 || k == 1 || k == 2 || k == 3;
    }
  }

  ghost predicate Lanes(hs: seq<Aim>, d: seq<DStream>, out: seq<nat>, e: seq<nat>, j: nat)
    requires |hs| == |d| == 4 && |e| == 5
    reads d
  {
    forall k | 0 <= k < 4 :: Lane(hs[k], d[k], out, e[k], j)
  }

  /** The first `k` lanes have moved on to `j'`. */
  ghost predicate Moving(hs: seq<Aim>, d: seq<DStream>, out: seq<nat>, e: seq<nat>, j: nat, j': nat, k: nat)
    requires |hs| == |d| == 4 && |e| == 5
    reads d
  {
    forall i | 0 <= i < 4 :: Lane(hs[i], d[i], out, e[i], if i < k then j' else j)
  }

  /** Each segment of the output ends where the next one begins. */
  ghost predicate Ordered(e: seq<nat>, j: nat, n: nat) {
    |e| == 5 && e[4] == n && forall i, k | 0 <= i < k <= 4 :: e[i] + j <= e[k]
  }

  lemma {:induction false} Apart(e: seq<nat>, j: nat, n: nat, i: nat, k: nat)
    requires Ordered(e, j, n) && i < 4 && k < 4 && i != k
    ensures e[k] + j <= e[k + 1] <= n
    ensures e[i] + j <= e[k] || e[k] + j <= e[i]
  {
    if k < 3 { assert e[k + 1] + j <= e[4]; }
  }

  /** Four symbols of each of the four segments. */
  method LaneSteps(d: seq<DStream>, dst: array<nat>, e: seq<nat>, j: nat, dt: seq<DEltX1>, dtLog: nat, ghost hs: seq<Aim>)
    requires Aims(hs, Steps1(dt), dtLog, e) && Different(d) && Ordered(e, j + 4, dst.Length)
    requires (forall k | 0 <= k < 4 :: d[k].Filled()) && Lanes(hs, d, dst[..], e, j)
    modifies d, dst
    ensures Lanes(hs, d, dst[..], e, j + 4)
    ensures forall k | 0 <= k < 4 :: d[k].ptr == 0 || d[k].bitsConsumed <= 56
  {
    hide Aims, Lane, Ordered, Untouched, DStream.Filled;
    AimAt(hs, Steps1(dt), dtLog, e, 0);
    for k := 0 to 4
      invariant Moving(hs, d, dst[..], e, j, j + 4, k)
      invariant forall i | 0 <= i < k :: d[i].ptr == 0 || d[i].bitsConsumed <= 56
      invariant forall i | k <= i < 4 :: d[i].Filled()
    {
      ghost var out := dst[..];
      Apart(e, j + 4, dst.Length, if k == 0 then 1 else 0, k);
      AimAt(hs, Steps1(dt), dtLog, e, k);
      FourSymbolsX1(d[k], dst, e[k], j, dt, dtLog, hs[k]);
      OthersMove(hs, d, out, dst[..], e, j, k);
    }
  }

  /** Lane `k` has had its symbols; the others have been where they were. */
  lemma {:induction false} OthersMove(hs: seq<Aim>, d: seq<DStream>, out: seq<nat>, out': seq<nat>, e: seq<nat>, j: nat, k: nat)
    requires |hs| == |d| == 4 && |e| == 5 && k < 4 && Ordered(e, j + 4, |out|) && Untouched(out, out', e[k] + j, e[k] + j + 4)
    requires Lane(hs[k], d[k], out', e[k], j + 4)
    requires forall i | 0 <= i < 4 && i != k :: Lane(hs[i], d[i], out, e[i], if i < k then j + 4 else j)
    ensures Moving(hs, d, out', e, j, j + 4, k + 1)
  {
    hide Lane, Untouched, Ordered;
    Apart(e, j + 4, |out|, if k == 0 then 1 else 0, k);
    forall i | 0 <= i < 4 && i != k ensures Lane(hs[i], d[i], out', e[i], if i < k then j + 4 else j) {
      Apart(e, j + 4, |out|, i, k);
      LaneKept(hs[i], d[i], out, out', e[i], if i < k then j + 4 else j, e[k] + j, e[k] + j + 4);
    }
  }

  lemma {:induction false} AimAt(hs: seq<Aim>, steps: seq<Step>, D: nat, e: seq<nat>, k: nat)
    requires Aims(hs, steps, D, e) && k < 4
    ensures |hs| == 4 && |e| == 5 && AimOk(hs[k]) && hs[k].steps == steps && hs[k].D == D && e[k] + hs[k].n == e[k + 1] && StepsOk(steps, D)
    ensures hs[k].keep == (hs[0].result.Some? && hs[1].result.Some? && hs[2].result.Some? && hs[3].result.Some?)
  {
    hide AimOk, StepsOk;
  }

  method LaneReloads(d: seq<DStream>, ghost out: seq<nat>, ghost e: seq<nat>, ghost j: nat, ghost hs: seq<Aim>) returns (endSignal: bool)
    requires |hs| == 4 && |e| == 5 && Different(d) && Lanes(hs, d, out, e, j)
    requires forall k | 0 <= k < 4 :: d[k].ptr == 0 || d[k].bitsConsumed <= 56
    modifies d
    ensures Lanes(hs, d, out, e, j)
    ensures forall k | 0 <= k < 4 :: d[k].ptr == 0 || d[k].bitsConsumed <= 56
    ensures endSignal ==> forall k | 0 <= k < 4 :: d[k].Filled()
  {
    hide Lane, DStream.Filled;
    endSignal := true;
    for k := 0 to 4
      invariant Lanes(hs, d, out, e, j)
      invariant endSignal ==> forall i | 0 <= i < k :: d[i].Filled()
      invariant forall i | 0 <= i < 4 :: d[i].ptr == 0 || d[i].bitsConsumed <= 56
    {
      var unfinished := LaneReloadFast(d[k], hs[k], out, e[k], j);
      endSignal := endSignal && unfinished;
    }
  }

  /** The first `k` segments are finished, the others are still `j` symbols into theirs. */
  ghost predicate FinishedTo(hs: seq<Aim>, d: seq<DStream>, out: seq<nat>, e: seq<nat>, j: nat, k: nat)
    requires |hs| == |d| == 4 && |e| == 5
    reads d
  {
    && (forall i | 0 <= i < k && i < 4 :: Finished(hs[i], d[i], out, e[i], e[i + 1]))
    && (forall i | k <= i < 4 :: Lane(hs[i], d[i], out, e[i], j) && (d[i].ptr == 0 || d[i].bitsConsumed <= 56))
  }

  /** The streams one by one: the rest of each segment. */
  method FinishLanes(d: seq<DStream>, dst: array<nat>, e: seq<nat>, j: nat, dt: seq<DEltX1>, dtLog: nat, ghost hs: seq<Aim>)
    requires Aims(hs, Steps1(dt), dtLog, e) && Different(d) && Ordered(e, j, dst.Length)
    requires FinishedTo(hs, d, dst[..], e, j, 0)
    modifies d, dst
    ensures FinishedTo(hs, d, dst[..], e, j, 4)
  {
    hide FinishedTo, Aims;
    AimAt(hs, Steps1(dt), dtLog, e, 0);
    for k := 0 to 4
      invariant FinishedTo(hs, d, dst[..], e, j, k)
    {
      FinishOne(d, dst, e, j, k, dt, dtLog, hs);
    }
  }

  /** The rest of one segment; the others are not touched. */
  method FinishOne(d: seq<DStream>, dst: array<nat>, e: seq<nat>, j: nat, k: nat, dt: seq<DEltX1>, dtLog: nat, ghost hs: seq<Aim>)
    requires Aims(hs, Steps1(dt), dtLog, e) && k < 4 && Different(d) && Ordered(e, j, dst.Length)
    requires FinishedTo(hs, d, dst[..], e, j, k)
    modifies d, dst
    ensures FinishedTo(hs, d, dst[..], e, j, k + 1)
  {
    hide Aims, Finished, Untouched, Lane, DStream.Valid;
    AimAt(hs, Steps1(dt), dtLog, e, k);
    ghost var out := dst[..];
    Apart(e, j, dst.Length, if k == 0 then 1 else 0, k);
    DecodeStreamX1(d[k], dst, e[k], j, e[k + 1], dt, dtLog, hs[k]);
    OthersFinished(hs, d, out, dst[..], e, j, k);
  }

  /** Segment `k` has been finished; the others have been where they were. */
  lemma {:induction false} OthersFinished(hs: seq<Aim>, d: seq<DStream>, out: seq<nat>, out': seq<nat>, e: seq<nat>, j: nat, k: nat)
    requires |hs| == |d| == 4 && Ordered(e, j, |out|) && k < 4 && Untouched(out, out', e[k] + j, e[k + 1])
    requires Finished(hs[k], d[k], out', e[k], e[k + 1])
    requires forall i | 0 <= i < k :: Finished(hs[i], d[i], out, e[i], e[i + 1])
    requires forall i | k < i < 4 :: Lane(hs[i], d[i], out, e[i], j) && (d[i].ptr == 0 || d[i].bitsConsumed <= 56)
    ensures FinishedTo(hs, d, out', e, j, k + 1)
  {
    hide Finished, Untouched, Lane;
    forall i | 0 <= i < k ensures Finished(hs[i], d[i], out', e[i], e[i + 1]) {
      FinishedKept(hs[i], d[i], out, out', e[i], e[i + 1], e[k] + j, e[k + 1]);
    }
    forall i | k < i < 4 ensures Lane(hs[i], d[i], out', e[i], j) {
      LaneKept(hs[i], d[i], out, out', e[i], j, e[k] + j, e[k + 1]);
    }
  }

  /** All four lanes at once, while each of them has bits to reload. */
  method JointRounds(d: seq<DStream>, dst: array<nat>, e: seq<nat>, dt: seq<DEltX1>, dtLog: nat, ghost hs: seq<Aim>) returns (j: nat)
    requires Aims(hs, Steps1(dt), dtLog, e) && Different(d) && Ordered(e, 0, dst.Length) && LastShortest(e, dst.Length)
    requires (forall k | 0 <= k < 4 :: d[k].Filled() && (d[k].ptr == 0 || d[k].bitsConsumed <= 56)) && Lanes(hs, d, dst[..], e, 0)
    modifies d, dst
    ensures Ordered(e, j, dst.Length) && FinishedTo(hs, d, dst[..], e, j, 0)
  {
    assert |hs| == |d| == 4 && |e| == 5;
    hide Lane, Aims, Different, DStream.Filled;
    j := 0;
    var endSignal := true;
    while endSignal && e[3] + j + 3 < dst.Length
      invariant Ordered(e, j, dst.Length)
      invariant Lanes(hs, d, dst[..], e, j)
      invariant endSignal ==> forall k | 0 <= k < 4 :: d[k].Filled()
      invariant forall k | 0 <= k < 4 :: d[k].ptr == 0 || d[k].bitsConsumed <= 56
      decreases dst.Length - j
    {
      OrderedNext(e, j, dst.Length);
      LaneSteps(d, dst, e, j, dt, dtLog, hs);
      j := j + 4;
      endSignal := LaneReloads(d, dst[..], e, j, hs);
    }
  }

  /** The last segment is the shortest one. */
  ghost predicate LastShortest(e: seq<nat>, n: nat) {
    |e| == 5 && e[3] <= n && e[3] - e[2] >= n - e[3] && e[1] - e[0] >= n - e[3] && e[2] - e[1] >= n - e[3]
  }

  lemma {:induction false} OrderedNext(e: seq<nat>, j: nat, n: nat)
    requires Ordered(e, j, n) && LastShortest(e, n) && e[3] + j + 3 < n
    ensures Ordered(e, j + 4, n)
  {
    assert e[0] + (n - e[3]) <= e[1] && e[1] + (n - e[3]) <= e[2] && e[2] + (n - e[3]) <= e[3] && e[3] + (n - e[3]) <= e[4];
  }

  // ---------- HUF_decompress4X1 ----------

  /** The four bit streams, in the order of their segments, each at its start. */
  method OpenLanes(cSrc: seq<byte>, ghost steps: seq<Step>, ghost D: nat, ghost out: seq<nat>) returns (r: Result<seq<DStream>>)
    requires StepsOk(steps, D) && Laid(cSrc) && Tail(|out|) <= |out|
    ensures r.Err? ==> FirstError(cSrc, 0) == Some(r.error)
    ensures r.Ok? ==> FirstError(cSrc, 0) == None && Opened(AimsFor(steps, D, cSrc, |out|), r.value, out)
    ensures r.Ok? ==> forall k | 0 <= k < |r.value| :: fresh(r.value[k])
  {
    hide StepsOk, Laid, LE, Quarter, InitError, StreamSlice, Lane, AimsFor, SegmentEnds, DStream.Filled, DStream.Valid;
    var d: seq<DStream> := [];
    for k := 0 to 4
      invariant |d| == k && forall i | 0 <= i < k :: fresh(d[i])
      invariant forall i, i' | 0 <= i < i' < k :: d[i] != d[i']
      invariant forall i: nat | i < k :: InitError(StreamSlice(cSrc, i)) == None
      invariant forall i | 0 <= i < k :: d[i].Filled() && (d[i].ptr == 0 || d[i].bitsConsumed <= 56)
      invariant forall i | 0 <= i < k :: Lane(AimsFor(steps, D, cSrc, |out|)[i], d[i], out, SegmentEnds(|out|)[i], 0)
    {
      var c := StreamSlice(cSrc, k);
      var error := InitError(c);
      if error.Some? {
        ErrorAt(cSrc, 0, k);
        return Err(error.value);
      }
      var lane := OpenLane(c, steps, D, cSrc, k, out);
      d := d + [lane];
    }
    NoError(cSrc, 0);
    r := Ok(d);
  }

  lemma {:induction false} NoError(c: seq<byte>, k: nat)
    requires Laid(c) && k <= 4 && forall i: nat | k <= i < 4 :: InitError(StreamSlice(c, i)) == None
    ensures FirstError(c, k) == None
    decreases 4 - k
  {
    hide InitError, StreamSlice;
    if k < 4 { NoError(c, k + 1); }
  }

  /** BIT_initDStream for one of the streams. */
  method OpenLane(c: seq<byte>, ghost steps: seq<Step>, ghost D: nat, ghost cSrc: seq<byte>, ghost k: nat, ghost out: seq<nat>) returns (d: DStream)
    requires StepsOk(steps, D) && Laid(cSrc) && Tail(|out|) <= |out| && k < 4 && c == StreamSlice(cSrc, k) && InitError(c) == None
    ensures fresh(d) && d.Filled() && (d.ptr == 0 || d.bitsConsumed <= 56)
    ensures Lane(AimsFor(steps, D, cSrc, |out|)[k], d, out, SegmentEnds(|out|)[k], 0)
  {
    hide StepsOk, Laid, LE, Quarter, StreamSlice, Lane, Walk, DStream.Valid, AimsFor, Aims;
    d := new DStream(c);
    AimsAre(steps, D, cSrc, |out|);
    AimAt(AimsFor(steps, D, cSrc, |out|), steps, D, SegmentEnds(|out|), k);
    AimHas(steps, D, cSrc, |out|, k);
    LaneStarts(AimsFor(steps, D, cSrc, |out|)[k], d, out, SegmentEnds(|out|)[k]);
  }

  lemma {:induction false} AimHas(steps: seq<Step>, D: nat, c: seq<byte>, n: nat, k: nat)
    requires StepsOk(steps, D) && Laid(c) && Tail(n) <= n && k < 4 && InitError(StreamSlice(c, k)) == None
    ensures SegmentEnds(n)[k] <= n
    ensures var h, s := AimsFor(steps, D, c, n)[k], StreamSlice(c, k);
            && h.result == Walk(h.steps, h.D, LE(s), BitLength(s), h.n) && h.result == SegmentWalk(steps, D, c, n, k)
            && h.keep == AllDecoded(steps, D, c, n)
  {
    hide StepsOk, Laid, LE, Quarter, StreamSlice, Walk;
  }

  /** Four different streams, each at the start of its segment. */
  ghost predicate Opened(hs: seq<Aim>, d: seq<DStream>, out: seq<nat>)
    requires |hs| == 4
    reads d
  {
    && Different(d) && (forall k | 0 <= k < 4 :: d[k].Filled() && (d[k].ptr == 0 || d[k].bitsConsumed <= 56))
    && Lanes(hs, d, out, SegmentEnds(|out|), 0)
  }

  lemma {:induction false} SizesFit(n: nat)
    requires Tail(n) <= n
    ensures Ordered(SegmentEnds(n), 0, n) && LastShortest(SegmentEnds(n), n)
  {
    QuarterBounds(n);
    hide Quarter;
  }

  lemma {:induction false} FourParts(s: seq<nat>, g: nat)
    requires g + g + g <= |s|
    ensures s == s[..g] + s[g..g + g] + s[g + g..g + g + g] + s[g + g + g..]
    ensures s[0..g] == s[..g] && s[g + g + g..|s|] == s[g + g + g..]
  {
  }

  /** The four segments, finished, are the result. */
  lemma {:induction false} AllFinished(steps: seq<Step>, D: nat, c: seq<byte>, dstSize: nat, d: seq<DStream>, out: seq<nat>, j: nat, r: Result<nat>)
    requires StepsOk(steps, D) && Laid(c) && Tail(|out|) <= |out| && FirstError(c, 0) == None && |d| == 4
    requires FinishedTo(AimsFor(steps, D, c, |out|), d, out, SegmentEnds(|out|), j, 4)
    requires r == if d[0].EndOfDStream() && d[1].EndOfDStream() && d[2].EndOfDStream() && d[3].EndOfDStream() then Ok(dstSize)
                  else Err(CorruptionDetected)
    ensures FourDecoded(steps, D, c, dstSize, r, out)
  {
    hide StepsOk, Laid, StreamSlice, InitError, FinishedTo, Quarter, SegmentWalk, AimsFor, DStream.EndOfDStream;
    AllOpen(c, 0);
    SegmentDone(steps, D, c, d, out, j, 0);
    SegmentDone(steps, D, c, d, out, j, 1);
    SegmentDone(steps, D, c, d, out, j, 2);
    SegmentDone(steps, D, c, d, out, j, 3);
    FourParts(out, Quarter(|out|));
  }

  lemma {:induction false} SegmentDone(steps: seq<Step>, D: nat, c: seq<byte>, d: seq<DStream>, out: seq<nat>, j: nat, k: nat)
    requires StepsOk(steps, D) && Laid(c) && Tail(|out|) <= |out| && |d| == 4 && k < 4 && InitError(StreamSlice(c, k)) == None
    requires FinishedTo(AimsFor(steps, D, c, |out|), d, out, SegmentEnds(|out|), j, 4)
    ensures var w, e := SegmentWalk(steps, D, c, |out|, k), SegmentEnds(|out|);
            && (d[k].EndOfDStream() <==> w.Some?)
            && (AllDecoded(steps, D, c, |out|) ==> e[k] <= e[k + 1] <= |out| && w.Some? && out[e[k]..e[k + 1]] == w.value)
  {
    hide StepsOk, Laid, StreamSlice, InitError, Quarter, SegmentWalk, AimsFor, DStream.EndOfDStream, Lane;
    AimHas(steps, D, c, |out|, k);
    assert Finished(AimsFor(steps, D, c, |out|)[k], d[k], out, SegmentEnds(|out|)[k], SegmentEnds(|out|)[k + 1]);
  }

  lemma {:induction false} EarlyError(steps: seq<Step>, D: nat, c: seq<byte>, n: nat, r: Result<nat>, out: seq<nat>)
    requires if Laid(c) then FirstError(c, 0).Some? && r == Err(FirstError(c, 0).value) else r == Err(CorruptionDetected)
    ensures FourDecoded(steps, D, c, n, r, out)
  {
    hide Laid, FirstError;
  }

  /** HUF_decompress4X1_usingDTable_internal_body, against the reference decoder. */
  method DecodeFourX1(dst: array<nat>, dstSize: nat, cSrc: seq<byte>, dt: seq<DEltX1>, dtLog: nat) returns (r: Result<nat>)
    requires StepsOk(Steps1(dt), dtLog)
    requires |cSrc| >= 10 ==> dst.Length == FourRoom(dstSize)
    modifies dst
    ensures FourDecoded(Steps1(dt), dtLog, cSrc, dstSize, r, dst[..])
  {
    hide *;
    ghost var steps := Steps1(dt);
    NotLaid(cSrc);
    if |cSrc| < 10 || 6 + LE(cSrc[0..2]) + LE(cSrc[2..4]) + LE(cSrc[4..6]) > |cSrc| {
      EarlyError(steps, dtLog, cSrc, dstSize, Err(CorruptionDetected), dst[..]);
      return Err(CorruptionDetected);
    }
    FourRoomIs(dstSize);
    var lanes := OpenLanes(cSrc, steps, dtLog, dst[..]);
    if lanes.Err? {
      EarlyError(steps, dtLog, cSrc, dstSize, Err(lanes.error), dst[..]);
      return Err(lanes.error);
    }
    var e, d := SegmentEnds(dstSize)[4 := dst.Length], lanes.value;
    ghost var hs := AimsFor(steps, dtLog, cSrc, dst.Length);
    AimsAre(steps, dtLog, cSrc, dst.Length);
    SizesFit(dst.Length);
    OpenedParts(hs, d, dst[..]);
    var j := JointRounds(d, dst, e, dt, dtLog, hs);
    FinishLanes(d, dst, e, j, dt, dtLog, hs);
    r := if d[0].EndOfDStream() && d[1].EndOfDStream() && d[2].EndOfDStream() && d[3].EndOfDStream() then Ok(dstSize)
         else Err(CorruptionDetected);
    AllFinished(steps, dtLog, cSrc, dstSize, d, dst[..], j, r);
  }

  lemma {:induction false} NotLaid(c: seq<byte>)
    ensures Laid(c) <==> |c| >= 10 && 6 + LE(c[0..2]) + LE(c[2..4]) + LE(c[4..6]) <= |c|
  {
    hide LE;
  }

  lemma {:induction false} OpenedParts(hs: seq<Aim>, d: seq<DStream>, out: seq<nat>)
    requires |hs| == 4 && Opened(hs, d, out)
    ensures |d| == 4 && Different(d) && (forall k | 0 <= k < 4 :: d[k].Filled() && (d[k].ptr == 0 || d[k].bitsConsumed <= 56))
    ensures Lanes(hs, d, out, SegmentEnds(|out|), 0)
  {
    hide Lanes, DStream.Filled, SegmentEnds;
  }

  // ---------- the four-stream form of a source ----------

  /** The output is the one source whose four-stream form is `c`, and there is none if an error is returned. */
  ghost predicate OnlyFour(c: seq<byte>, lens: seq<nat>, M: nat, r: Result<nat>, out: seq<nat>) {
    && (r.Ok? ==> FourForm(c, lens, M, out))
    && forall src: seq<nat> {:trigger FourForm(c, lens, M, src)} | |src| == |out| && FourForm(c, lens, M, src) :: r.Ok? && out == src
  }

  ghost predicate FourForm(c: seq<byte>, lens: seq<nat>, M: nat, src: seq<nat>) {
    SourceCoded(lens, src) && FourStreams(c, lens, M, src)
  }

  /** Segment `k` of a source. */
  ghost function Segment(src: seq<nat>, k: nat): seq<nat>
    requires Tail(|src|) <= |src| && k < 4
  {
    src[SegmentEnds(|src|)[k]..SegmentEnds(|src|)[k + 1]]
  }

  /** The four-stream form, stream by stream. */
  lemma {:induction false} FourFormIs(c: seq<byte>, lens: seq<nat>, M: nat, src: seq<nat>)
    ensures FourForm(c, lens, M, src) <==>
            Tail(|src|) <= |src| && Laid(c) && forall k: nat | k < 4 :: HoldsSource(lens, M, StreamSlice(c, k), Segment(src, k))
  {
    hide CodeBits, LE, Represents, Quarter, SourceCoded;
    if Tail(|src|) <= |src| {
      FourParts(src, Quarter(|src|));
      SegmentsCoded(lens, src);
      if FourForm(c, lens, M, src) { StreamsNotEmpty(c, lens, M, src); }
      if Laid(c) && forall k: nat | k < 4 :: HoldsSource(lens, M, StreamSlice(c, k), Segment(src, k)) {
        assert HoldsSource(lens, M, StreamSlice(c, 0), Segment(src, 0)) && HoldsSource(lens, M, StreamSlice(c, 1), Segment(src, 1));
        assert HoldsSource(lens, M, StreamSlice(c, 2), Segment(src, 2)) && HoldsSource(lens, M, StreamSlice(c, 3), Segment(src, 3));
      }
    }
  }

  lemma {:induction false} StreamsNotEmpty(c: seq<byte>, lens: seq<nat>, M: nat, src: seq<nat>)
    requires FourStreams(c, lens, M, src)
    ensures Laid(c)
  {
    hide CodeBits, LE, Quarter;
  }

  lemma {:induction false} SegmentsCoded(lens: seq<nat>, src: seq<nat>)
    requires Tail(|src|) <= |src|
    ensures SourceCoded(lens, src) <==> forall k: nat | k < 4 :: SourceCoded(lens, Segment(src, k))
  {
    hide SourceCoded, Segment;
    SegmentsJoin(src);
    var a, b, c, d := Segment(src, 0), Segment(src, 1), Segment(src, 2), Segment(src, 3);
    CodedConcat(lens, a + b + c, d);
    CodedConcat(lens, a + b, c);
    CodedConcat(lens, a, b);
    if SourceCoded(lens, src) {
      forall k: nat | k < 4 ensures SourceCoded(lens, Segment(src, k)) { assert k == 0 || k == 1 || k == 2 || k == 3; }
    }
  }

  lemma {:induction false} CodedConcat(lens: seq<nat>, a: seq<nat>, b: seq<nat>)
    ensures SourceCoded(lens, a + b) <==> SourceCoded(lens, a) && SourceCoded(lens, b)
  {
    if SourceCoded(lens, a + b) {
      forall i | 0 <= i < |a| ensures a[i] < |lens| && lens[a[i]] > 0 { assert (a + b)[i] == a[i]; }
      forall i | 0 <= i < |b| ensures b[i] < |lens| && lens[b[i]] > 0 { assert (a + b)[|a| + i] == b[i]; }
    }
  }

  lemma {:induction false} OnlyFourSource(lens: seq<nat>, dt: seq<DEltX1>, M: nat, c: seq<byte>, n: nat, r: Result<nat>, out: seq<nat>)
    requires TableOf(lens, dt, M) && FourDecoded(Steps1(dt), M, c, n, r, out)
    ensures OnlyFour(c, lens, M, r, out)
  {
    hide TableOf, HoldsSource, Walk, LE, BitLength, StreamSlice, InitError, Laid, SegmentEnds, Quarter, FourForm, FirstError, Segment;
    if r.Ok? {
      AllOpen(c, 0);
      forall k: nat | k < 4 ensures HoldsSource(lens, M, StreamSlice(c, k), Segment(out, k)) {
        OutSegment(Steps1(dt), M, c, n, r, out, k);
        WalkHolds(lens, dt, M, StreamSlice(c, k), SegmentLength(|out|, k));
      }
      FourFormIs(c, lens, M, out);
    }
    forall src: seq<nat> | |src| == |out| && FourForm(c, lens, M, src) ensures r.Ok? && out == src {
      FourFormIs(c, lens, M, src);
      forall k: nat | k < 4 ensures InitError(StreamSlice(c, k)) == None && SegmentWalk(Steps1(dt), M, c, |src|, k) == Some(Segment(src, k)) {
        KnownSegment(lens, dt, M, c, src, k);
      }
      NoError(c, 0);
      SegmentsJoin(src);
    }
  }

  lemma {:induction false} SegmentsJoin(src: seq<nat>)
    requires Tail(|src|) <= |src|
    ensures src == Segment(src, 0) + Segment(src, 1) + Segment(src, 2) + Segment(src, 3)
  {
    hide Quarter;
    FourParts(src, Quarter(|src|));
  }

  lemma {:induction false} KnownSegment(lens: seq<nat>, dt: seq<DEltX1>, M: nat, c: seq<byte>, src: seq<nat>, k: nat)
    requires TableOf(lens, dt, M) && Laid(c) && Tail(|src|) <= |src| && k < 4 && HoldsSource(lens, M, StreamSlice(c, k), Segment(src, k))
    ensures InitError(StreamSlice(c, k)) == None && SegmentWalk(Steps1(dt), M, c, |src|, k) == Some(Segment(src, k))
  {
    hide TableOf, HoldsSource, Walk, LE, BitLength, StreamSlice, InitError, Laid, Quarter;
    HoldsOpen(lens, M, StreamSlice(c, k), Segment(src, k));
    WalkHolds(lens, dt, M, StreamSlice(c, k), |Segment(src, k)|);
  }

  lemma {:induction false} OutSegment(steps: seq<Step>, D: nat, c: seq<byte>, n: nat, r: Result<nat>, out: seq<nat>, k: nat)
    requires FourDecoded(steps, D, c, n, r, out) && r.Ok? && k < 4
    ensures Laid(c) && Tail(|out|) <= |out| && FirstError(c, 0) == None
    ensures SegmentWalk(steps, D, c, |out|, k) == Some(Segment(out, k))
  {
    hide LE, Walk, StreamSlice, InitError, Laid, Quarter, FirstError, BitLength;
    SegmentSizes(steps, D, c, |out|);
    Pieces(SegmentWalk(steps, D, c, |out|, 0).value, SegmentWalk(steps, D, c, |out|, 1).value, SegmentWalk(steps, D, c, |out|, 2).value,
           SegmentWalk(steps, D, c, |out|, 3).value);
  }

  lemma {:induction false} Pieces(a: seq<nat>, b: seq<nat>, c: seq<nat>, d: seq<nat>)
    ensures var s, x, y := a + b + c + d, |a| + |b|, |a| + |b| + |c|;
            s[0..|a|] == a && s[|a|..x] == b && s[x..y] == c && s[y..|s|] == d
  {
  }

  lemma {:induction false} SegmentSizes(steps: seq<Step>, D: nat, c: seq<byte>, n: nat)
    requires Laid(c) && Tail(n) <= n && AllDecoded(steps, D, c, n)
    ensures var g := Quarter(n);
            && |SegmentWalk(steps, D, c, n, 0).value| == g && |SegmentWalk(steps, D, c, n, 1).value| == g
            && |SegmentWalk(steps, D, c, n, 2).value| == g && |SegmentWalk(steps, D, c, n, 3).value| == n - g - g - g
  {
    hide LE, StreamSlice, InitError, Laid, Quarter, BitLength;
  }

  /**
    HUF_decompress4X1_usingDTable, for any bytes: it succeeds exactly if these are the four-stream form of a source
    of the length of the output, and then that is the output. Of an output of 1, 2 or 5 symbols, which cannot
    hold three segments, the third ends in the memory after it; `dst` is the output with the symbols that are
    then written there.
   */
  method Decompress4X1(dst: array<nat>, dstSize: nat, cSrc: seq<byte>, dt: seq<DEltX1>, dtLog: nat, ghost lens: seq<nat>) returns (r: Result<nat>)
    requires TableOf(lens, dt, dtLog)
    requires |cSrc| >= 10 ==> dst.Length == FourRoom(dstSize)
    modifies dst
    ensures r.Ok? ==> r.value == dstSize
    ensures OnlyFour(cSrc, lens, dtLog, r, dst[..])
    ensures r.Err? ==> r.error == if Laid(cSrc) && FirstError(cSrc, 0).Some? then FirstError(cSrc, 0).value else CorruptionDetected
  {
    hide TableOf, Laid, FirstError, OnlyFour, StepsOk, SegmentWalk;
    StepsOk1(lens, dt, dtLog);
    r := DecodeFourX1(dst, dstSize, cSrc, dt, dtLog);
    OnlyFourSource(lens, dt, dtLog, cSrc, dstSize, r, dst[..]);
  }
}
