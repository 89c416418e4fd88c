/**
  A reference decoder for Huff0 streams. It walks along the bits of a stream, seen as one number, without a
  register and without reloads: what the four decoders of Huff0 are measured against, on any bytes.
 */
module HufWalk {
  import opened Bits
  import opened BitStream
  import opened Errors
  import opened HufHeight

  // ---------- the reference decoder ----------

  /** What a lookup yields: one symbol or two, and the number of their bits. */
  datatype Step = Step(symbols: seq<nat>, nbBits: nat)

  ghost predicate StepsOk(steps: seq<Step>, D: nat) {
    && 1 <= D <= HUF_TABLELOG_MAX && |steps| == Pow2(D)
    && forall x: nat {:trigger steps[x]} | x < |steps| :: 1 <= |steps[x].symbols| <= 2 && 1 <= steps[x].nbBits <= D
  }

  /**
    The next `D` bits when `k` are left, padded with zeros. With nothing left, the register is looked up as if
    nothing had been read from it; only the last symbol of a segment can come from there.
   */
  ghost function Window(stream: nat, k: nat, D: nat): nat {
    if k == 0 then Shr(Trunc64(stream), ShiftCount(WORD - D))
    else if k >= D then Slice(stream, k - D, D)
    else Shl(Low(stream, k), D - k)
  }

  /** `s`, and then `rest` if there is one. */
  ghost function Prepend(s: seq<nat>, rest: Option<seq<nat>>): Option<seq<nat>> {
    match rest
    case None => None
    case Some(t) => Some(s + t)
  }

  /**
    The `n` symbols in the first `k` bits of `stream`, from the top, if these are exactly used up. A lookup of
    two symbols where only one is missing ends the stream if no more bits are left than it takes.
   */
  ghost function Walk(steps: seq<Step>, D: nat, stream: nat, k: nat, n: nat): (r: Option<seq<nat>>)
    ensures r.Some? ==> |r.value| == n
    decreases n
  {
    if n == 0 then
      if k == 0 then Some([]) else None
    else
      var x := Window(stream, k, D);
      if x >= |steps| || |steps[x].symbols| == 0 then None
      else
        var c := steps[x];
        if |c.symbols| > n then
          if k <= c.nbBits && n == 1 then Some([c.symbols[0]]) else None
        else if k < c.nbBits then None
        else Prepend(c.symbols, Walk(steps, D, stream, k - c.nbBits, n - |c.symbols|))
  }

  /** With more bits left than a lookup takes, at least two symbols are to come. */
  lemma {:induction false} MoreToCome(steps: seq<Step>, D: nat, stream: nat, k: nat, n: nat)
    requires StepsOk(steps, D) && Walk(steps, D, stream, k, n).Some? && k > 12
    ensures n >= 2
  {
    hide Window;
    if n == 1 { ShortEnd(steps, D, stream, k); }
  }

  lemma {:induction false} ShortEnd(steps: seq<Step>, D: nat, stream: nat, k: nat)
    requires StepsOk(steps, D) && Walk(steps, D, stream, k, 1).Some?
    ensures k <= 12
  {
    hide Window;
    var x := Window(stream, k, D);
    if |steps[x].symbols| == 1 && steps[x].nbBits <= k { assert Walk(steps, D, stream, k - steps[x].nbBits, 0).Some?; }
  }

  /** What the reference decoder makes of a whole stream. */
  ghost function StreamWalk(steps: seq<Step>, D: nat, c: seq<byte>, n: nat): (r: Option<seq<nat>>)
    ensures r.Some? ==> |r.value| == n
  {
    if InitError(c).Some? then None else Walk(steps, D, LE(c), BitLength(c), n)
  }

  // ---------- a stream on its way ----------

  /** The lookups of a segment of `n` symbols, and its reference result; with `keep`, its output is wanted. */
  datatype Aim = Aim(steps: seq<Step>, D: nat, n: nat, result: Option<seq<nat>>, keep: bool)

  ghost predicate AimOk(h: Aim) {
    && StepsOk(h.steps, h.D)
    && (h.keep ==> h.result.Some?) && (h.result.Some? ==> |h.result.value| == h.n)
  }

  /** After `j` symbols, the reference decoder would go on to the same result. */
  ghost predicate OnWay(h: Aim, d: DStream, j: nat)
    reads d
  {
    Track(h, LE(d.src), d.Left(), j)
  }

  ghost predicate Track(h: Aim, stream: nat, left: int, j: nat) {
    match h.result
    case Some(src) => j <= h.n && |src| == h.n && left >= 0 && Walk(h.steps, h.D, stream, left, h.n - j) == Some(src[j..])
    case None => j <= h.n && left >= 0 ==> Walk(h.steps, h.D, stream, left, h.n - j) == None
  }

  /** The register holds what the next lookup takes, or all that is left. */
  ghost predicate Served(d: DStream, D: nat)
    reads d
  {
    d.ptr == 0 || d.bitsConsumed + D <= WORD
  }

  lemma {:induction false} LookIsWindow(d: DStream, D: nat)
    requires d.Valid() && 1 <= D <= HUF_TABLELOG_MAX && Served(d, D) && d.Left() >= 0
    ensures d.LookBitsFast(D) == Window(LE(d.src), d.Left(), D)
  {
    hide LE, Slice, Shr, Shl, Low, Trunc64, DStream.Valid;
    LookBitsFastIsSlice(d, D);
    if d.bitsConsumed + D <= WORD {
    } else if d.bitsConsumed < WORD {
      SliceFirst(LE(d.src), WORD - d.bitsConsumed);
    } else {
      EmptyRegister(d, D);
    }
  }

  lemma {:induction false} EmptyRegister(d: DStream, D: nat)
    requires d.Valid() && d.ptr == 0 && d.bitsConsumed == WORD
    ensures d.LookBitsFast(D) == Shr(Trunc64(LE(d.src)), ShiftCount(WORD - D))
  {
    hide LE;
    ShiftNone(LE(d.src));
    ShiftNone(d.bitContainer);
    hide Shr, Shl;
  }

  lemma {:induction false} AnyStep(h: Aim, d: DStream)
    requires d.Valid() && AimOk(h)
    ensures d.LookBitsFast(h.D) < |h.steps|
    ensures var c := h.steps[d.LookBitsFast(h.D)]; 1 <= |c.symbols| <= 2 && 1 <= c.nbBits <= h.D
  {
    hide DStream.Valid, DStream.LookBitsFast;
    LookBitsFastIsSlice(d, h.D);
  }

  /** The lookup that comes next. */
  ghost predicate Looked(h: Aim, d: DStream, c: Step)
    reads d
  {
    d.LookBitsFast(h.D) < |h.steps| && h.steps[d.LookBitsFast(h.D)] == c
  }

  /** The symbols of a lookup are the next ones of the result. */
  ghost predicate NextAre(h: Aim, j: nat, symbols: seq<nat>) {
    h.result.Some? ==> j + |symbols| <= |h.result.value| && symbols == h.result.value[j..j + |symbols|]
  }

  /** What a lookup does to the state, unless it has two symbols where only one is missing. */
  lemma {:induction false} StepOn(h: Aim, d: DStream, j: nat, c: Step)
    requires d.Valid() && AimOk(h) && OnWay(h, d, j) && Served(d, h.D) && Looked(h, d, c)
    requires h.result.Some? ==> j + 2 <= h.n || (j < h.n && |c.symbols| == 1)
    ensures Track(h, LE(d.src), d.Left() - c.nbBits, j + |c.symbols|) && NextAre(h, j, c.symbols)
  {
    hide DStream.Valid, DStream.LookBitsFast, DStream.Left, LE;
    AnyStep(h, d);
    if d.Left() >= 0 { LookIsWindow(d, h.D); }
    TrackOn(h, LE(d.src), d.Left(), j, c);
  }

  lemma {:induction false} TrackOn(h: Aim, stream: nat, left: int, j: nat, c: Step)
    requires AimOk(h) && Track(h, stream, left, j) && 1 <= |c.symbols| <= 2 && 1 <= c.nbBits
    requires left >= 0 ==> Window(stream, left, h.D) < |h.steps| && h.steps[Window(stream, left, h.D)] == c
    requires h.result.Some? ==> j + 2 <= h.n || (j < h.n && |c.symbols| == 1)
    ensures Track(h, stream, left - c.nbBits, j + |c.symbols|) && NextAre(h, j, c.symbols)
  {
    hide Window;
    if h.result.Some? {
      var src := h.result.value;
      var rest := Walk(h.steps, h.D, stream, left - c.nbBits, h.n - j - |c.symbols|);
      assert Prepend(c.symbols, rest) == Some(src[j..]);
      SameParts(c.symbols, rest.value, src[j..]);
      assert src[j..][..|c.symbols|] == src[j..j + |c.symbols|] && src[j..][|c.symbols|..] == src[j + |c.symbols|..];
    }
  }

  lemma {:induction false} SameParts(a: seq<nat>, b: seq<nat>, s: seq<nat>)
    requires a + b == s
    ensures |a| <= |s| && a == s[..|a|] && b == s[|a|..]
  {
  }

  /** At the end of the segment, the stream is used up exactly if the reference decoder succeeds. */
  lemma {:induction false} AtEnd(h: Aim, d: DStream)
    requires AimOk(h) && OnWay(h, d, h.n) && (d.ptr == 0 || d.bitsConsumed <= WORD)
    ensures d.EndOfDStream() <==> h.result.Some?
  {
    if d.Left() >= 0 { assert Walk(h.steps, h.D, LE(d.src), d.Left(), 0) == if d.Left() == 0 then Some([]) else None; }
  }

  // ---------- the output ----------

  /** The part `out[base..p]` of the output is the start of the result. */
  ghost predicate OutputIs(h: Aim, out: seq<nat>, base: nat, p: nat) {
    h.keep ==> base <= p <= |out| && h.result.Some? && p - base <= |h.result.value| && out[base..p] == h.result.value[..p - base]
  }

  /** Positions outside [from, to) are as before. */
  ghost predicate Untouched(out: seq<nat>, out': seq<nat>, from: nat, to: nat) {
    |out| == |out'| && forall k | 0 <= k < |out| && !(from <= k < to) :: out'[k] == out[k]
  }

  /** Stream of one segment of the output, which starts at `base`, positioned `j` symbols into it. */
  ghost predicate Lane(h: Aim, d: DStream, out: seq<nat>, base: nat, j: nat)
    reads d
  {
    AimOk(h) && d.Valid() && OnWay(h, d, j) && OutputIs(h, out, base, base + j)
  }

  /** The whole segment is decoded, and its stream used up exactly if there is a result. */
  ghost predicate Finished(h: Aim, d: DStream, out: seq<nat>, base: nat, pEnd: nat)
    reads d
  {
    && (d.EndOfDStream() <==> h.result.Some?)
    && (h.keep ==> base <= pEnd <= |out| && h.result.Some? && out[base..pEnd] == h.result.value)
  }

  lemma {:induction false} OutputGrows(h: Aim, out: seq<nat>, out': seq<nat>, base: nat, p: nat, c: seq<nat>)
    requires OutputIs(h, out, base, p) && base <= p && p + |c| <= |out| == |out'|
    requires forall k | 0 <= k < p + |c| :: out'[k] == if k < p then out[k] else c[k - p]
    requires h.keep && h.result.Some? ==> p + |c| - base <= |h.result.value| && c == h.result.value[p - base..p + |c| - base]
    ensures OutputIs(h, out', base, p + |c|)
  {
    if h.keep {
      var q: nat := p + |c|;
      assert out'[base..q] == out[base..p] + c;
      assert h.result.value[..q - base] == h.result.value[..p - base] + c;
    }
  }

  lemma {:induction false} UntouchedNext(out: seq<nat>, a: seq<nat>, a': seq<nat>, from: nat, mid: nat, to: nat)
    requires Untouched(out, a, from, mid) && Untouched(a, a', mid, to) && from <= mid <= to
    ensures Untouched(out, a', from, to)
  {
  }

  lemma {:induction false} UntouchedNone(out: seq<nat>, from: nat, to: nat)
    ensures Untouched(out, out, from, to)
  {
  }

  lemma {:induction false} UntouchedWider(a: seq<nat>, a': seq<nat>, from: nat, p: nat, q: nat, to: nat)
    requires Untouched(a, a', p, q) && from <= p && q <= to
    ensures Untouched(a, a', from, to)
  {
  }

  lemma {:induction false} UntouchedBoth(out: seq<nat>, a: seq<nat>, a': seq<nat>, from: nat, to: nat)
    requires Untouched(out, a, from, to) && Untouched(a, a', from, to)
    ensures Untouched(out, a', from, to)
  {
  }

  lemma {:induction false} LaneKept(h: Aim, d: DStream, out: seq<nat>, out': seq<nat>, base: nat, j: nat, from: nat, to: nat)
    requires Lane(h, d, out, base, j) && Untouched(out, out', from, to) && (h.keep ==> to <= base || base + j <= from)
    ensures Lane(h, d, out', base, j)
  {
    hide OnWay, DStream.Valid, AimOk;
    if h.keep { assert out'[base..base + j] == out[base..base + j]; }
  }

  lemma {:induction false} FinishedKept(h: Aim, d: DStream, out: seq<nat>, out': seq<nat>, base: nat, end: nat, from: nat, to: nat)
    requires Finished(h, d, out, base, end) && Untouched(out, out', from, to) && (to <= base || end <= from)
    ensures Finished(h, d, out', base, end)
  {
    if h.keep { assert out'[base..end] == out[base..end]; }
  }

  lemma {:induction false} LaneEnds(h: Aim, d: DStream, out: seq<nat>, base: nat)
    requires Lane(h, d, out, base, h.n) && (d.ptr == 0 || d.bitsConsumed <= WORD)
    ensures Finished(h, d, out, base, base + h.n) && d.Valid()
  {
    hide OnWay, DStream.Valid, DStream.EndOfDStream;
    AtEnd(h, d);
    if h.keep { assert h.result.value[..h.n] == h.result.value; }
  }

  /** A stream of which nothing has been read yet. */
  lemma {:induction false} LaneStarts(h: Aim, d: DStream, out: seq<nat>, base: nat)
    requires AimOk(h) && d.Valid() && base <= |out| && InitError(d.src) == None && d.Left() == BitLength(d.src)
    requires h.result == Walk(h.steps, h.D, LE(d.src), BitLength(d.src), h.n)
    ensures Lane(h, d, out, base, 0)
  {
    hide Walk, LE;
    if h.result.Some? { assert h.result.value[0..] == h.result.value; }
    if h.keep { assert out[base..base] == []; }
  }

  // ---------- reloads ----------

  /** BIT_reloadDStream keeps a lane where it is. */
  method LaneReload(d: DStream, ghost h: Aim, ghost out: seq<nat>, ghost base: nat, ghost j: nat) returns (status: Status)
    requires Lane(h, d, out, base, j) && (d.ptr == 0 || d.bitsConsumed <= 56)
    modifies d
    ensures Lane(h, d, out, base, j) && d.Filled()
    ensures status == Unfinished ==> d.bitsConsumed < 8
    ensures status == Unfinished || d.ptr == 0
  {
    hide OutputIs, Walk, LE, AimOk, DStream.Valid;
    status := d.Reload();
  }

  /** BIT_reloadDStreamFast keeps a lane where it is. */
  method LaneReloadFast(d: DStream, ghost h: Aim, ghost out: seq<nat>, ghost base: nat, ghost j: nat) returns (unfinished: bool)
    requires Lane(h, d, out, base, j) && (d.ptr == 0 || d.bitsConsumed <= 56)
    modifies d
    ensures Lane(h, d, out, base, j) && (d.ptr == 0 || d.bitsConsumed <= 56)
    ensures unfinished ==> d.Filled() && d.Left() >= 57
  {
    hide OutputIs, Walk, LE, AimOk, DStream.Valid;
    var status := d.ReloadFast();
    unfinished := status == Unfinished;
  }
}
