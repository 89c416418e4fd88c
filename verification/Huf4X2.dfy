/**
  Four-stream Huff0 blocks decoded with the double-symbol table. The four lanes no longer move in lock step.
 */
module Huf4X2 {
  import opened Bits
  import opened BitStream
  import opened Errors
  import opened HufX2
  import opened HufWalk
  import opened HufStream
  import opened HufStreamX2
  import opened Huf4X

  /** Lane `k` is `js[k]` symbols into its segment. */
  ghost predicate LanesAt(hs: seq<Aim>, d: seq<DStream>, out: seq<nat>, e: seq<nat>, js: seq<nat>)
    requires |hs| == |d| == |js| == 4 && |e| == 5
    reads d
  {
    forall k | 0 <= k < 4 :: Lane(hs[k], d[k], out, e[k], js[k])
  }

  /** No lane moves more than twice as fast as the last one, whose segment is the shortest. */
  ghost predicate Paced(e: seq<nat>, js: seq<nat>, n: nat) {
    && |e| == 5 && |js| == 4 && e[4] == n && e[3] + js[3] <= n
    && (forall k | 0 <= k < 4 :: js[k] <= js[3] + js[3] && e[k] + (n - e[3]) <= e[k + 1])
  }

  /** The other lanes of a wanted block do not see what lane `k` writes. */
  lemma {:induction false} OthersKept(h: Aim, d: DStream, out: seq<nat>, out': seq<nat>, e: seq<nat>, i: nat, ji: nat, k: nat, from: nat, to: nat)
    requires |e| == 5 && i < 4 && k < 4 && i != k && Lane(h, d, out, e[i], ji) && Untouched(out, out', from, to)
    requires h.keep ==> e[i] + ji <= e[i + 1] && e[k] <= from && to <= e[k + 1]
    requires forall a, b | 0 <= a < b <= 4 :: e[a] <= e[b]
    ensures Lane(h, d, out', e[i], ji)
  {
    hide Lane, Untouched, DStream.Valid;
    if h.keep { assert to <= e[i] || e[i] + ji <= from; }
    LaneKept(h, d, out, out', e[i], ji, from, to);
  }

  /** Room for eight symbols in every lane. */
  lemma {:induction false} RoomForRound(e: seq<nat>, js: seq<nat>, n: nat, k: nat)
    requires Paced(e, js, n) && e[3] + js[3] + 7 < n && k < 4
    ensures e[k] + js[k] + 8 <= n && (forall a, b | 0 <= a < b <= 4 :: e[a] <= e[b])
  {
    assert e[0] + (n - e[3]) <= e[1] && e[1] + (n - e[3]) <= e[2] && e[2] + (n - e[3]) <= e[3] && e[3] + (n - e[3]) <= e[4];
  }

  lemma {:induction false} PacedOrder(e: seq<nat>, js: seq<nat>, n: nat)
    requires Paced(e, js, n)
    ensures forall a, b | 0 <= a < b <= 4 :: e[a] <= e[b]
  {
    assert e[0] + (n - e[3]) <= e[1] && e[1] + (n - e[3]) <= e[2] && e[2] + (n - e[3]) <= e[3] && e[3] + (n - e[3]) <= e[4];
  }

  /** The lanes of a round: those before `k` have moved on. */
  ghost predicate Round(hs: seq<Aim>, d: seq<DStream>, out: seq<nat>, e: seq<nat>, js0: seq<nat>, js: seq<nat>, k: nat)
    requires |hs| == |d| == 4 && |e| == 5
    reads d
  {
    && |js0| == |js| == 4 && LanesAt(hs, d, out, e, js)
    && (forall i | 0 <= i < k && i < 4 :: js0[i] + 4 <= js[i] <= js0[i] + 8 && (d[i].ptr == 0 || d[i].bitsConsumed <= 56))
    && (forall i | k <= i < 4 :: js[i] == js0[i] && d[i].Filled() && Ample(hs[i], d[i], js[i], 4))
  }

  /** A wanted lane is in its segment, and what it may write in a round is, too. */
  lemma {:induction false} InSegment(hs: seq<Aim>, steps: seq<Step>, D: nat, d: DStream, out: seq<nat>, e: seq<nat>, j: nat, k: nat)
    requires Aims(hs, steps, D, e) && k < 4 && Lane(hs[k], d, out, e[k], j)
    ensures hs[k].result.Some? ==> e[k] + j <= e[k + 1]
    ensures hs[k].keep ==> e[k] + j <= e[k + 1] && Reach(hs[k], e[k], j) <= e[k + 1]
  {
    hide Lane, Aims;
    AimAt(hs, steps, D, e, k);
    KeepHasResult(hs[k], d, out, e[k], j);
  }

  /** Four lookups of lane `k`. */
  method LaneRound(d: seq<DStream>, dst: array<nat>, e: seq<nat>, js: seq<nat>, k: nat, dt: seq<DEltX2>, dtLog: nat,
                   ghost hs: seq<Aim>, ghost js0: seq<nat>) returns (j: nat)
    requires Aims(hs, Steps2(dt), dtLog, e) && CellLengths(dt) && Different(d) && k < 4
    requires Paced(e, js0, dst.Length) && e[3] + js0[3] + 7 < dst.Length
    requires Round(hs, d, dst[..], e, js0, js, k)
    modifies d[k], dst
    ensures |js| == 4 && Round(hs, d, dst[..], e, js0, js[k := j], k + 1)
  {
    hide Aims, CellLengths, Lane, Ample, Reach, Untouched, DStream.Filled;
    RoomForRound(e, js0, dst.Length, k);
    ghost var out := dst[..];
    AimAt(hs, Steps2(dt), dtLog, e, k);
    InSegment(hs, Steps2(dt), dtLog, d[k], out, e, js[k], k);
    j := FourLookups(d[k], dst, e[k], js[k], dt, dtLog, hs[k]);
    OthersGo(hs, Steps2(dt), dtLog, d, out, dst[..], e, js, k);
  }

  /** Lane `k` has had its round; the others have been where they were. */
  lemma {:induction false} OthersGo(hs: seq<Aim>, steps: seq<Step>, D: nat, d: seq<DStream>, out: seq<nat>, out': seq<nat>, e: seq<nat>, js: seq<nat>, k: nat)
    requires Aims(hs, steps, D, e) && |hs| == |d| == |js| == 4 && |e| == 5 && k < 4 && Untouched(out, out', e[k] + js[k], Reach(hs[k], e[k], js[k]))
    requires hs[k].keep ==> Reach(hs[k], e[k], js[k]) <= e[k + 1]
    requires (forall a, b | 0 <= a < b <= 4 :: e[a] <= e[b]) && forall i | 0 <= i < 4 && i != k :: Lane(hs[i], d[i], out, e[i], js[i])
    ensures forall i | 0 <= i < 4 && i != k :: Lane(hs[i], d[i], out', e[i], js[i])
  {
    hide Aims, Lane, Reach, Untouched;
    AimAt(hs, steps, D, e, k);
    forall i | 0 <= i < 4 && i != k ensures Lane(hs[i], d[i], out', e[i], js[i]) {
      InSegment(hs, steps, D, d[i], out, e, js[i], i);
      AimAt(hs, steps, D, e, i);
      OthersKept(hs[i], d[i], out, out', e, i, js[i], k, e[k] + js[k], Reach(hs[k], e[k], js[k]));
    }
  }

  /** A round of all four lanes. */
  method FourLanes(d: seq<DStream>, dst: array<nat>, e: seq<nat>, js0: seq<nat>, dt: seq<DEltX2>, dtLog: nat, ghost hs: seq<Aim>)
    returns (js: seq<nat>)
    requires Aims(hs, Steps2(dt), dtLog, e) && CellLengths(dt) && Different(d)
    requires Paced(e, js0, dst.Length) && e[3] + js0[3] + 7 < dst.Length
    requires Round(hs, d, dst[..], e, js0, js0, 0)
    modifies d, dst
    ensures Round(hs, d, dst[..], e, js0, js, 4)
  {
    assert |hs| == |d| == 4 && |e| == 5;
    hide Aims, CellLengths, Paced, Different, LanesAt, Lane, Ample, DStream.Filled;
    js := js0;
    for k := 0 to 4
      invariant |js| == 4 && Round(hs, d, dst[..], e, js0, js, k)
    {
      var j := LaneRound(d, dst, e, js, k, dt, dtLog, hs, js0);
      js := js[k := j];
    }
  }

  lemma {:induction false} PacedNext(e: seq<nat>, js0: seq<nat>, js: seq<nat>, n: nat)
    requires Paced(e, js0, n) && e[3] + js0[3] + 7 < n && |js| == 4
    requires forall i | 0 <= i < 4 :: js0[i] + 4 <= js[i] <= js0[i] + 8
    ensures Paced(e, js, n)
  {
  }

  /** The lanes after a round, of which the first `k` have been reloaded; `filled` if all of these could be. */
  ghost predicate Between(hs: seq<Aim>, d: seq<DStream>, out: seq<nat>, e: seq<nat>, js: seq<nat>, k: nat, filled: bool)
    requires |hs| == |d| == |js| == 4 && |e| == 5
    reads d
  {
    && LanesAt(hs, d, out, e, js)
    && (filled ==> forall i | 0 <= i < k && i < 4 :: d[i].Filled() && d[i].Left() >= 57)
    && (forall i | 0 <= i < 4 :: d[i].ptr == 0 || d[i].bitsConsumed <= 56)
  }

  method ReloadAll(d: seq<DStream>, ghost out: seq<nat>, ghost e: seq<nat>, ghost js: seq<nat>, ghost hs: seq<Aim>) returns (endSignal: bool)
    requires |hs| == |js| == 4 && |e| == 5 && Different(d) && Between(hs, d, out, e, js, 0, true)
    modifies d
    ensures Between(hs, d, out, e, js, 4, endSignal)
  {
    hide Lane, DStream.Filled, DStream.Left;
    endSignal := true;
    for k := 0 to 4
      invariant Between(hs, d, out, e, js, k, endSignal)
    {
      var unfinished := LaneReloadFast(d[k], hs[k], out, e[k], js[k]);
      endSignal := endSignal && unfinished;
    }
  }

  lemma {:induction false} RoundStarts(hs: seq<Aim>, d: seq<DStream>, out: seq<nat>, e: seq<nat>, js: seq<nat>)
    requires |hs| == |d| == |js| == 4 && |e| == 5 && Between(hs, d, out, e, js, 4, true)
    ensures Round(hs, d, out, e, js, js, 0)
  {
    hide Lane, DStream.Filled;
  }

  lemma {:induction false} FirstRound(hs: seq<Aim>, steps: seq<Step>, D: nat, d: seq<DStream>, out: seq<nat>, e: seq<nat>, js: seq<nat>, n: nat)
    requires Aims(hs, steps, D, e) && |hs| == |d| == 4 && |e| == 5 && js == [0, 0, 0, 0] && LanesAt(hs, d, out, e, js) && Paced(e, js, n)
    requires (forall k | 0 <= k < 4 :: d[k].Filled()) && e[3] + 7 < n
    ensures Round(hs, d, out, e, js, js, 0)
  {
    hide Aims, Lane, DStream.Filled;
    forall k | 0 <= k < 4 ensures Ample(hs[k], d[k], js[k], 4) {
      AimAt(hs, steps, D, e, k);
      AmpleHere(hs[k], d[k], e[k], 0, e[k + 1], 4);
    }
  }

  /** All four lanes, while each of them has bits to reload. */
  method JointRounds2(d: seq<DStream>, dst: array<nat>, e: seq<nat>, dt: seq<DEltX2>, dtLog: nat, ghost hs: seq<Aim>) returns (js: seq<nat>)
    requires Aims(hs, Steps2(dt), dtLog, e) && CellLengths(dt) && Different(d) && Paced(e, [0, 0, 0, 0], dst.Length)
    requires LanesAt(hs, d, dst[..], e, [0, 0, 0, 0]) && forall k | 0 <= k < 4 :: d[k].Filled() && (d[k].ptr == 0 || d[k].bitsConsumed <= 56)
    modifies d, dst
    ensures |js| == 4 && LanesAt(hs, d, dst[..], e, js) && Paced(e, js, dst.Length)
    ensures forall k | 0 <= k < 4 :: d[k].ptr == 0 || d[k].bitsConsumed <= 56
  {
    assert |hs| == |d| == 4 && |e| == 5;
    hide Aims, CellLengths, Different, LanesAt, Round, Between, DStream.Filled;
    js := [0, 0, 0, 0];
    var endSignal := true;
    if e[3] + js[3] + 7 < dst.Length { FirstRound(hs, Steps2(dt), dtLog, d, dst[..], e, js, dst.Length); }
    while endSignal && e[3] + js[3] + 7 < dst.Length
      invariant |js| == 4 && LanesAt(hs, d, dst[..], e, js) && Paced(e, js, dst.Length)
      invariant endSignal && e[3] + js[3] + 7 < dst.Length ==> Round(hs, d, dst[..], e, js, js, 0)
      invariant forall k | 0 <= k < 4 :: d[k].ptr == 0 || d[k].bitsConsumed <= 56
      decreases dst.Length - js[3]
    {
      ghost var js0 := js;
      js := FourLanes(d, dst, e, js, dt, dtLog, hs);
      RoundEnds(hs, d, dst[..], e, js0, js);
      PacedNext(e, js0, js, dst.Length);
      endSignal := ReloadAll(d, dst[..], e, js, hs);
      BetweenLanes(hs, d, dst[..], e, js, endSignal);
      if endSignal { RoundStarts(hs, d, dst[..], e, js); }
    }
  }

  lemma {:induction false} BetweenLanes(hs: seq<Aim>, d: seq<DStream>, out: seq<nat>, e: seq<nat>, js: seq<nat>, filled: bool)
    requires |hs| == |d| == |js| == 4 && |e| == 5 && Between(hs, d, out, e, js, 4, filled)
    ensures LanesAt(hs, d, out, e, js) && forall k | 0 <= k < 4 :: d[k].ptr == 0 || d[k].bitsConsumed <= 56
  {
    hide LanesAt;
  }

  lemma {:induction false} RoundEnds(hs: seq<Aim>, d: seq<DStream>, out: seq<nat>, e: seq<nat>, js0: seq<nat>, js: seq<nat>)
    requires |hs| == |d| == 4 && |e| == 5 && Round(hs, d, out, e, js0, js, 4)
    ensures |js0| == |js| == 4 && Between(hs, d, out, e, js, 0, true)
    ensures forall i | 0 <= i < 4 :: js0[i] + 4 <= js[i] <= js0[i] + 8
  {
    hide Lane;
  }

  // ---------- finishing ----------

  /** The first `k` segments are finished, the others are where the rounds left them. */
  ghost predicate DoneTo(hs: seq<Aim>, d: seq<DStream>, out: seq<nat>, e: seq<nat>, js: seq<nat>, k: nat)
    requires |hs| == |d| == |js| == 4 && |e| == 5
    reads d
  {
    && (forall i | 0 <= i < k && i < 4 :: Finished(hs[i], d[i], out, e[i], e[i + 1]))
    && (forall i | k <= i < 4 :: Lane(hs[i], d[i], out, e[i], js[i]) && (d[i].ptr == 0 || d[i].bitsConsumed <= 56))
  }

  /** The lanes are within their segments, one after the other. */
  ghost predicate Within(e: seq<nat>, js: seq<nat>, n: nat) {
    |e| == 5 && |js| == 4 && e[4] == n && (forall k | 0 <= k < 4 :: e[k] + js[k] <= e[k + 1]) && forall a, b | 0 <= a < b <= 4 :: e[a] <= e[b]
  }

  /** The streams one by one: the rest of each segment. */
  method FinishLanes2(d: seq<DStream>, dst: array<nat>, e: seq<nat>, js: seq<nat>, dt: seq<DEltX2>, dtLog: nat, ghost hs: seq<Aim>)
    requires Aims(hs, Steps2(dt), dtLog, e) && CellLengths(dt) && Different(d) && Within(e, js, dst.Length) && DoneTo(hs, d, dst[..], e, js, 0)
    modifies d, dst
    ensures DoneTo(hs, d, dst[..], e, js, 4)
  {
    assert |hs| == |d| == 4 && |e| == 5;
    hide DoneTo, Aims, CellLengths;
    for k := 0 to 4
      invariant DoneTo(hs, d, dst[..], e, js, k)
    {
      FinishOne2(d, dst, e, js, k, dt, dtLog, hs);
    }
  }

  /** The rest of one segment; the others are not touched. */
  method FinishOne2(d: seq<DStream>, dst: array<nat>, e: seq<nat>, js: seq<nat>, k: nat, dt: seq<DEltX2>, dtLog: nat, ghost hs: seq<Aim>)
    requires Aims(hs, Steps2(dt), dtLog, e) && CellLengths(dt) && Different(d) && Within(e, js, dst.Length) && k < 4
    requires DoneTo(hs, d, dst[..], e, js, k)
    modifies d, dst
    ensures DoneTo(hs, d, dst[..], e, js, k + 1)
  {
    hide Aims, CellLengths, Finished, Untouched, Lane, Within, DStream.Valid;
    AimAt(hs, Steps2(dt), dtLog, e, k);
    WithinAt(e, js, dst.Length, k);
    ghost var out := dst[..];
    DecodeStreamX2(d[k], dst, e[k], js[k], e[k + 1], dt, dtLog, hs[k]);
    OthersDone(hs, d, out, dst[..], e, js, k);
  }

  lemma {:induction false} WithinAt(e: seq<nat>, js: seq<nat>, n: nat, k: nat)
    requires Within(e, js, n) && k < 4
    ensures |e| == 5 && |js| == 4 && e[k] + js[k] <= e[k + 1] <= n
  {
  }

  /** Segment `k` has been finished; the others have been where they were. */
  lemma {:induction false} OthersDone(hs: seq<Aim>, d: seq<DStream>, out: seq<nat>, out': seq<nat>, e: seq<nat>, js: seq<nat>, k: nat)
    requires |hs| == |d| == 4 && Within(e, js, |out|) && k < 4 && Untouched(out, out', e[k] + js[k], e[k + 1])
    requires Finished(hs[k], d[k], out', e[k], e[k + 1])
    requires forall i | 0 <= i < k :: Finished(hs[i], d[i], out, e[i], e[i + 1])
    requires forall i | k < i < 4 :: Lane(hs[i], d[i], out, e[i], js[i]) && (d[i].ptr == 0 || d[i].bitsConsumed <= 56)
    ensures DoneTo(hs, d, out', e, js, k + 1)
  {
    hide Finished, Untouched, Lane;
    forall i | 0 <= i < k ensures Finished(hs[i], d[i], out', e[i], e[i + 1]) {
      FinishedKept(hs[i], d[i], out, out', e[i], e[i + 1], e[k] + js[k], e[k + 1]);
    }
    forall i | k < i < 4 ensures Lane(hs[i], d[i], out', e[i], js[i]) {
      LaneKept(hs[i], d[i], out, out', e[i], js[i], e[k] + js[k], e[k + 1]);
    }
  }

  lemma {:induction false} DoneIsFinished(hs: seq<Aim>, d: seq<DStream>, out: seq<nat>, e: seq<nat>, js: seq<nat>)
    requires |hs| == |d| == |js| == 4 && |e| == 5 && DoneTo(hs, d, out, e, js, 4)
    ensures FinishedTo(hs, d, out, e, 0, 4)
  {
    hide Finished;
  }

  lemma {:induction false} SizesPaced(n: nat)
    requires Tail(n) <= n
    ensures Paced(SegmentEnds(n), [0, 0, 0, 0], n)
  {
    QuarterBounds(n);
    hide Quarter;
  }

  lemma {:induction false} OpenedAt(hs: seq<Aim>, d: seq<DStream>, out: seq<nat>)
    requires |hs| == 4 && Opened(hs, d, out)
    ensures |d| == 4 && Different(d) && (forall k | 0 <= k < 4 :: d[k].Filled() && (d[k].ptr == 0 || d[k].bitsConsumed <= 56))
    ensures LanesAt(hs, d, out, SegmentEnds(|out|), [0, 0, 0, 0])
  {
    hide Lane, Quarter, SegmentEnds, DStream.Filled;
    var js := [0, 0, 0, 0];
    forall k | 0 <= k < 4 ensures Lane(hs[k], d[k], out, SegmentEnds(|out|)[k], js[k]) { }
  }

  /** Lanes beyond their segments: the reference decoder fails, too. */
  lemma {:induction false} TooFar(steps: seq<Step>, D: nat, c: seq<byte>, dstSize: nat, d: seq<DStream>, out: seq<nat>, js: seq<nat>, k: nat)
    requires StepsOk(steps, D) && Laid(c) && Tail(|out|) <= |out| && FirstError(c, 0) == None && |d| == |js| == 4 && k < 4
    requires LanesAt(AimsFor(steps, D, c, |out|), d, out, SegmentEnds(|out|), js) && SegmentEnds(|out|)[k] + js[k] > SegmentEnds(|out|)[k + 1]
    ensures FourDecoded(steps, D, c, dstSize, Err(CorruptionDetected), out)
  {
    hide StepsOk, Laid, StreamSlice, InitError, Quarter, SegmentWalk, AimsFor, Lane, SegmentEnds, Aims;
    AllOpen(c, 0);
    AimsAre(steps, D, c, |out|);
    InSegment(AimsFor(steps, D, c, |out|), steps, D, d[k], out, SegmentEnds(|out|), js[k], k);
    AimHas(steps, D, c, |out|, k);
    assert k == 0 || k == 1 || k == 2 || k == 3;
  }

  lemma {:induction false} WithinIs(e: seq<nat>, js: seq<nat>, n: nat)
    requires Paced(e, js, n) && e[0] + js[0] <= e[1] && e[1] + js[1] <= e[2] && e[2] + js[2] <= e[3]
    ensures Within(e, js, n)
  {
    PacedOrder(e, js, n);
  }

  lemma {:induction false} DoneStarts(hs: seq<Aim>, d: seq<DStream>, out: seq<nat>, e: seq<nat>, js: seq<nat>)
    requires |hs| == |d| == |js| == 4 && |e| == 5 && LanesAt(hs, d, out, e, js)
    requires forall k | 0 <= k < 4 :: d[k].ptr == 0 || d[k].bitsConsumed <= 56
    ensures DoneTo(hs, d, out, e, js, 0)
  {
    hide Lane;
  }

  /** HUF_decompress4X2_usingDTable_internal_body, against the reference decoder. */
  method DecodeFourX2(dst: array<nat>, dstSize: nat, cSrc: seq<byte>, dt: seq<DEltX2>, dtLog: nat) returns (r: Result<nat>)
    requires StepsOk(Steps2(dt), dtLog) && CellLengths(dt)
    requires |cSrc| >= 10 ==> dst.Length == FourRoom(dstSize)
    modifies dst
    ensures FourDecoded(Steps2(dt), dtLog, cSrc, dstSize, r, dst[..])
  {
    hide *;
    ghost var steps := Steps2(dt);
    NotLaid(cSrc);
    if |cSrc| < 10 || 6 + LE(cSrc[0..2]) + LE(cSrc[2..4]) + LE(cSrc[4..6]) > |cSrc| {
      EarlyError(steps, dtLog, cSrc, dstSize, Err(CorruptionDetected), dst[..]);
      return Err(CorruptionDetected);
    }
    FourRoomIs(dstSize);
    var lanes := OpenLanes(cSrc, steps, dtLog, dst[..]);
    if lanes.Err? {
      EarlyError(steps, dtLog, cSrc, dstSize, Err(lanes.error), dst[..]);
      return Err(lanes.error);
    }
    var e, d := SegmentEnds(dstSize)[4 := dst.Length], lanes.value;
    ghost var hs := AimsFor(steps, dtLog, cSrc, dst.Length);
    AimsAre(steps, dtLog, cSrc, dst.Length);
    SizesPaced(dst.Length);
    OpenedAt(hs, d, dst[..]);
    var js := JointRounds2(d, dst, e, dt, dtLog, hs);
    if e[0] + js[0] > e[1] || e[1] + js[1] > e[2] || e[2] + js[2] > e[3] {
      TooFar(steps, dtLog, cSrc, dstSize, d, dst[..], js, if e[0] + js[0] > e[1] then 0 else if e[1] + js[1] > e[2] then 1 else 2);
      return Err(CorruptionDetected);
    }
    WithinIs(e, js, dst.Length);
    DoneStarts(hs, d, dst[..], e, js);
    FinishLanes2(d, dst, e, js, dt, dtLog, hs);
    DoneIsFinished(hs, d, dst[..], e, js);
    r := if d[0].EndOfDStream() && d[1].EndOfDStream() && d[2].EndOfDStream() && d[3].EndOfDStream() then Ok(dstSize)
         else Err(CorruptionDetected);
    AllFinished(steps, dtLog, cSrc, dstSize, d, dst[..], 0, r);
  }

  // ---------- the four-stream form of a source ----------

  /** Every stream spells its segment of the output, but for a loose end; and a source whose form this is is the output. */
  ghost predicate OnlyFourLoosely(c: seq<byte>, lens: seq<nat>, dt: seq<DEltX2>, D: nat, r: Result<nat>, out: seq<nat>) {
    && (r.Ok? ==> Laid(c) && FirstError(c, 0) == None && Tail(|out|) <= |out| && forall k: nat | k < 4 :: LooseSegment(c, lens, dt, D, out, k))
    && forall src: seq<nat> {:trigger FourForm(c, lens, D, src)} | |src| == |out| && FourForm(c, lens, D, src) :: r.Ok? && out == src
  }

  ghost predicate LooseSegment(c: seq<byte>, lens: seq<nat>, dt: seq<DEltX2>, D: nat, out: seq<nat>, k: nat)
    requires Laid(c) && Tail(|out|) <= |out| && k < 4
  {
    var s := StreamSlice(c, k);
    InitError(s) == None && (HoldsSource(lens, D, s, Segment(out, k)) || LooseEnd(lens, dt, D, LE(s), BitLength(s), Segment(out, k)))
  }

  lemma {:induction false} LooseFour(lens: seq<nat>, dt: seq<DEltX2>, D: nat, c: seq<byte>, n: nat, r: Result<nat>, out: seq<nat>)
    requires TableOf2(lens, dt, D) && FourDecoded(Steps2(dt), D, c, n, r, out)
    ensures OnlyFourLoosely(c, lens, dt, D, r, out)
  {
    hide TableOf2, HoldsSource, LooseEnd, Walk, LE, BitLength, StreamSlice, InitError, Laid, SegmentEnds, Quarter, FourForm, FirstError, Segment;
    if r.Ok? {
      OutSegment(Steps2(dt), D, c, n, r, out, 0);
      AllOpen(c, 0);
      forall k: nat | k < 4 ensures LooseSegment(c, lens, dt, D, out, k) {
        OutSegment(Steps2(dt), D, c, n, r, out, k);
        WalkHolds2(lens, dt, D, StreamSlice(c, k), SegmentLength(|out|, k));
      }
    }
    forall src: seq<nat> | |src| == |out| && FourForm(c, lens, D, src) ensures r.Ok? && out == src {
      FourFormIs(c, lens, D, src);
      forall k: nat | k < 4 ensures InitError(StreamSlice(c, k)) == None && SegmentWalk(Steps2(dt), D, c, |src|, k) == Some(Segment(src, k)) {
        KnownSegment2(lens, dt, D, c, src, k);
      }
      NoError(c, 0);
      SegmentsJoin(src);
    }
  }

  lemma {:induction false} KnownSegment2(lens: seq<nat>, dt: seq<DEltX2>, D: nat, c: seq<byte>, src: seq<nat>, k: nat)
    requires TableOf2(lens, dt, D) && Laid(c) && Tail(|src|) <= |src| && k < 4 && HoldsSource(lens, D, StreamSlice(c, k), Segment(src, k))
    ensures InitError(StreamSlice(c, k)) == None && SegmentWalk(Steps2(dt), D, c, |src|, k) == Some(Segment(src, k))
  {
    hide TableOf2, HoldsSource, LooseEnd, Walk, LE, BitLength, StreamSlice, InitError, Laid, Quarter;
    HoldsOpen(lens, D, StreamSlice(c, k), Segment(src, k));
    WalkHolds2(lens, dt, D, StreamSlice(c, k), |Segment(src, k)|);
  }

  /**
    HUF_decompress4X2_usingDTable, for any bytes: what the reference decoder makes of the four streams. The
    four-stream form of a source of the length of the output gives that source; other bytes are accepted
    only with a loose end. `dst` is the output, or at least room for three segments.
   */
  method Decompress4X2(dst: array<nat>, dstSize: nat, cSrc: seq<byte>, dt: seq<DEltX2>, dtLog: nat, ghost lens: seq<nat>) returns (r: Result<nat>)
    requires TableOf2(lens, dt, dtLog)
    requires |cSrc| >= 10 ==> dst.Length == FourRoom(dstSize)
    modifies dst
    ensures r.Ok? ==> r.value == dstSize
    ensures FourDecoded(Steps2(dt), dtLog, cSrc, dstSize, r, dst[..])
    ensures OnlyFourLoosely(cSrc, lens, dt, dtLog, r, dst[..])
  {
    hide TableOf2, CellLengths, Laid, FirstError, OnlyFourLoosely, StepsOk, SegmentWalk;
    StepsOk2(lens, dt, dtLog);
    LengthsOf(lens, dt, dtLog);
    r := DecodeFourX2(dst, dstSize, cSrc, dt, dtLog);
    LooseFour(lens, dt, dtLog, cSrc, dstSize, r, dst[..]);
  }
}
