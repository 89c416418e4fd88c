/**
  The weights of a Huff0 header. The last non-zero weight is not stored: the reader finds it as what is
  missing to the next power of two.
 */
module HufStats {
  import opened Bits
  import opened Errors
  import opened HufHeight
  import opened HufCode
  import opened HufX1

  /** (1 << w) >> 1: the share of a symbol of weight `w`. */
  function Share(w: nat): nat {
    Half(Pow2(w))
  }

  lemma {:induction false} ShareIs(w: nat)
    ensures Share(w) == if w == 0 then 0 else Pow2(w - 1)
  {
    if w > 0 { HalfUnique(Pow2(w), Pow2(w - 1)); }
  }

  function ShareSum(w: seq<nat>): nat {
    if |w| == 0 then 0 else ShareSum(w[..|w| - 1]) + Share(w[|w| - 1])
  }

  function Count(w: seq<nat>, x: nat): nat {
    if |w| == 0 then 0 else Count(w[..|w| - 1], x) + (if w[|w| - 1] == x then 1 else 0)
  }

  /** Lengths from weights. */
  function Lengths(w: seq<nat>, M: nat): (lens: seq<nat>)
    ensures |lens| == |w|
  {
    seq(|w|, s requires 0 <= s < |w| => if w[s] == 0 || w[s] > M then 0 else M + 1 - w[s])
  }

  /** What is read from a header: all the weights, the last one included, and how many there are of each. */
  datatype Stats = Stats(weights: seq<nat>, rankStats: seq<nat>, tableLog: nat)

  /** The stats of the complete code `lens`, of height exactly `tableLog`. */
  ghost predicate StatsOf(st: Stats, lens: seq<nat>) {
    && FullCode(lens, st.tableLog) && WeightsOf(st.weights, lens, st.tableLog)
    && 1 <= st.tableLog <= HUF_TABLELOG_MAX && |st.rankStats| == HUF_TABLELOG_MAX + 1
    && (forall w: nat {:trigger st.rankStats[w]} | 1 <= w <= st.tableLog :: st.rankStats[w] == NbOf(lens, st.tableLog + 1 - w, |lens|))
  }

  // ---------- sums ----------

  lemma {:induction false} LengthsPrefix(w: seq<nat>, M: nat)
    requires |w| > 0
    ensures Lengths(w, M)[..|w| - 1] == Lengths(w[..|w| - 1], M)
  {
  }

  ghost predicate AllAtMost(w: seq<nat>, M: nat) {
    forall s | 0 <= s < |w| :: w[s] <= M
  }

  lemma {:induction false} KraftOfWeights(w: seq<nat>, M: nat)
    requires AllAtMost(w, M)
    ensures CodeKraft(Lengths(w, M), M) == ShareSum(w)
  {
    if |w| > 0 {
      var a, z := w[..|w| - 1], w[|w| - 1];
      assert AllAtMost(a, M) && z <= M;
      KraftOfWeights(a, M);
      LengthsPrefix(w, M);
      ShareIs(z);
    }
  }

  lemma {:induction false} NbPrefix(lens: seq<nat>, n: nat, k: nat)
    requires k < |lens|
    ensures NbOf(lens[..|lens| - 1], n, k) == NbOf(lens, n, k)
  {
    if k > 0 { NbPrefix(lens, n, k - 1); }
  }

  lemma {:induction false} CountOfWeights(w: seq<nat>, M: nat, x: nat)
    requires AllAtMost(w, M) && 1 <= x <= M
    ensures Count(w, x) == NbOf(Lengths(w, M), M + 1 - x, |w|)
  {
    if |w| > 0 {
      CountOfWeights(w[..|w| - 1], M, x);
      LengthsPrefix(w, M);
      NbPrefix(Lengths(w, M), M + 1 - x, |w| - 1);
    }
  }

  lemma {:induction false} ShareBound(w: seq<nat>, s: nat)
    requires s < |w|
    ensures Share(w[s]) <= ShareSum(w)
  {
    if s < |w| - 1 { ShareBound(w[..|w| - 1], s); }
  }

  lemma {:induction false} ShareSnoc(w: seq<nat>, z: nat)
    ensures ShareSum(w + [z]) == ShareSum(w) + Share(z)
    ensures forall x: nat :: Count(w + [z], x) == Count(w, x) + (if z == x then 1 else 0)
  {
    assert (w + [z])[..|w|] == w;
  }

  // ---------- the reader ----------

  /** The weights that are stored are small enough. */
  ghost predicate Storable(w: seq<nat>) {
    forall s | 0 <= s < |w| :: w[s] < HUF_TABLELOG_MAX
  }

  /** `w` are the weights of all but the last symbol of the complete code `lens` of height exactly `M`. */
  ghost predicate HeaderOf(w: seq<nat>, lens: seq<nat>, M: nat) {
    && |lens| == |w| + 1 && 1 <= M <= HUF_TABLELOG_MAX
    && FullCode(lens, M) && lens[|w|] > 0 && (exists s :: 0 <= s < |lens| && lens[s] == M)
    && Storable(w) && (forall s | 0 <= s < |w| :: w[s] == if lens[s] == 0 then 0 else M + 1 - lens[s])
  }

  lemma {:induction false} LastFits(total: nat, rest: nat)
    requires total > 0 && rest == Pow2(HighBit(total) + 1) - total
    ensures 0 < rest <= Pow2(HighBit(total)) && HighBit(rest) <= HighBit(total)
  {
    if HighBit(rest) > HighBit(total) { Pow2Strict(HighBit(total), HighBit(rest)); }
  }

  lemma {:induction false} LastCounted(w: seq<nat>, z: nat, before: seq<nat>, after: seq<nat>)
    requires z < |before| && after == before[z := before[z] + 1]
    requires forall x: nat {:trigger before[x]} | x < |before| :: before[x] == Count(w, x)
    ensures forall x: nat {:trigger after[x]} | x < |after| :: after[x] == Count(w + [z], x)
  {
    ShareSnoc(w, z);
  }

  lemma {:induction false} WeightBelow(w: seq<nat>, M: nat)
    requires ShareSum(w) <= Pow2(M)
    ensures AllAtMost(w, M + 1)
  {
    forall s | 0 <= s < |w| ensures w[s] <= M + 1 {
      ShareBound(w, s);
      ShareIs(w[s]);
      if w[s] > M + 1 { Pow2Strict(M, w[s] - 1); }
    }
  }

  /** The completed weights are those of a complete code. */
  lemma {:induction false} CompletedCode(w: seq<nat>, z: nat, M: nat)
    requires Storable(w) && 1 <= z <= M <= HUF_TABLELOG_MAX
    requires ShareSum(w) < Pow2(M) && ShareSum(w) + Pow2(z - 1) == Pow2(M)
    ensures var lens := Lengths(w + [z], M);
            FullCode(lens, M) && WeightsOf(w + [z], lens, M) && lens[|w|] > 0
            && (forall x | 1 <= x <= M :: Count(w + [z], x) == NbOf(lens, M + 1 - x, |lens|))
  {
    var weights := w + [z];
    var lens := Lengths(weights, M);
    ShareSnoc(w, z);
    ShareIs(z);
    WeightBelow(w, M);
    forall s | 0 <= s < |w| ensures w[s] <= M {
      ShareBound(w, s);
      ShareIs(w[s]);
    }
    KraftOfWeights(weights, M);
    forall x | 1 <= x <= M ensures Count(weights, x) == NbOf(lens, M + 1 - x, |lens|) { CountOfWeights(weights, M, x); }
  }

  lemma {:induction false} SomeOf(lens: seq<nat>, n: nat, k: nat)
    requires k <= |lens|
    ensures NbOf(lens, n, k) > 0 <==> exists s :: 0 <= s < k && lens[s] == n
  {
    if k > 0 {
      SomeOf(lens, n, k - 1);
      if lens[k - 1] == n { assert 0 <= k - 1 < k; }
    }
  }

  /** The codes of full length come in pairs. */
  lemma {:induction false} LongestPaired(lens: seq<nat>, M: nat)
    requires FullCode(lens, M) && M > 0
    ensures Odd(NbOf(lens, M, |lens|)) == 0
  {
    StartDouble(lens, M, M - 1);
    HalfUnique(NbOf(lens, M, |lens|), Start(lens, M, M - 1));
  }

  lemma {:induction false} HeaderWeights(w: seq<nat>, lens: seq<nat>, M: nat)
    requires HeaderOf(w, lens, M)
    ensures lens[|w|] <= M
    ensures var weights := w + [M + 1 - lens[|w|]]; Lengths(weights, M) == lens && AllAtMost(weights, M)
  {
    hide CodeKraft;
    assert AtMost(lens, M) && lens[|w|] <= M;
  }

  /** All the weights: their lengths, and their sum. */
  lemma {:induction false} HeaderSums(w: seq<nat>, lens: seq<nat>, M: nat)
    requires HeaderOf(w, lens, M)
    ensures lens[|w|] <= M
    ensures var z := M + 1 - lens[|w|];
            1 <= z <= M && Lengths(w + [z], M) == lens && ShareSum(w) + Pow2(z - 1) == Pow2(M)
            && Count(w + [z], 1) == NbOf(lens, M, |lens|)
  {
    hide Lengths, AllAtMost, Pow2, Share, ShareSum, Count, NbOf, Storable;
    HeaderWeights(w, lens, M);
    var z := M + 1 - lens[|w|];
    var weights := w + [z];
    KraftOfWeights(weights, M);
    CountOfWeights(weights, M, 1);
    ShareSnoc(w, z);
    ShareIs(z);
  }

  lemma {:induction false} RestFound(total: nat, M: nat, z: nat)
    requires 1 <= z <= M && total + Pow2(z - 1) == Pow2(M)
    ensures total > 0 && HighBit(total) + 1 == M && HighBit(Pow2(z - 1)) == z - 1
  {
    HighBitUnique(Pow2(z - 1), z - 1);
    Pow2Strict(z - 1, M);
    HighBitUnique(total, M - 1);
  }

  /** What the reader checks, and what it finds. */
  ghost predicate Accepts(w: seq<nat>, M: nat, z: nat) {
    var total := ShareSum(w);
    && Storable(w) && total > 0 && M == HighBit(total) + 1 <= HUF_TABLELOG_MAX
    && Pow2(M) > total && z == HighBit(Pow2(M) - total) + 1 && Pow2(z - 1) == Pow2(M) - total
    && Count(w + [z], 1) >= 2 && Odd(Count(w + [z], 1)) == 0
  }

  lemma {:induction false} AcceptsHeader(w: seq<nat>, lens: seq<nat>, M: nat)
    requires HeaderOf(w, lens, M)
    ensures lens[|w|] <= M && Accepts(w, M, M + 1 - lens[|w|]) && Lengths(w + [M + 1 - lens[|w|]], M) == lens
  {
    hide FullCode, Lengths, Storable, Share, ShareSum, Count, NbOf, HighBit, Pow2, Odd;
    HeaderSums(w, lens, M);
    var z := M + 1 - lens[|w|];
    RestFound(ShareSum(w), M, z);
    LongestPaired(lens, M);
    LongestUsed(lens, M);
  }

  lemma {:induction false} LongestUsed(lens: seq<nat>, M: nat)
    requires FullCode(lens, M) && M > 0 && exists s :: 0 <= s < |lens| && lens[s] == M
    ensures NbOf(lens, M, |lens|) >= 2
  {
    LongestPaired(lens, M);
    SomeOf(lens, M, |lens|);
  }

  method FindLast(huffWeight: seq<nat>) returns (r: Result<Stats>)
    ensures r.Ok? ==> StatsOf(r.value, Lengths(r.value.weights, r.value.tableLog))
    ensures r.Ok? ==> HeaderOf(huffWeight, Lengths(r.value.weights, r.value.tableLog), r.value.tableLog)
    ensures forall M: nat, z: nat | Accepts(huffWeight, M, z) :: r.Ok? && r.value.tableLog == M && r.value.weights == huffWeight + [z]
    ensures r.Err? ==> r.error == CorruptionDetected
  {
    hide HeaderOf, StatsOf, FullCode, Lengths, Count, Share, HighBit, Odd, Pow2;
    var rankStats := new nat[HUF_TABLELOG_MAX + 1](_ => 0);
    var weightTotal := CountWeights(huffWeight, rankStats);
    if !weightTotal.Ok? { return Err(weightTotal.error); }
    var total := weightTotal.value;
    if total == 0 { return Err(CorruptionDetected); }
    var tableLog := HighBit(total) + 1;
    if tableLog > HUF_TABLELOG_MAX { return Err(CorruptionDetected); }
    BitFits(total);
    var rest := Pow2(tableLog) - total;
    LastFits(total, rest);
    var verif := Pow2(HighBit(rest));
    var lastWeight := HighBit(rest) + 1;
    if verif != rest { return Err(CorruptionDetected); }
    ghost var before := rankStats[..];
    rankStats[lastWeight] := rankStats[lastWeight] + 1;
    LastCounted(huffWeight, lastWeight, before, rankStats[..]);
    if rankStats[1] < 2 || Odd(rankStats[1]) == 1 { return Err(CorruptionDetected); }
    r := Ok(Stats(huffWeight + [lastWeight], rankStats[..], tableLog));
    Completed(huffWeight, lastWeight, tableLog, rankStats[..]);
  }

  lemma {:induction false} BitFits(x: nat)
    requires x > 0
    ensures x < Pow2(HighBit(x) + 1)
  {
  }

  /**
    Second half of HUF_readStats: counts the weights and completes the last one. It accepts exactly the
    headers of complete codes, and finds the code they are the header of.
   */
  method CompleteStats(huffWeight: seq<nat>) returns (r: Result<Stats>)
    ensures r.Ok? ==> StatsOf(r.value, Lengths(r.value.weights, r.value.tableLog))
    ensures r.Ok? ==> HeaderOf(huffWeight, Lengths(r.value.weights, r.value.tableLog), r.value.tableLog)
    ensures forall lens, M | HeaderOf(huffWeight, lens, M) ::
              r.Ok? && r.value.tableLog == M && Lengths(r.value.weights, M) == lens
    ensures r.Err? ==> r.error == CorruptionDetected
  {
    hide *;
    r := FindLast(huffWeight);
    forall lens, M | HeaderOf(huffWeight, lens, M)
      ensures r.Ok? && r.value.tableLog == M && Lengths(r.value.weights, M) == lens
    {
      AcceptsHeader(huffWeight, lens, M);
    }
  }

  /** Counts the weights, and adds up their shares. */
  method CountWeights(huffWeight: seq<nat>, rankStats: array<nat>) returns (r: Result<nat>)
    requires rankStats.Length == HUF_TABLELOG_MAX + 1 && forall x | 0 <= x < rankStats.Length :: rankStats[x] == 0
    modifies rankStats
    ensures r.Ok? <==> Storable(huffWeight)
    ensures r.Err? ==> r.error == CorruptionDetected
    ensures r.Ok? ==> r.value == ShareSum(huffWeight)
    ensures r.Ok? ==> forall x: nat {:trigger rankStats[x]} | x < rankStats.Length :: rankStats[x] == Count(huffWeight, x)
  {
    var weightTotal := 0;
    for n := 0 to |huffWeight|
      invariant Storable(huffWeight[..n]) && weightTotal == ShareSum(huffWeight[..n])
      invariant forall x: nat {:trigger rankStats[x]} | x < rankStats.Length :: rankStats[x] == Count(huffWeight[..n], x)
    {
      if huffWeight[n] >= HUF_TABLELOG_MAX { return Err(CorruptionDetected); }
      hide Share, Count;
      assert huffWeight[..n + 1] == huffWeight[..n] + [huffWeight[n]];
      ShareSnoc(huffWeight[..n], huffWeight[n]);
      rankStats[huffWeight[n]] := rankStats[huffWeight[n]] + 1;
      weightTotal := weightTotal + Share(huffWeight[n]);
    }
    assert huffWeight[..|huffWeight|] == huffWeight;
    r := Ok(weightTotal);
  }

  lemma {:induction false} Completed(w: seq<nat>, z: nat, M: nat, rankStats: seq<nat>)
    requires Storable(w) && 1 <= z <= M <= HUF_TABLELOG_MAX && |rankStats| == HUF_TABLELOG_MAX + 1
    requires ShareSum(w) + Pow2(z - 1) == Pow2(M)
    requires forall x: nat {:trigger rankStats[x]} | x < |rankStats| :: rankStats[x] == Count(w + [z], x)
    requires rankStats[1] >= 2
    ensures StatsOf(Stats(w + [z], rankStats, M), Lengths(w + [z], M))
    ensures HeaderOf(w, Lengths(w + [z], M), M)
  {
    CompletedCode(w, z, M);
    SomeOf(Lengths(w + [z], M), M, |w| + 1);
  }

  // ---------- which codes have a header ----------

  /** The weights that a header stores. */
  function StoredWeights(lens: seq<nat>, M: nat): (w: seq<nat>)
    requires |lens| > 0
    ensures |w| == |lens| - 1
  {
    seq(|lens| - 1, s requires 0 <= s < |lens| - 1 => if lens[s] == 0 || lens[s] > M then 0 else M + 1 - lens[s])
  }

  /** A complete code can be read back unless it has height 12 and a one-bit code before its last symbol. */
  lemma {:induction false} HeaderExactly(lens: seq<nat>, M: nat)
    requires |lens| > 0 && FullCode(lens, M) && 1 <= M <= HUF_TABLELOG_MAX
    requires lens[|lens| - 1] > 0 && exists s :: 0 <= s < |lens| && lens[s] == M
    ensures HeaderOf(StoredWeights(lens, M), lens, M) <==>
              !(M == HUF_TABLELOG_MAX && exists s :: 0 <= s < |lens| - 1 && lens[s] == 1)
  {
    hide CodeKraft;
    var w := StoredWeights(lens, M);
    assert AtMost(lens, M);
    if M == HUF_TABLELOG_MAX && exists s :: 0 <= s < |lens| - 1 && lens[s] == 1 {
      var s :| 0 <= s < |lens| - 1 && lens[s] == 1;
      assert w[s] == HUF_TABLELOG_MAX;
    }
  }

  /** The lengths 1, 2, ..., n. */
  function Ramp(n: nat): (l: seq<nat>)
    ensures |l| == n
  {
    seq(n, i requires 0 <= i < n => i + 1)
  }

  lemma {:induction false} RampKraft(n: nat, M: nat)
    requires n <= M
    ensures CodeKraft(Ramp(n), M) + Pow2(M - n) == Pow2(M)
  {
    if n > 0 {
      assert Ramp(n)[..n - 1] == Ramp(n - 1);
      RampKraft(n - 1, M);
    }
  }

  /** Such a code: its table can be built, but the header written for it is refused. */
  lemma {:induction false} Unreadable() returns (lens: seq<nat>)
    ensures |lens| == 13 && FullCode(lens, HUF_TABLELOG_MAX) && lens[12] == HUF_TABLELOG_MAX
    ensures !HeaderOf(StoredWeights(lens, HUF_TABLELOG_MAX), lens, HUF_TABLELOG_MAX)
  {
    var M: nat := HUF_TABLELOG_MAX;
    lens := Ramp(M) + [M];
    RampKraft(M, M);
    assert lens[..M] == Ramp(M);
    assert Pow2(0) == 1;
    assert lens[0] == 1;
    HeaderExactly(lens, M);
  }

  // ---------- the raw form: 4 bits a weight ----------

  function WeightAt(w: seq<nat>, i: nat): nat {
    if i < |w| then w[i] else 0
  }

  /** Two weights in a byte, the first one in the high half. */
  function PairByte(w: seq<nat>, k: nat): nat {
    Shl(WeightAt(w, k + k), 4) + WeightAt(w, k + k + 1)
  }

  /** `c` starts with the raw form of `w`: a size byte of 128 and up, then two weights a byte. */
  ghost predicate RawForm(c: seq<byte>, w: seq<nat>) {
    && 1 <= |w| <= 128 && AllAtMost(w, 15) && 1 + Half(|w| + 1) <= |c| && c[0] == 127 + |w|
    && forall b: nat {:trigger c[b]} | 1 <= b <= Half(|w| + 1) :: c[b] == PairByte(w, b - 1)
  }

  lemma {:induction false} PairHalves(w: seq<nat>, k: nat)
    requires AllAtMost(w, 15)
    ensures PairByte(w, k) < 256
    ensures Shr(PairByte(w, k), 4) == WeightAt(w, k + k) && Low(PairByte(w, k), 4) == WeightAt(w, k + k + 1)
  {
    var high, low := WeightAt(w, k + k), WeightAt(w, k + k + 1);
    assert high <= 15 && low <= 15;
    hide Shl, Shr, Low, WeightAt;
    SmallPowers();
    ShlBound(high, 4, 4);
    Join(low, high, 4);
  }

  /** Last part of HUF_writeCTable. */
  method WriteRaw(dst: array<byte>, start: nat, maxDstSize: nat, huffWeight: seq<nat>) returns (r: Result<nat>)
    requires start + maxDstSize <= dst.Length && |huffWeight| >= 1 && AllAtMost(huffWeight, 15)
    modifies dst
    ensures r.Err? <==> |huffWeight| > 128 || Half(|huffWeight| + 1) + 1 > maxDstSize
    ensures r.Err? ==> r.error == if |huffWeight| > 128 then Generic else DstSizeTooSmall
    ensures r.Ok? ==> r.value == Half(|huffWeight| + 1) + 1 && RawForm(dst[start..start + r.value], huffWeight)
    ensures forall k | 0 <= k < dst.Length && !(start <= k < start + maxDstSize) :: dst[k] == old(dst[k])
  {
    hide PairByte, AllAtMost, Half;
    var n := |huffWeight|;
    if n > 128 { return Err(Generic); }
    var pairs := Half(n + 1);
    if pairs + 1 > maxDstSize { return Err(DstSizeTooSmall); }
    dst[start] := 128 + (n - 1);
    for k := 0 to pairs
      invariant dst[start] == 127 + n
      invariant forall p: nat {:trigger dst[p]} | start < p <= start + k :: dst[p] == PairByte(huffWeight, p - start - 1)
      invariant forall i | 0 <= i < dst.Length && !(start <= i < start + maxDstSize) :: dst[i] == old(dst[i])
    {
      PairHalves(huffWeight, k);
      dst[start + 1 + k] := PairByte(huffWeight, k);
    }
    ghost var c := dst[start..start + pairs + 1];
    forall b: nat | 1 <= b <= pairs ensures c[b] == PairByte(huffWeight, b - 1) { assert c[b] == dst[start + b]; }
    r := Ok(pairs + 1);
  }

  /** Weight `i` as read from the raw form. */
  function RawWeight(c: seq<byte>, i: nat): nat
    requires 1 + Half(i) < |c|
  {
    if Odd(i) == 0 then Shr(c[1 + Half(i)], 4) else Low(c[1 + Half(i)], 4)
  }

  /** Half a byte for each weight, if the input has so many, and there is room for one weight more. */
  ghost predicate RawRead(src: seq<byte>, hwSize: nat, r: Result<seq<nat>>)
    requires |src| > 0 && src[0] >= 128
  {
    var n := src[0] - 127;
    if Half(n + 1) + 1 > |src| then r == Err(SrcSizeWrong)
    else if n >= hwSize then r == Err(CorruptionDetected)
    else r.Ok? && |r.value| == n && forall i: nat {:trigger r.value[i]} | i < n :: 1 + Half(i) < |src| && r.value[i] == RawWeight(src, i)
  }

  /** First part of HUF_readStats, for a size byte of 128 and up. */
  method ReadRaw(src: seq<byte>, hwSize: nat) returns (r: Result<seq<nat>>)
    requires |src| > 0 && src[0] >= 128
    ensures r.Ok? ==> |r.value| == src[0] - 127 < hwSize && 1 + Half(|r.value| + 1) <= |src|
    ensures RawRead(src, hwSize, r)
    ensures forall w | RawForm(src, w) && |w| < hwSize :: r == Ok(w)
  {
    hide Shr, Low;
    var oSize := src[0] - 127;
    var iSize := Half(oSize + 1);
    if iSize + 1 > |src| { return Err(SrcSizeWrong); }
    if oSize >= hwSize { return Err(CorruptionDetected); }
    var huffWeight := new nat[oSize + 1](_ => 0);
    HalfMono(oSize);
    for k := 0 to iSize
      invariant forall i: nat {:trigger huffWeight[i]} | i < k + k && i <= oSize :: huffWeight[i] == RawWeight(src, i)
    {
      HalfUnique(k + k, k);
      HalfUnique(k + k + 1, k);
      huffWeight[k + k] := Shr(src[1 + k], 4);
      huffWeight[k + k + 1] := Low(src[1 + k], 4);
    }
    forall w | RawForm(src, w) && |w| < hwSize ensures huffWeight[..oSize] == w {
      forall i | 0 <= i < oSize ensures huffWeight[i] == w[i] { RawWeightIs(src, w, i); }
    }
    r := Ok(huffWeight[..oSize]);
  }

  lemma {:induction false} HalfMono(n: nat)
    ensures forall i: nat | i < n :: Half(i) < Half(n + 1)
  {
  }

  lemma {:induction false} RawWeightIs(c: seq<byte>, w: seq<nat>, i: nat)
    requires RawForm(c, w) && i < |w|
    ensures 1 + Half(i) < |c| && w[i] == RawWeight(c, i)
  {
    hide PairByte, Shr, Low;
    var k := Half(i);
    PairHalves(w, k);
    assert k < Half(|w| + 1);
    assert c[1 + k] == PairByte(w, k);
  }
}
