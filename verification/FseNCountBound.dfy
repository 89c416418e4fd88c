/**
  How long a table description of FSE gets, against the size from which FSE_writeNCount no longer checks
  where it stores.
 */
module FseNCountBound {
  import opened Bits
  import opened FseWalk
  import opened FseSpread
  import opened FseNCount

  // ---------- the width of one counter ----------

  /** A counter takes all of its bits only if it is large. */
  lemma {:induction false} Width(x: int, remaining: nat)
    requires remaining > 1 && -1 <= x < remaining
    ensures var h := HighBit(remaining);
            CountField(x, remaining).len == if x + 1 < Pow2(h) + Pow2(h) - 1 - remaining then h else h + 1
  {
  }

  /** How many cells are taken when `remaining` is left, plus one. */
  function Taken(L: nat, remaining: nat): int {
    Pow2(L) - remaining
  }

  /** The widths against the table log, by the number of cells taken. */
  lemma {:induction false} WidthByTaken(x: int, remaining: nat, L: nat)
    requires MIN_TABLELOG <= L && 1 < remaining <= Pow2(L) + 1 && -1 <= x < remaining
    ensures var i, len := Taken(L, remaining), CountField(x, remaining).len;
            && len <= L + 1
            && (x == 0 ==> len <= L)
            && (len == L + 1 ==> i < 1 && i + Freq(x) >= Pow2(L) - 4)
            && (i >= 3 && x == 0 ==> len < L)
            && (i >= 3 && len == L ==> i + Freq(x) - 2 >= (i - 2) + (i - 2))
  {
    hide HighBit, Pow2, CountField;
    Width(x, remaining);
    LogOf(remaining, L);
  }

  lemma {:induction false} LogOf(remaining: nat, L: nat)
    requires MIN_TABLELOG <= L && 1 < remaining <= Pow2(L) + 1
    ensures remaining >= Pow2(L) ==> HighBit(remaining) == L
    ensures HighBit(remaining) <= L && Pow2(L) >= 32 && Pow2(L) == Pow2(L - 1) + Pow2(L - 1)
    ensures remaining < Pow2(L) ==> HighBit(remaining) < L
  {
    hide HighBit, Pow2;
    var h := HighBit(remaining);
    AtLeast32(L);
    PowNext(L - 1);
    PowNext(L);
    PowNext(h);
    if h > L { Pow2Mono(L + 1, h); }
    if h < L { Pow2Mono(h + 1, L); }
  }

  lemma {:induction false} AtLeast32(L: nat)
    requires MIN_TABLELOG <= L
    ensures Pow2(L) >= 32
  {
    hide Pow2;
    SmallPowers();
    PowNext(4);
    Pow2Mono(5, L);
  }

  // ---------- the bits above the table log for each symbol ----------

  /** What the rest of the description may take beyond the table log for each of its symbols. */
  function Slack(L: nat, i: int): int {
    if i < 3 then L + 5 - i - i else L - 1 - HighBit(i - 2)
  }

  lemma {:induction false} SlackDrops(L: nat, i: int, i': int)
    requires MIN_TABLELOG <= L && -1 <= i <= i' < Pow2(L)
    ensures 0 <= Slack(L, i') <= Slack(L, i)
    ensures i < i' && i < 3 ==> Slack(L, i') + 2 <= Slack(L, i)
    ensures i >= 3 && i' - 2 >= (i - 2) + (i - 2) ==> Slack(L, i') < Slack(L, i)
    ensures i' >= Pow2(L) - 4 ==> Slack(L, i') == 0
  {
    hide HighBit, Pow2;
    AtLeast32(L);
    LogOf(Pow2(L), L);
    if i' >= 3 {
      var h' := HighBit(i' - 2);
      if h' >= L { Pow2Mono(L, h'); }
      if i' >= Pow2(L) - 4 { HighBitUnique(i' - 2, L - 1); }
      if i >= 3 {
        var h := HighBit(i - 2);
        PowNext(h);
        if h' < h { Pow2Mono(h' + 1, h); PowNext(h'); }
        if h' == h && i' - 2 >= (i - 2) + (i - 2) { assert false; }
      }
    }
  }

  /** A run of zeros takes at most one bit for each of them, and two more. */
  lemma {:induction false} RunLength(n: nat)
    ensures ZeroRun(n).len <= n + 2
  {
    if n >= 24 { RunLength(n - 24); } else if n >= 3 { RunLength(n - 3); }
  }

  lemma {:induction false} TimesAtLeast(L: nat, n: nat)
    requires L >= 1
    ensures n <= Times(L, n)
  {
    if n > 0 { TimesAtLeast(L, n - 1); }
  }

  /** The part of the slack that a zero has saved for the run it opens. */
  function Saved(prev0: bool, i: int): nat {
    if prev0 && i >= 3 then 1 else 0
  }

  lemma {:induction false} TakenAt(norm: seq<int>, L: nat, i: nat)
    requires NormOk(norm, L) && i <= |norm|
    ensures 1 <= Remaining(norm, L, i) <= Pow2(L) + 1
  {
    SumMono(norm, i, |norm|);
  }

  /** The fields from symbol `i` on take the table log for each symbol, and the slack. */
  lemma {:induction false} FieldsLength(norm: seq<int>, L: nat, i: nat, prev0: bool)
    requires NormOk(norm, L) && Counters(norm) && i <= |norm|
    ensures var t := Taken(L, Remaining(norm, L, i));
            FieldsFrom(norm, L, i, prev0).len <= Times(L, |norm| - i) + Slack(L, t) + Saved(prev0, t)
    decreases |norm| - i
  {
    hide Pow2, FreqSum, CountField, ZeroRun, HighBit, Slack, Saved, Times;
    var rem := Remaining(norm, L, i);
    TakenAt(norm, L, i);
    SlackDrops(L, Taken(L, rem), Taken(L, rem));
    var j := if prev0 then FirstUsed(norm, i) else i;
    if rem > 1 && j < |norm| {
      RemainingStep(norm, L, i, j);
      FieldsLength(norm, L, j + 1, norm[j] == 0);
      var rest := FieldsFrom(norm, L, j + 1, norm[j] == 0).len;
      SymbolLength(L, norm[j], rem, rest, |norm| - j - 1, prev0);
      RunLength(j - i);
      TimesAtLeast(L, j - i);
      TimesSum(L, j - i, |norm| - j);
    }
  }

  /** One counter, with the run before it. */
  lemma {:induction false} SymbolLength(L: nat, x: int, remaining: nat, rest: nat, n: nat, prev0: bool)
    requires MIN_TABLELOG <= L && 1 < remaining <= Pow2(L) + 1 && -1 <= x < remaining && (prev0 ==> x != 0)
    requires remaining - Freq(x) >= 1
    requires var t := Taken(L, remaining - Freq(x)); rest <= Times(L, n) + Slack(L, t) + Saved(x == 0, t)
    ensures var t := Taken(L, remaining);
            (if prev0 then 2 else 0) + CountField(x, remaining).len + rest <= Times(L, n + 1) + Slack(L, t) + Saved(prev0, t)
  {
    hide Pow2, CountField, HighBit;
    var t := Taken(L, remaining);
    WidthByTaken(x, remaining, L);
    SlackDrops(L, t, t + Freq(x));
    SlackDrops(L, t, t);
    if t < 3 { SlackAtLeast(L, t); }
  }

  lemma {:induction false} SlackAtLeast(L: nat, t: int)
    requires t < 3
    ensures Slack(L, t) >= L + 1
  {
  }

  /** No description takes more than the table log for each symbol, once more the table log, and 11 bits. */
  lemma {:induction false} DescriptionLength(norm: seq<int>, L: nat)
    requires NormOk(norm, L) && Counters(norm)
    ensures 4 < NCountBits(norm, L).len <= Times(L, |norm|) + L + 11
  {
    hide Pow2, FreqSum, Times;
    FieldsLength(norm, L, 0, false);
    RemainingEnds(norm, L);
  }

  // ---------- against the size of the buffer ----------

  lemma {:induction false} ReachInBytes(n: nat, q: nat, d: nat)
    requires 1 <= n <= Times8(q) + d
    ensures Times8(Reach(n)) <= Times8(q) + d + 15
    ensures Times8(BytesFor(n)) <= Times8(q) + d + 7
  {
    hide Shr, BytesFor;
    BytePairs(n - 1);
    BytesForBounds(n);
  }

  /** A size that is enough for every description of `n` counters: what is stored stays inside, whichever branch is taken. */
  function EnoughFor(n: nat, L: nat): nat {
    Shr(Times(L, n) + L + 11 + 15, 3)
  }

  lemma {:induction false} Enough(norm: seq<int>, L: nat, bufferSize: nat)
    requires NormOk(norm, L) && bufferSize >= EnoughFor(|norm|, L)
    ensures WriteReach(norm, L, bufferSize) <= bufferSize && NCountReach(norm, L) <= bufferSize
  {
    hide NCountBits, Shr, Times, FreqSum, Pow2, NCountWriteBound, Reach;
    FieldsClean(norm, L, 0, false);
    DescriptionLength(norm, L);
    var n := NCountBits(norm, L).len;
    BytesAndBits(Times(L, |norm|) + L + 11 + 15);
    ReachInBytes(n, 0, n);
  }

  /**
    From `NCountWriteBound` on, the writer stores at most two bytes after the buffer, and the description has
    at most one byte more than it. With a table log of at most 6 the description fits.
   */
  lemma {:induction false} PastTheBound(norm: seq<int>, L: nat)
    requires NormOk(norm, L) && Counters(norm) && L <= BYTE_LIMITS.maxTableLog
    ensures var bound, size := NCountWriteBound(|norm| - 1, L), BytesFor(NCountBits(norm, L).len);
            && NCountReach(norm, L) <= bound + 2 && size <= bound + 1
            && (L <= 6 ==> NCountReach(norm, L) <= bound + 1 && size <= bound)
  {
    hide NCountBits, Shr, Times, FreqSum, Pow2, Reach, BytesFor;
    DescriptionLength(norm, L);
    var x, n := Times(L, |norm|), NCountBits(norm, L).len;
    BytesAndBits(x);
    var q := Shr(x, 3);
    ReachInBytes(n, q, x - Times8(q) + L + 11);
    if |norm| == 1 { TimesOne(L); }
  }

  lemma {:induction false} TimesOne(L: nat)
    ensures Times(L, 1) == L
  {
    assert Times(L, 0) == 0;
  }

  // ---------- the bound is too small ----------

  /** One field, and what is left after it. */
  lemma {:induction false} OneField(norm: seq<int>, L: nat, i: nat, prev0: bool, remaining: nat, h: nat)
    requires NormOk(norm, L) && Counters(norm) && i < |norm| && (prev0 ==> norm[i] != 0)
    requires Remaining(norm, L, i) == remaining > 1 && Pow2(h) <= remaining < Pow2(h) + Pow2(h)
    ensures remaining > Freq(norm[i]) && Remaining(norm, L, i + 1) == remaining - Freq(norm[i])
    ensures FieldsFrom(norm, L, i, prev0).len ==
            (if prev0 then 2 else 0) + (if norm[i] + 1 < Pow2(h) + Pow2(h) - 1 - remaining then h else h + 1)
            + FieldsFrom(norm, L, i + 1, norm[i] == 0).len
  {
    hide FreqSum, CountField, HighBit;
    HighBitUnique(remaining, h);
    RemainingStep(norm, L, i, i);
    TakenAt(norm, L, i + 1);
    Width(norm[i], remaining);
    assert ZeroRun(0).len == 2;
  }

  /** A zero, then another counter. */
  lemma {:induction false} TwoFields(norm: seq<int>, L: nat, i: nat, remaining: nat, h: nat)
    requires NormOk(norm, L) && Counters(norm) && i + 1 < |norm| && norm[i] == 0 && norm[i + 1] != 0
    requires Remaining(norm, L, i) == remaining > 1 && Pow2(h) <= remaining < Pow2(h) + Pow2(h)
    ensures remaining > Freq(norm[i + 1]) && Remaining(norm, L, i + 2) == remaining - Freq(norm[i + 1])
    ensures var max := Pow2(h) + Pow2(h) - 1 - remaining;
            FieldsFrom(norm, L, i, false).len ==
            2 + (if 1 < max then h else h + 1) + (if norm[i + 1] + 1 < max then h else h + 1) + FieldsFrom(norm, L, i + 2, false).len
  {
    hide FreqSum, FieldsFrom, Remaining, Pow2;
    OneField(norm, L, i, false, remaining, h);
    OneField(norm, L, i + 1, true, remaining, h);
  }

  lemma {:induction false} Powers()
    ensures Pow2(1) == 2 && Pow2(2) == 4 && Pow2(3) == 8 && Pow2(4) == 16 && Pow2(5) == 32 && Pow2(6) == 64
    ensures Pow2(7) == 128 && Pow2(8) == 256 && Pow2(9) == 512 && Pow2(0) == 1
  {
    PowNext(0);
    PowNext(1);
    PowNext(2);
    PowNext(3);
    PowNext(4);
    PowNext(5);
    PowNext(6);
    PowNext(7);
    PowNext(8);
  }

  lemma {:induction false} FirstSums(norm: seq<int>)
    requires |norm| > 0
    ensures FreqSum(norm, 0) == 0 && FreqSum(norm, 1) == Freq(norm[0])
  {
  }

  lemma {:induction false} SumPair(norm: seq<int>, i: nat)
    requires i + 1 < |norm|
    ensures FreqSum(norm, i + 2) == FreqSum(norm, i) + Freq(norm[i]) + Freq(norm[i + 1])
  {
  }

  lemma {:induction false} BoundIs(maxSymbolValue: nat, L: nat, x: nat, q: nat)
    requires maxSymbolValue > 0 && Times(L, maxSymbolValue + 1) == x && Times8(q) <= x < Times8(q) + 8
    ensures NCountWriteBound(maxSymbolValue, L) == q + 3
  {
    hide Times, Shr;
    BytesAndBits(x);
  }

  lemma {:induction false} ReachIsBytes(n: nat, k: nat)
    requires 0 < n && Times8(k) - 7 <= n <= Times8(k)
    ensures BytesFor(n) == k && k <= Reach(n) <= k + 1 && Odd(Reach(n)) == 0
  {
    hide Shr, BytesFor, Times8;
    BytesForBounds(n);
    BytePairs(n - 1);
    HalfUnique(Reach(n), Shr(n - 1, 4) + 1);
    SameBytes(k, BytesFor(n), Shr(n - 1, 4), n);
  }

  lemma {:induction false} SameBytes(k: nat, b: nat, q: nat, n: nat)
    requires n > 0 && Times8(k) - 7 <= n <= Times8(k) && n <= Times8(b) <= n + 7
    requires Times8(q) + Times8(q) <= n - 1 < Times8(q) + Times8(q) + 16
    ensures b == k && k <= q + q + 2 <= k + 1
  {
  }

  function Alternating(): (norm: seq<int>) {
    [1, 0, 1, 0, 1, 0, 1, 0, 1, 0, 27]
  }

  lemma {:induction false} AlternatingOk()
    ensures NormOk(Alternating(), 5) && Counters(Alternating())
  {
    hide FreqSum, Pow2;
    var norm := Alternating();
    Powers();
    FirstSums(norm);
    SumPair(norm, 1);
    SumPair(norm, 3);
    SumPair(norm, 5);
    SumPair(norm, 7);
    SumPair(norm, 9);
  }

  lemma {:induction false} AlternatingBits()
    ensures NormOk(Alternating(), 5) && Counters(Alternating()) && NCountBits(Alternating(), 5).len == 67
  {
    hide FreqSum, FieldsFrom, Remaining, Pow2, NormOk;
    var norm := Alternating();
    Powers();
    AlternatingOk();
    RemainingEnds(norm, 5);
    OneField(norm, 5, 0, false, 33, 5);
    TwoFields(norm, 5, 1, 32, 5);
    TwoFields(norm, 5, 3, 31, 4);
    TwoFields(norm, 5, 5, 30, 4);
    TwoFields(norm, 5, 7, 29, 4);
    TwoFields(norm, 5, 9, 28, 4);
    NothingMore(norm, 5, 11, false);
  }

  /** A description of 9 bytes, the bound for it; the last store ends one byte later. */
  lemma {:induction false} StoresPastBound()
    ensures NormOk(Alternating(), 5) && NCountWriteBound(|Alternating()| - 1, 5) == 9
    ensures NCountReach(Alternating(), 5) == WriteReach(Alternating(), 5, 9) == 10
  {
    hide NormOk, NCountBits, Reach, BytesFor, NCountWriteBound;
    AlternatingBits();
    BoundIs(10, 5, 55, 6);
    ReachIsBytes(67, 9);
    HalfUnique(9, 4);
  }

  /** Every second counter. */
  function Second(): (x: seq<int>) {
    [1, 1, 1, 1, 1, 2, 4, 8, 16, 32, 445]
  }

  function Doubling(): (norm: seq<int>)
    ensures |norm| == 22
  {
    seq(22, i requires 0 <= i < 22 => if Odd(i) == 0 then 0 else Second()[Half(i)])
  }

  lemma {:induction false} DoublingAt(k: nat)
    requires k < 11
    ensures Doubling()[k + k] == 0 && Doubling()[k + k + 1] == Second()[k]
  {
    hide Second;
    HalfUnique(k + k, k);
    HalfUnique(k + k + 1, k);
  }

  lemma {:induction false} DoublingCounters()
    ensures Counters(Doubling())
  {
    forall i | 0 <= i < 22 ensures Doubling()[i] >= -1 {
      DoublingAt(Half(i));
      SecondPositive(Half(i));
    }
  }

  lemma {:induction false} SecondPositive(k: nat)
    requires k < 11
    ensures Second()[k] > 0
  {
  }

  lemma {:induction false} DoublingSum(k: nat, i: nat, x: nat)
    requires k < 11 && i == k + k && Second()[k] == x
    ensures FreqSum(Doubling(), i + 2) == FreqSum(Doubling(), i) + x
  {
    hide FreqSum, Second, Doubling;
    DoublingAt(k);
    SumPair(Doubling(), i);
  }

  lemma {:induction false} DoublingStep(k: nat, i: nat, x: nat, remaining: nat, h: nat)
    requires NormOk(Doubling(), 9) && Counters(Doubling()) && k < 11 && i == k + k && Second()[k] == x > 0
    requires Remaining(Doubling(), 9, i) == remaining > 1 && Pow2(h) <= remaining < Pow2(h) + Pow2(h)
    ensures remaining > x && Remaining(Doubling(), 9, i + 2) == remaining - x
    ensures var max := Pow2(h) + Pow2(h) - 1 - remaining;
            FieldsFrom(Doubling(), 9, i, false).len ==
            2 + (if 1 < max then h else h + 1) + (if x + 1 < max then h else h + 1) + FieldsFrom(Doubling(), 9, i + 2, false).len
  {
    hide FreqSum, FieldsFrom, Remaining, Pow2, NormOk, Doubling, Second;
    DoublingAt(k);
    TwoFields(Doubling(), 9, i, remaining, h);
  }

  lemma {:induction false} DoublingOk()
    ensures NormOk(Doubling(), 9) && Counters(Doubling())
  {
    hide FreqSum, Pow2, Doubling;
    Powers();
    FirstSums(Doubling());
    DoublingCounters();
    DoublingSum(0, 0, 1);
    DoublingSum(1, 2, 1);
    DoublingSum(2, 4, 1);
    DoublingSum(3, 6, 1);
    DoublingSum(4, 8, 1);
    DoublingSum(5, 10, 2);
    DoublingSum(6, 12, 4);
    DoublingSum(7, 14, 8);
    DoublingSum(8, 16, 16);
    DoublingSum(9, 18, 32);
    DoublingSum(10, 20, 445);
  }

  lemma {:induction false} DoublingBits()
    ensures NormOk(Doubling(), 9) && Counters(Doubling()) && NCountBits(Doubling(), 9).len == 217
  {
    hide FreqSum, FieldsFrom, Remaining, Pow2, NormOk, Doubling;
    Powers();
    DoublingOk();
    RemainingEnds(Doubling(), 9);
    DoublingStep(0, 0, 1, 513, 9);
    DoublingStep(1, 2, 1, 512, 9);
    DoublingStep(2, 4, 1, 511, 8);
    DoublingStep(3, 6, 1, 510, 8);
    DoublingStep(4, 8, 1, 509, 8);
    DoublingStep(5, 10, 2, 508, 8);
    DoublingStep(6, 12, 4, 506, 8);
    DoublingStep(7, 14, 8, 502, 8);
    DoublingStep(8, 16, 16, 494, 8);
    DoublingStep(9, 18, 32, 478, 8);
    DoublingStep(10, 20, 445, 446, 8);
    NothingMore(Doubling(), 9, 22, false);
  }

  /** A description of 28 bytes, one more than the bound for it. */
  lemma {:induction false} LongerThanBound()
    ensures NormOk(Doubling(), 9) && Counters(Doubling()) && NCountWriteBound(|Doubling()| - 1, 9) == 27
    ensures BytesFor(NCountBits(Doubling(), 9).len) == 28
  {
    hide NormOk, NCountBits, Reach, BytesFor, Doubling, NCountWriteBound;
    DoublingBits();
    assert Times(9, 11) == 99;
    TimesSum(9, 11, 11);
    BoundIs(21, 9, 198, 24);
    ReachIsBytes(217, 28);
  }
}
