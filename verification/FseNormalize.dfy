/**
  FSE_normalizeCount: scales the counts of the symbols to counters whose absolute values add up to 2^tableLog,
  with a second method for the distributions on which the first one rounds too badly.
 */
module FseNormalize {
  import opened Bits
  import opened Errors
  import opened FseSpread
  import opened FseCounters
  import opened FseShares

  const FSE_DEFAULT_TABLELOG := 11

  // ---------- the first method ----------

  /** One pass over the counts; stops at a symbol that makes up the whole source. */
  method ScaleCounts(norm: array<int>, count: seq<nat>, total: nat, tableLog: nat)
    returns (rle: bool, stillToDistribute: int, largest: nat)
    requires norm.Length == |count| && Normalizable(count, tableLog) && total == SumCount(count, |count|)
    modifies norm
    ensures rle <==> exists s :: 0 <= s < |count| && count[s] == total
    ensures !rle ==> norm[..] == Scaled(count, tableLog) && largest == FirstMax(norm[..])
    ensures !rle ==> stillToDistribute == Pow2(tableLog) - FreqSum(norm[..], |count|)
  {
    hide Shl, Shr, Pow2, Mul, Div, Probability, SumCount, MinTableLog;
    var scale := 62 - tableLog;
    var step := Div(0x4000_0000_0000_0000, total);
    StepPositive(total);
    stillToDistribute := Pow2(tableLog);
    largest := 0;
    var largestP := 0;
    var lowThreshold := Shr(total, tableLog);
    for s := 0 to |count|
      invariant forall k | 0 <= k < s :: count[k] != total && norm[k] == ScaledAt(count[k], total, tableLog)
      invariant FreqSum(norm[..], s) + stillToDistribute == Pow2(tableLog)
      invariant largestP > 0 ==> largest < s && norm[largest] == largestP
      invariant forall k | 0 <= k < s :: norm[k] <= largestP && (k < largest ==> norm[k] < largestP)
      invariant largestP == 0 ==> largest == 0
    {
      if count[s] == total { return true, stillToDistribute, largest; }
      ghost var before := norm[..];
      if count[s] == 0 {
        norm[s] := 0;
      } else if count[s] <= lowThreshold {
        norm[s] := -1;
        stillToDistribute := stillToDistribute - 1;
      } else {
        ProbabilityPositive(count[s], step, scale);
        var proba := Probability(count[s], step, scale);
        if proba > largestP {
          largestP := proba;
          largest := s;
        }
        norm[s] := proba;
        stillToDistribute := stillToDistribute - proba;
      }
      FreqSumSame(before, norm[..], s);
    }
    FirstFits(count, tableLog);
    assert norm[..] == Scaled(count, tableLog);
    return false, stillToDistribute, largest;
  }

  // ---------- FSE_normalizeM2 ----------

  lemma {:induction false} SumsSame(a: seq<int>, b: seq<int>, count: seq<nat>, n: nat)
    requires n <= |a| && n <= |b| && n <= |count| && forall k | 0 <= k < n :: a[k] == b[k]
    ensures Assigned(a, n) == Assigned(b, n) && Pending(a, count, n) == Pending(b, count, n)
  {
    if n > 0 { SumsSame(a, b, count, n - 1); }
  }

  lemma {:induction false} SumsUpdate(a: seq<int>, count: seq<nat>, n: nat, s: nat, v: int)
    requires s < n <= |a| && n <= |count|
    ensures Assigned(a[s := v], n) + (if a[s] == NOT_YET_ASSIGNED then 0 else Freq(a[s]))
         == Assigned(a, n) + (if v == NOT_YET_ASSIGNED then 0 else Freq(v))
    ensures Pending(a[s := v], count, n) + (if a[s] == NOT_YET_ASSIGNED then count[s] else 0)
         == Pending(a, count, n) + (if v == NOT_YET_ASSIGNED then count[s] else 0)
  {
    if s == n - 1 {
      SumsSame(a[s := v], a, count, n - 1);
    } else {
      SumsUpdate(a, count, n - 1, s, v);
    }
  }

  /** First loop: the marks. */
  method MarkSmall(norm: array<int>, count: seq<nat>, total0: nat, lowThreshold: nat, lowOne: nat)
    returns (distributed: nat, total: nat)
    requires norm.Length == |count| && total0 == SumCount(count, |count|)
    modifies norm
    ensures norm[..] == Marks(count, lowThreshold, lowOne)
    ensures distributed == Assigned(norm[..], |count|) && total == Pending(norm[..], count, |count|)
  {
    distributed, total := 0, total0;
    for s := 0 to |count|
      invariant forall k | 0 <= k < s :: norm[k] == Mark(count[k], lowThreshold, lowOne)
      invariant distributed == Assigned(norm[..], s)
      invariant total + SumCount(count, s) == total0 + Pending(norm[..], count, s)
    {
      CountBound(count, |count|, s);
      SumMonoCount(count, s + 1, |count|);
      ghost var before := norm[..];
      if count[s] == 0 {
        norm[s] := 0;
      } else if count[s] <= lowThreshold {
        norm[s] := -1;
        distributed := distributed + 1;
        total := total - count[s];
      } else if count[s] <= lowOne {
        norm[s] := 1;
        distributed := distributed + 1;
        total := total - count[s];
      } else {
        norm[s] := NOT_YET_ASSIGNED;
      }
      SumsSame(before, norm[..], count, s);
    }
  }

  lemma {:induction false} SumMonoCount(count: seq<nat>, a: nat, b: nat)
    requires a <= b <= |count|
    ensures SumCount(count, a) <= SumCount(count, b)
    decreases b
  {
    if a < b { SumMonoCount(count, a, b - 1); }
  }

  /** Second loop: a counter of 1 for more symbols, when others risk rounding to zero. */
  method MarkMore(norm: array<int>, count: seq<nat>, distributed0: nat, total0: nat, ghost low: nat, ghost one: nat, lowOne: nat)
    returns (distributed: nat, total: nat)
    requires norm.Length == |count| && norm[..] == Marks(count, low, one)
    requires distributed0 == Assigned(norm[..], |count|) && total0 == Pending(norm[..], count, |count|)
    modifies norm
    ensures norm[..] == Marks(count, low, if lowOne > one then lowOne else one)
    ensures distributed == Assigned(norm[..], |count|) && total == Pending(norm[..], count, |count|)
  {
    distributed, total := distributed0, total0;
    for s := 0 to |count|
      invariant forall k | 0 <= k < s :: norm[k] == Mark(count[k], low, if lowOne > one then lowOne else one)
      invariant forall k | s <= k < |count| :: norm[k] == Mark(count[k], low, one)
      invariant distributed == Assigned(norm[..], |count|) && total == Pending(norm[..], count, |count|)
    {
      if norm[s] == NOT_YET_ASSIGNED && count[s] <= lowOne {
        ghost var before := norm[..];
        SumsUpdate(before, count, |count|, s, 1);
        norm[s] := 1;
        assert norm[..] == before[s := 1];
        distributed := distributed + 1;
        total := total - count[s];
      }
    }
  }

  /** The symbols that are left share what is left in proportion to their counts; fails if one would get nothing. */
  method Proportional(norm: array<int>, count: seq<nat>, total: nat, toDistribute: nat, tableLog: nat) returns (r: Result<()>)
    requires norm.Length == |count| && total == Pending(norm[..], count, |count|) > 0 && tableLog <= BYTE_LIMITS.maxTableLog
    requires forall s | 0 <= s < |count| && norm[s] == NOT_YET_ASSIGNED :: count[s] > 0
    modifies norm
    ensures var shares := Shares(old(norm[..]), count, toDistribute, 62 - tableLog);
            if shares.Some? then r == Ok(()) && norm[..] == shares.value else r == Err(Generic)
  {
    hide Mul, Div, Shl, Shr, Pow2;
    ghost var marks := norm[..];
    var vStepLog := 62 - tableLog;
    var mid := Pow2(vStepLog - 1) - 1;
    var rStep := Div(Shl(toDistribute, vStepLog) + mid, total);
    var tmpTotal := mid;
    MulSmall(rStep);
    for s := 0 to |count|
      invariant forall k | s <= k < |count| :: norm[k] == marks[k]
      invariant forall k | 0 <= k < s :: norm[k] == ShareAt(marks, count, toDistribute, vStepLog, k)
      invariant forall k | 0 <= k < s && marks[k] == NOT_YET_ASSIGNED :: norm[k] > 0
      invariant tmpTotal == mid + Mul(Pending(marks, count, s), rStep)
    {
      if norm[s] == NOT_YET_ASSIGNED {
        MulAdd(Pending(marks, count, s), count[s], rStep);
        var end := tmpTotal + Mul(count[s], rStep);
        ShrMono(tmpTotal, end, vStepLog);
        var sStart := Shr(tmpTotal, vStepLog);
        var sEnd := Shr(end, vStepLog);
        var weight := sEnd - sStart;
        assert UpTo(marks, count, s, toDistribute, vStepLog) == sStart && UpTo(marks, count, s + 1, toDistribute, vStepLog) == sEnd;
        if weight < 1 { return Err(Generic); }
        norm[s] := weight;
        tmpTotal := end;
      }
    }
    ServedAll(marks, count, toDistribute, vStepLog, norm[..]);
    r := Ok(());
  }

  lemma {:induction false} ServedAll(marks: seq<int>, count: seq<nat>, rest: nat, v: nat, norm: seq<int>)
    requires |norm| == |marks| == |count| && Pending(marks, count, |marks|) > 0 && v > 0
    requires forall k | 0 <= k < |count| :: norm[k] == ShareAt(marks, count, rest, v, k)
    requires forall k | 0 <= k < |count| && marks[k] == NOT_YET_ASSIGNED :: norm[k] > 0
    ensures Shares(marks, count, rest, v) == Some(norm)
  {
    hide UpTo;
    forall s | 0 <= s < |marks| && marks[s] == NOT_YET_ASSIGNED
      ensures UpTo(marks, count, s, rest, v) < UpTo(marks, count, s + 1, rest, v)
    {
      assert norm[s] == ShareAt(marks, count, rest, v, s);
    }
    assert norm == Shares(marks, count, rest, v).value;
  }

  /** All to the most frequent symbol. */
  method GiveToMax(norm: array<int>, count: seq<nat>, toDistribute: nat)
    requires norm.Length == |count| > 0 && exists s :: 0 <= s < |count| && count[s] > 0
    modifies norm
    ensures norm[..] == old(norm[..])[FirstMax(count) := old(norm[..])[FirstMax(count)] + toDistribute]
  {
    var maxV, maxC := 0, 0;
    for s := 0 to |count|
      invariant forall k | 0 <= k < s :: count[k] <= maxC && (k < maxV ==> count[k] < maxC)
      invariant if maxC > 0 then maxV < s && count[maxV] == maxC else maxV == 0
    {
      if count[s] > maxC { maxV, maxC := s, count[s]; }
    }
    norm[maxV] := norm[maxV] + toDistribute;
  }

  /** One each in turn to the symbols that are not of low probability. */
  method RoundRobin(norm: array<int>, count: seq<nat>, toDistribute0: nat)
    requires norm.Length == |count| && Ones(norm[..], |count|) > 0
    requires forall k | 0 <= k < |count| :: norm[k] <= 1
    modifies norm
    ensures norm[..] == Evenly(old(norm[..]), toDistribute0)
  {
    hide Mul, Div, Ones;
    ghost var marks := norm[..];
    ghost var turns: nat := 0;
    ghost var high := FirstOne(marks, |marks|);
    var toDistribute, s: nat := toDistribute0, 0;
    MulSmall(Ones(marks, |marks|));
    OnesNone(marks);
    while toDistribute > 0
      invariant s < |count| && Dealt(marks, norm[..], turns, s)
      invariant Mul(turns, Ones(marks, |marks|)) + Ones(marks, s) + toDistribute == toDistribute0
      decreases toDistribute, if s <= high then high - s else |count| + high - s
    {
      OnesNext(marks, s);
      if norm[s] > 0 {
        toDistribute := toDistribute - 1;
        norm[s] := norm[s] + 1;
      }
      if s + 1 == |count| {
        MulAdd(turns, 1, Ones(marks, |marks|));
        MulSmall(Ones(marks, |marks|));
        turns, s := turns + 1, 0;
      } else {
        s := s + 1;
      }
    }
    DealtEvenly(marks, norm[..], turns, s, toDistribute0);
  }

  /** After so many whole turns, and in the next one the symbols before `s` served. */
  ghost predicate Dealt(marks: seq<int>, norm: seq<int>, turns: nat, s: nat) {
    && |norm| == |marks|
    && forall k | 0 <= k < |marks| :: norm[k] == if marks[k] == 1 then 1 + turns + (if k < s then 1 else 0) else marks[k]
  }

  ghost function FirstOne(marks: seq<int>, n: nat): (h: nat)
    requires n <= |marks| && Ones(marks, n) > 0
    ensures h < n && marks[h] == 1
  {
    if marks[n - 1] == 1 then n - 1 else FirstOne(marks, n - 1)
  }

  lemma {:induction false} OnesNone(marks: seq<int>)
    ensures Ones(marks, 0) == 0
  {
  }

  lemma {:induction false} OnesNext(marks: seq<int>, s: nat)
    requires s < |marks|
    ensures Ones(marks, s + 1) == Ones(marks, s) + (if marks[s] == 1 then 1 else 0)
  {
  }

  /** Dealing in turns is sharing evenly. */
  lemma {:induction false} DealtEvenly(marks: seq<int>, norm: seq<int>, turns: nat, s: nat, rest: nat)
    requires s < |marks| && Ones(marks, |marks|) > 0 && Dealt(marks, norm, turns, s)
    requires Mul(turns, Ones(marks, |marks|)) + Ones(marks, s) == rest
    ensures norm == Evenly(marks, rest)
  {
    hide Mul, Div, Ones;
    var all := Ones(marks, |marks|);
    OnesMono(marks, s, |marks|);
    MulSwap(turns, all);
    forall k | 0 <= k < |marks| && marks[k] == 1 ensures norm[k] == EvenAt(marks, rest, k) {
      OnesNext(marks, k);
      OnesMono(marks, k + 1, |marks|);
      if k < s { OnesMono(marks, k + 1, s); } else { OnesMono(marks, s, k); }
      if Ones(marks, s) < all {
        QuotientIs(rest, all, turns);
      } else {
        MulAdd(turns, 1, all);
        MulSmall(all);
        MulSwap(turns + 1, all);
        QuotientIs(rest, all, turns + 1);
      }
    }
    forall k | 0 <= k < |marks| ensures norm[k] == EvenAt(marks, rest, k) {}
  }

  lemma {:induction false} QuotientIs(a: nat, b: nat, q: nat)
    requires b > 0 && Mul(b, q) <= a < Mul(b, q) + b
    ensures Div(a, b) == q
  {
    hide Mul, Div;
    DivBounds(a, b);
    MulSwap(b, q);
    MulSwap(b, Div(a, b));
    if Div(a, b) < q { MulStrict(Div(a, b), q, b); }
    if q < Div(a, b) { MulStrict(q, Div(a, b), b); }
  }

  /** The state in which the last steps of FSE_normalizeM2 start. */
  ghost predicate ToFinish(norm: seq<int>, count: seq<nat>, one: nat, tableLog: nat, distributed: nat, total: nat) {
    && Normalizable(count, tableLog)
    && norm == Marks(count, Shr(SumCount(count, |count|), tableLog), one)
    && distributed == Assigned(norm, |norm|) && total == Pending(norm, count, |norm|)
  }

  /** What is left over after the marks. */
  method Finish(norm: array<int>, count: seq<nat>, ghost one: nat, tableLog: nat, distributed: nat, total: nat, toDistribute: nat)
    returns (r: Result<()>)
    requires norm.Length == |count| && ToFinish(norm[..], count, one, tableLog, distributed, total)
    requires distributed + toDistribute == Pow2(tableLog)
    requires total == 0 ==> Ones(norm[..], |count|) > 0
    modifies norm
    ensures var last := LastStep(old(norm[..]), count, toDistribute, 62 - tableLog);
            if last.Some? then r == Ok(()) && norm[..] == last.value else r == Err(Generic)
  {
    hide Assigned, Pending, Ones, Pow2, Shr, SumCount, MinTableLog, Shares, Evenly;
    SomeUsed(count, tableLog);
    if distributed == |count| {
      GiveToMax(norm, count, toDistribute);
      return Ok(());
    }
    if total == 0 {
      RoundRobin(norm, count, toDistribute);
      return Ok(());
    }
    r := Proportional(norm, count, total, toDistribute, tableLog);
  }

  lemma {:induction false} SomeUsed(count: seq<nat>, L: nat)
    requires Normalizable(count, L)
    ensures exists s :: 0 <= s < |count| && count[s] > 0
  {
    hide Shr, SumCount, MinTableLog;
    RoomForAll(count, L);
  }

  /** Truncation to U32. */
  function Trunc32(x: nat): nat {
    x % 0x1_0000_0000
  }

  /** FSE_normalizeM2. */
  method NormalizeM2(norm: array<int>, tableLog: nat, count: seq<nat>, total0: nat) returns (r: Result<()>)
    requires norm.Length == |count| && Normalizable(count, tableLog) && total0 == SumCount(count, |count|)
    modifies norm
    ensures var second := SecondMethod(count, tableLog);
            if second.Some? then r == Ok(()) && norm[..] == second.value else r == Err(Generic)
  {
    hide Assigned, Pending, Ones, SumCount, Pow2, Shr, Mul, Div, MinTableLog, LastStep, Marks;
    var lowThreshold := Shr(total0, tableLog);
    var lowOne := Trunc32(Shr(Mul(total0, 3), tableLog + 1));
    ghost var one := lowOne;
    var distributed, total := MarkSmall(norm, count, total0, lowThreshold, lowOne);
    MarksFit(count, tableLog, one);
    var toDistribute := Pow2(tableLog) - distributed;
    if toDistribute == 0 {
      NothingLeft(norm[..], count, 62 - tableLog);
      return Ok(());
    }
    if Div(total, toDistribute) > lowOne {
      MulPositive(toDistribute, 2);
      lowOne := Trunc32(Div(Mul(total, 3), Mul(toDistribute, 2)));
      distributed, total := MarkMore(norm, count, distributed, total, lowThreshold, one, lowOne);
      one := if lowOne > one then lowOne else one;
      MarksFit(count, tableLog, one);
      toDistribute := Pow2(tableLog) - distributed;
    }
    r := Finish(norm, count, one, tableLog, distributed, total, toDistribute);
  }

  /** With nothing left over the marks are the counters. */
  lemma {:induction false} NothingLeft(marks: seq<int>, count: seq<nat>, v: nat)
    requires 0 < |marks| == |count| && v > 0 && Pending(marks, count, |marks|) == 0 && Ones(marks, |marks|) > 0
    ensures LastStep(marks, count, 0, v) == Some(marks)
  {
    hide Mul, Div, Ones, Pending, Assigned;
    QuotientNone(Ones(marks, |marks|));
    forall k | 0 <= k < |marks| ensures EvenAt(marks, 0, k) == marks[k] {}
    assert Evenly(marks, 0) == marks;
    assert marks[FirstMax(count) := marks[FirstMax(count)] + 0] == marks;
  }

  lemma {:induction false} QuotientNone(b: nat)
    requires b > 0
    ensures Div(0, b) == 0
  {
  }

  // ---------- FSE_normalizeCount ----------

  /** The arguments FSE_normalizeCount refuses without looking at the counts. */
  ghost predicate NoTable(tableLog: nat, count: seq<nat>, total: nat)
    requires |count| > 1 && total > 1
  {
    tableLog < MIN_TABLELOG || tableLog > BYTE_LIMITS.maxTableLog || tableLog < MinTableLog(total, |count| - 1)
  }

  /**
    FSE_normalizeCount. A result other than 0 is the table log, and then the counters are the normalization of the
    counts: they fill the table exactly, every symbol in use and no other has one, none has the whole table, and each
    is as near to the share of its symbol as the method that decides promises. 0 means that one symbol makes up the
    whole source; an error, that the table log does not suit or the second method refuses the counts.
   */
  method NormalizeCount(norm: array<int>, tableLog0: nat, count: seq<nat>, total: nat) returns (r: Result<nat>)
    requires norm.Length == |count| > 1 && total == SumCount(count, |count|) && 1 < total < 0x1_0000_0000
    modifies norm
    ensures var tableLog := if tableLog0 == 0 then FSE_DEFAULT_TABLELOG else tableLog0;
            if NoTable(tableLog, count, total) then
              r == Err(if MIN_TABLELOG <= tableLog && tableLog > BYTE_LIMITS.maxTableLog then TableLogTooLarge else Generic)
            else if exists s :: 0 <= s < |count| && count[s] == total then
              r == Ok(0)
            else if Normalization(count, tableLog).None? then
              r == Err(Generic)
            else
              r == Ok(tableLog) && Normalization(count, tableLog) == Some(norm[..])
    ensures r.Ok? && r.value > 0 ==> Normalizable(count, r.value) && NormalFor(norm[..], count, r.value)
  {
    hide FreqSum, SumCount, Pow2, MinTableLog, Filling, Scaled, SecondMethod;
    var tableLog := if tableLog0 == 0 then FSE_DEFAULT_TABLELOG else tableLog0;
    if tableLog < MIN_TABLELOG { return Err(Generic); }
    if tableLog > BYTE_LIMITS.maxTableLog { return Err(TableLogTooLarge); }
    if tableLog < MinTableLog(total, |count| - 1) { return Err(Generic); }
    FirstFits(count, tableLog);
    var rle, stillToDistribute, largest := ScaleCounts(norm, count, total, tableLog);
    if rle { return Ok(0); }
    if -stillToDistribute >= Half(norm[largest]) {
      var m2 := NormalizeM2(norm, tableLog, count, total);
      if m2.Err? { return Err(m2.error); }
    } else {
      norm[largest] := norm[largest] + stillToDistribute;
    }
    NormalIs(norm[..], count, tableLog);
    r := Ok(tableLog);
  }

  /** Counters that fill the table, in the shares of one of the two methods, and no symbol has the whole table. */
  ghost predicate NormalFor(norm: seq<int>, count: seq<nat>, L: nat)
    requires Normalizable(count, L)
  {
    && NormOk(norm, L) && Filling(norm, count, L) && (forall s | 0 <= s < |count| :: norm[s] < Pow2(L))
    && (|| FirstWay(norm, Scaled(count, L), FirstMax(Scaled(count, L)), count, L)
        || SecondWay(norm, SingleCell(count, L), FirstMax(count), count, L))
  }

  lemma {:induction false} NormalIs(norm: seq<int>, count: seq<nat>, L: nat)
    requires Normalizable(count, L) && L >= MIN_TABLELOG && Normalization(count, L) == Some(norm)
    requires forall s | 0 <= s < |count| :: count[s] != SumCount(count, |count|)
    ensures NormalFor(norm, count, L)
  {
    hide FreqSum, SumCount, Pow2, MinTableLog, FirstWay, SecondWay, Scaled, SingleCell, Normalization;
    NormalizationFills(count, L);
    NormalizationShares(count, L);
    NoneOwnsAll(norm, count, L);
  }

  lemma {:induction false} NoneOwnsAll(norm: seq<int>, count: seq<nat>, L: nat)
    requires Fits(norm, count, |count|) && FreqSum(norm, |count|) == Pow2(L)
    requires forall s | 0 <= s < |count| :: count[s] != SumCount(count, |count|)
    ensures forall s | 0 <= s < |count| :: norm[s] < Pow2(L)
  {
    forall s | 0 <= s < |count| ensures norm[s] < Pow2(L) {
      if norm[s] >= Pow2(L) { OwnerAlone(norm, count, |count|, s); }
    }
  }

  /** If one counter is the whole sum, so is the count. */
  lemma {:induction false} OwnerAlone(norm: seq<int>, count: seq<nat>, n: nat, s: nat)
    requires s < n <= |count| && Fits(norm, count, |count|) && norm[s] >= FreqSum(norm, n)
    ensures count[s] == SumCount(count, n)
  {
    if s < n - 1 {
      SumMono(norm, s + 1, n - 1);
      OwnerAlone(norm, count, n - 1, s);
    } else {
      NoneBefore(norm, count, n - 1);
    }
  }

  lemma {:induction false} NoneBefore(norm: seq<int>, count: seq<nat>, n: nat)
    requires n <= |count| && Fits(norm, count, |count|) && FreqSum(norm, n) == 0
    ensures SumCount(count, n) == 0
  {
    if n > 0 { NoneBefore(norm, count, n - 1); }
  }
}
