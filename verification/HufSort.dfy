/**
  HUF_sort: a bucket sort of the symbols by the highest bit of their count, each bucket kept in decreasing
  order by insertion.
 */
module HufSort {
  import opened Bits

  const RANK_POSITION_TABLE_SIZE := 32

  /** Counts small enough for the rank table. */
  ghost predicate CountsOk(count: seq<nat>) {
    |count| > 0 && forall s | 0 <= s < |count| :: count[s] + 1 < Pow2(31)
  }

  /** The bucket of a count. */
  function RankOf(c: nat): nat {
    HighBit(c + 1)
  }

  /** Symbols below `n` in bucket `r` or a higher one. */
  function Num(count: seq<nat>, r: nat, n: nat): nat
    requires n <= |count|
  {
    if n == 0 then 0 else Num(count, r, n - 1) + (if RankOf(count[n - 1]) >= r then 1 else 0)
  }

  /** Symbols below `n` in bucket `r`. */
  function Size(count: seq<nat>, r: nat, n: nat): nat
    requires n <= |count|
  {
    if n == 0 then 0 else Size(count, r, n - 1) + (if RankOf(count[n - 1]) == r then 1 else 0)
  }

  ghost predicate Below(b: seq<nat>, n: nat) {
    forall k | 0 <= k < |b| :: b[k] < n
  }

  /** Symbol `s` inserted after the symbols that are at least as frequent. */
  ghost function InsertSymbol(count: seq<nat>, b: seq<nat>, s: nat): seq<nat>
    requires s < |count| && Below(b, |count|)
  {
    if |b| == 0 || count[s] <= count[b[|b| - 1]] then b + [s]
    else InsertSymbol(count, b[..|b| - 1], s) + [b[|b| - 1]]
  }

  /** Contents of bucket `r` after `n` symbols. */
  ghost function Bucket(count: seq<nat>, r: nat, n: nat): (b: seq<nat>)
    requires n <= |count|
    ensures Below(b, n)
  {
    if n == 0 then []
    else if RankOf(count[n - 1]) == r then
      InsertHas(count, Bucket(count, r, n - 1), n - 1);
      InsertSymbol(count, Bucket(count, r, n - 1), n - 1)
    else Bucket(count, r, n - 1)
  }

  lemma {:induction false} InsertHas(count: seq<nat>, b: seq<nat>, s: nat)
    requires s < |count| && Below(b, |count|)
    ensures |InsertSymbol(count, b, s)| == |b| + 1
    ensures forall k | 0 <= k <= |b| :: InsertSymbol(count, b, s)[k] == s || InsertSymbol(count, b, s)[k] in b
    ensures s in InsertSymbol(count, b, s)
    ensures forall k | 0 <= k < |b| :: b[k] in InsertSymbol(count, b, s)
  {
    if |b| > 0 && count[s] > count[b[|b| - 1]] {
      var a, z := b[..|b| - 1], b[|b| - 1];
      InsertHas(count, a, s);
      var c := InsertSymbol(count, a, s);
      assert z == (c + [z])[|c|];
      forall k | 0 <= k < |b| ensures b[k] in c + [z] {
        if k < |a| { assert a[k] in c; }
      }
      forall k | 0 <= k <= |b| ensures (c + [z])[k] == s || (c + [z])[k] in b {
        if k < |c| && c[k] != s {
          var i :| 0 <= i < |a| && a[i] == c[k];
          assert b[i] == c[k];
        }
      }
    }
  }

  /** The order of the table: more frequent symbols first, equally frequent ones in the order of their values. */
  ghost predicate Ahead(count: seq<nat>, a: nat, b: nat) {
    a < |count| && b < |count| && (count[a] > count[b] || (count[a] == count[b] && a < b))
  }

  ghost predicate Decreasing(count: seq<nat>, b: seq<nat>) {
    Below(b, |count|) && forall p, q | 0 <= p < q < |b| :: Ahead(count, b[p], b[q])
  }

  ghost predicate Distinct(b: seq<nat>) {
    forall p, q | 0 <= p < q < |b| :: b[p] != b[q]
  }

  lemma {:induction false} InsertOrder(count: seq<nat>, b: seq<nat>, s: nat)
    requires s < |count| && Decreasing(count, b) && Distinct(b) && Below(b, s)
    ensures Decreasing(count, InsertSymbol(count, b, s)) && Distinct(InsertSymbol(count, b, s))
  {
    if |b| == 0 || count[s] <= count[b[|b| - 1]] {
      EndAhead(count, b, s);
      AppendOrder(count, b, s);
    } else {
      var a, z := b[..|b| - 1], b[|b| - 1];
      InsertOrder(count, a, s);
      InsertHas(count, a, s);
      var c := InsertSymbol(count, a, s);
      forall k | 0 <= k < |c| ensures Ahead(count, c[k], z) && c[k] != z {
        if c[k] != s {
          var i :| 0 <= i < |a| && a[i] == c[k];
          assert b[i] == c[k];
        }
      }
      hide InsertSymbol;
      AppendOrder(count, c, z);
    }
  }

  lemma {:induction false} EndAhead(count: seq<nat>, b: seq<nat>, s: nat)
    requires s < |count| && Decreasing(count, b) && Below(b, s) && (|b| == 0 || count[s] <= count[b[|b| - 1]])
    ensures forall k | 0 <= k < |b| :: Ahead(count, b[k], s) && b[k] != s
  {
    forall k | 0 <= k < |b| ensures Ahead(count, b[k], s) {
      if k < |b| - 1 { assert Ahead(count, b[k], b[|b| - 1]); }
    }
  }

  lemma {:induction false} AppendOrder(count: seq<nat>, c: seq<nat>, z: nat)
    requires z < |count| && Decreasing(count, c) && Distinct(c)
    requires forall k | 0 <= k < |c| :: Ahead(count, c[k], z) && c[k] != z
    ensures Decreasing(count, c + [z]) && Distinct(c + [z])
  {
  }

  /** A bucket holds its symbols, each once, the most frequent first. */
  ghost predicate BucketOk(count: seq<nat>, b: seq<nat>, r: nat, n: nat)
    requires n <= |count|
  {
    && Decreasing(count, b) && Distinct(b) && |b| == Size(count, r, n)
    && (forall k | 0 <= k < |b| :: b[k] < n && RankOf(count[b[k]]) == r)
    && (forall s | 0 <= s < n && RankOf(count[s]) == r :: s in b)
  }

  lemma {:induction false} BucketOrder(count: seq<nat>, r: nat, n: nat)
    requires n <= |count|
    ensures BucketOk(count, Bucket(count, r, n), r, n)
  {
    if n > 0 {
      hide InsertSymbol, RankOf, Decreasing, Distinct;
      BucketOrder(count, r, n - 1);
      var b, b' := Bucket(count, r, n - 1), Bucket(count, r, n);
      if RankOf(count[n - 1]) == r {
        InsertBucket(count, b, n - 1, r);
        hide Bucket, BucketOk;
        BucketGrows(count, b, b', r, n);
      } else {
        BucketSame(count, b, r, n);
      }
    } else {
      assert Bucket(count, r, n) == [];
    }
  }

  lemma {:induction false} BucketSame(count: seq<nat>, b: seq<nat>, r: nat, n: nat)
    requires 0 < n <= |count| && BucketOk(count, b, r, n - 1) && RankOf(count[n - 1]) != r
    ensures BucketOk(count, b, r, n)
  {
    hide RankOf, Decreasing, Distinct;
  }

  lemma {:induction false} InsertBucket(count: seq<nat>, b: seq<nat>, s: nat, r: nat)
    requires s < |count| && BucketOk(count, b, r, s)
    ensures var b' := InsertSymbol(count, b, s);
            Decreasing(count, b') && Distinct(b') && |b'| == |b| + 1 && s in b'
            && (forall k | 0 <= k <= |b| :: b'[k] == s || b'[k] in b)
            && (forall k | 0 <= k < |b| :: b[k] in b')
  {
    hide InsertSymbol, RankOf, Distinct;
    InsertHas(count, b, s);
    InsertOrder(count, b, s);
  }

  lemma {:induction false} BucketGrows(count: seq<nat>, b: seq<nat>, b': seq<nat>, r: nat, n: nat)
    requires 0 < n <= |count| && BucketOk(count, b, r, n - 1) && RankOf(count[n - 1]) == r
    requires Decreasing(count, b') && Distinct(b') && |b'| == |b| + 1 && n - 1 in b'
    requires forall k | 0 <= k <= |b| :: b'[k] == n - 1 || b'[k] in b
    requires forall k | 0 <= k < |b| :: b[k] in b'
    ensures BucketOk(count, b', r, n)
  {
    hide RankOf, Decreasing, Distinct;
    forall k | 0 <= k < |b'| ensures b'[k] < n && RankOf(count[b'[k]]) == r {
      if b'[k] != n - 1 { var i :| 0 <= i < |b| && b[i] == b'[k]; }
    }
    forall s | 0 <= s < n && RankOf(count[s]) == r ensures s in b' {
      if s < n - 1 { var i :| 0 <= i < |b| && b[i] == s; }
    }
  }

  lemma {:induction false} NumSize(count: seq<nat>, r: nat, n: nat)
    requires n <= |count|
    ensures Num(count, r, n) == Num(count, r + 1, n) + Size(count, r, n)
  {
    if n > 0 { NumSize(count, r, n - 1); }
  }

  lemma {:induction false} SizeMono(count: seq<nat>, r: nat, a: nat, b: nat)
    requires a <= b <= |count|
    ensures Size(count, r, a) <= Size(count, r, b)
    decreases b
  {
    if a < b { SizeMono(count, r, a, b - 1); }
  }

  lemma {:induction false} NumMono(count: seq<nat>, q: nat, r: nat, n: nat)
    requires q <= r && n <= |count|
    ensures Num(count, r, n) <= Num(count, q, n)
  {
    if n > 0 { NumMono(count, q, r, n - 1); }
  }

  lemma {:induction false} NumAll(count: seq<nat>, n: nat)
    requires n <= |count|
    ensures Num(count, 0, n) == n
  {
    if n > 0 { NumAll(count, n - 1); }
  }

  lemma {:induction false} RankBound(count: seq<nat>, s: nat)
    requires CountsOk(count) && s < |count|
    ensures RankOf(count[s]) <= 30
  {
    hide Pow2;
    HighBitBelow(count[s] + 1, 31);
  }

  // ---------- the table ----------

  /** Bucket `r` lies in the table from the position after all higher buckets. */
  ghost predicate BucketAt(huffByte: seq<nat>, huffCount: seq<nat>, count: seq<nat>, r: nat, n: nat)
    requires n <= |count|
  {
    var start, b := Num(count, r + 1, |count|), Bucket(count, r, n);
    && start + |b| <= |huffByte| == |huffCount|
    && (forall k | 0 <= k < |b| :: huffByte[start + k] == b[k] && huffCount[start + k] == count[b[k]])
  }

  ghost predicate AllBuckets(huffByte: seq<nat>, huffCount: seq<nat>, count: seq<nat>, n: nat)
    requires n <= |count|
  {
    forall r: nat | r <= 30 :: BucketAt(huffByte, huffCount, count, r, n)
  }

  /** A sorted table: all symbols, each once, the most frequent first, equally frequent ones in the order of their values. */
  ghost predicate SortedTable(huffByte: seq<nat>, huffCount: seq<nat>, count: seq<nat>) {
    && |huffByte| == |huffCount| >= |count|
    && (forall k | 0 <= k < |count| :: huffByte[k] < |count| && huffCount[k] == count[huffByte[k]])
    && (forall j, k | 0 <= j < k < |count| :: huffCount[j] >= huffCount[k] && huffByte[j] != huffByte[k]
                                              && (huffCount[j] == huffCount[k] ==> huffByte[j] < huffByte[k]))
    && (forall s | 0 <= s < |count| :: Placed(huffByte, |count|, s))
  }

  ghost predicate Placed(huffByte: seq<nat>, n: nat, s: nat) {
    n <= |huffByte| && exists k :: 0 <= k < n && huffByte[k] == s
  }

  /** The bucket that position `k` of the table belongs to. */
  lemma {:induction false} BucketOfPosition(count: seq<nat>, k: nat, r: nat) returns (q: nat)
    requires k < Num(count, 0, |count|) && Num(count, r, |count|) <= k
    ensures q < r && Num(count, q + 1, |count|) <= k < Num(count, q, |count|)
  {
    if k < Num(count, r - 1, |count|) {
      q := r - 1;
    } else {
      q := BucketOfPosition(count, k, r - 1);
    }
  }

  lemma {:induction false} NoneAbove(count: seq<nat>, n: nat)
    requires CountsOk(count) && n <= |count|
    ensures Num(count, 31, n) == 0
  {
    if n > 0 {
      NoneAbove(count, n - 1);
      RankBound(count, n - 1);
    }
  }

  lemma {:induction false} TableEntry(huffByte: seq<nat>, huffCount: seq<nat>, count: seq<nat>, k: nat) returns (q: nat)
    requires CountsOk(count) && AllBuckets(huffByte, huffCount, count, |count|) && k < |count|
    ensures q <= 30 && Num(count, q + 1, |count|) <= k < Num(count, q, |count|)
    ensures k < |huffByte| == |huffCount| && huffByte[k] < |count| && huffCount[k] == count[huffByte[k]]
    ensures RankOf(count[huffByte[k]]) == q
    ensures var b, start := Bucket(count, q, |count|), Num(count, q + 1, |count|);
            k - start < |b| && huffByte[k] == b[k - start]
  {
    NumAll(count, |count|);
    NoneAbove(count, |count|);
    q := BucketOfPosition(count, k, 31);
    NumSize(count, q, |count|);
    BucketOrder(count, q, |count|);
    assert BucketAt(huffByte, huffCount, count, q, |count|);
    var b, start := Bucket(count, q, |count|), Num(count, q + 1, |count|);
    assert huffByte[start + (k - start)] == b[k - start];
  }

  lemma {:induction false} RankOrder(c: nat, d: nat)
    requires RankOf(c) > RankOf(d)
    ensures c > d
  {
    Pow2Strict(RankOf(d), RankOf(c));
  }

  /** Full buckets make a sorted table. */
  lemma {:induction false} BucketsSorted(huffByte: seq<nat>, huffCount: seq<nat>, count: seq<nat>)
    requires CountsOk(count) && AllBuckets(huffByte, huffCount, count, |count|)
    ensures SortedTable(huffByte, huffCount, count)
  {
    hide AllBuckets, CountsOk, Bucket, RankOf, Num;
    LastPlaced(huffByte, huffCount, count);
    forall k | 0 <= k < |count| ensures k < |huffByte| == |huffCount| && huffByte[k] < |count| && huffCount[k] == count[huffByte[k]] {
      var q := TableEntry(huffByte, huffCount, count, k);
    }
    forall j, k | 0 <= j < k < |count|
      ensures huffCount[j] >= huffCount[k] && huffByte[j] != huffByte[k] && (huffCount[j] == huffCount[k] ==> huffByte[j] < huffByte[k])
    {
      EntryOrder(huffByte, huffCount, count, j, k);
    }
    forall s | 0 <= s < |count| ensures Placed(huffByte, |count|, s) { SymbolPlaced(huffByte, huffCount, count, s); }
  }

  lemma {:induction false} EntryOrder(huffByte: seq<nat>, huffCount: seq<nat>, count: seq<nat>, j: nat, k: nat)
    requires CountsOk(count) && AllBuckets(huffByte, huffCount, count, |count|) && j < k < |count|
    ensures k < |huffByte| == |huffCount|
    ensures huffCount[j] >= huffCount[k] && huffByte[j] != huffByte[k] && (huffCount[j] == huffCount[k] ==> huffByte[j] < huffByte[k])
  {
    hide AllBuckets, CountsOk, Bucket, RankOf, Num;
    var p := TableEntry(huffByte, huffCount, count, j);
    var q := TableEntry(huffByte, huffCount, count, k);
    if p < q { NumMono(count, p + 1, q, |count|); }
    if q < p { RankOrder(huffCount[j], huffCount[k]); }
    if p == q { BucketOrder(count, q, |count|); }
  }

  lemma {:induction false} SymbolPlaced(huffByte: seq<nat>, huffCount: seq<nat>, count: seq<nat>, s: nat)
    requires CountsOk(count) && AllBuckets(huffByte, huffCount, count, |count|) && s < |count|
    ensures Placed(huffByte, |count|, s)
  {
    var r := RankOf(count[s]);
    RankBound(count, s);
    BucketOrder(count, r, |count|);
    NumSize(count, r, |count|);
    NumMono(count, 0, r, |count|);
    NumAll(count, |count|);
    assert BucketAt(huffByte, huffCount, count, r, |count|);
    var b, start := Bucket(count, r, |count|), Num(count, r + 1, |count|);
    var k :| 0 <= k < |b| && b[k] == s;
    assert huffByte[start + k] == s && start + k < |count|;
    assert |count| <= |huffByte| by { LastPlaced(huffByte, huffCount, count); }
  }

  lemma {:induction false} LastPlaced(huffByte: seq<nat>, huffCount: seq<nat>, count: seq<nat>)
    requires CountsOk(count) && AllBuckets(huffByte, huffCount, count, |count|)
    ensures 0 < |count| <= |huffByte| == |huffCount|
  {
    var q := TableEntry(huffByte, huffCount, count, |count| - 1);
  }

  lemma {:induction false} EntryUnique(a: seq<nat>, ca: seq<nat>, b: seq<nat>, cb: seq<nat>, count: seq<nat>, n: nat)
    requires SortedTable(a, ca, count) && SortedTable(b, cb, count) && n < |count|
    requires forall k | 0 <= k < n :: a[k] == b[k]
    ensures a[n] == b[n] && ca[n] == cb[n]
  {
    assert Placed(b, |count|, a[n]) && Placed(a, |count|, b[n]);
    var i :| 0 <= i < |count| && b[i] == a[n];
    var j :| 0 <= j < |count| && a[j] == b[n];
  }

  /** There is only one such table. */
  lemma {:induction false} TableUnique(a: seq<nat>, ca: seq<nat>, b: seq<nat>, cb: seq<nat>, count: seq<nat>, n: nat)
    requires SortedTable(a, ca, count) && SortedTable(b, cb, count) && n <= |count|
    ensures n <= |a| == |ca| && n <= |b| == |cb|
    ensures forall k | 0 <= k < n :: a[k] == b[k] && ca[k] == cb[k]
  {
    TableSize(a, ca, count);
    TableSize(b, cb, count);
    hide SortedTable;
    if n > 0 {
      TableUnique(a, ca, b, cb, count, n - 1);
      EntryUnique(a, ca, b, cb, count, n - 1);
    }
  }

  lemma {:induction false} TableSize(huffByte: seq<nat>, huffCount: seq<nat>, count: seq<nat>)
    requires SortedTable(huffByte, huffCount, count)
    ensures |huffByte| == |huffCount| >= |count|
  {
  }

  // ---------- the method ----------

  /** Start of every bucket: first the sizes, then their sums from the highest rank down. */
  method RankBases(count: seq<nat>, base: array<nat>)
    requires CountsOk(count) && base.Length == RANK_POSITION_TABLE_SIZE
    requires forall r | 0 <= r < base.Length :: base[r] == 0
    modifies base
    ensures forall r: nat {:trigger base[r]} | r < base.Length :: base[r] == Num(count, r, |count|)
  {
    hide RankOf, CountsOk;
    for n := 0 to |count|
      invariant forall r: nat {:trigger base[r]} | r < base.Length :: base[r] == Size(count, r, n)
    {
      RankBound(count, n);
      var r := RankOf(count[n]);
      base[r] := base[r] + 1;
    }
    NoneAbove(count, |count|);
    NumSize(count, 31, |count|);
    NumSize(count, 30, |count|);
    for n := 30 downto 0
      invariant forall r: nat {:trigger base[r]} | r < base.Length ::
                  base[r] == if r < n then Size(count, r, |count|) else Num(count, r, |count|)
    {
      hide Num, Size;
      NumSize(count, n, |count|);
      base[n] := base[n] + base[n + 1];
    }
  }

  /** Inserts symbol `s` into the bucket `b` that ends at position `end`. */
  method InsertInto(count: seq<nat>, huffByte: array<nat>, huffCount: array<nat>, start: nat, end: nat, s: nat, ghost b: seq<nat>)
    requires huffByte != huffCount && start + |b| == end < huffByte.Length == huffCount.Length
    requires s < |count| && Below(b, |count|)
    requires forall k | 0 <= k < |b| :: huffByte[start + k] == b[k] && huffCount[start + k] == CountOf(count, b[k])
    modifies huffByte, huffCount
    ensures var b' := InsertSymbol(count, b, s);
            |b'| == |b| + 1 && Below(b', |count|)
            && forall k | 0 <= k < |b'| :: huffByte[start + k] == b'[k] && huffCount[start + k] == CountOf(count, b'[k])
    ensures forall k | 0 <= k < huffByte.Length && !(start <= k <= end) ::
              huffByte[k] == old(huffByte[k]) && huffCount[k] == old(huffCount[k])
  {
    hide InsertSymbol, Below;
    var c, pos := count[s], end;
    InsertWhole(count, b, s);
    while pos > start && c > huffCount[pos - 1]
      invariant start <= pos <= end
      invariant Inserting(count, b, s, pos - start)
      invariant forall k | 0 <= k < pos - start :: huffByte[start + k] == b[k] && huffCount[start + k] == CountOf(count, b[k])
      invariant forall k | pos - start <= k < |b| :: huffByte[start + k + 1] == b[k] && huffCount[start + k + 1] == CountOf(count, b[k])
      invariant forall k | 0 <= k < huffByte.Length && !(start <= k <= end) ::
                  huffByte[k] == old(huffByte[k]) && huffCount[k] == old(huffCount[k])
    {
      InsertEarlier(count, b, s, pos - start);
      huffCount[pos], huffByte[pos] := huffCount[pos - 1], huffByte[pos - 1];
      pos := pos - 1;
    }
    huffCount[pos] := c;
    huffByte[pos] := s;
    InsertHere(count, b, s, pos - start);
    ghost var i := pos - start;
    ghost var b' := b[..i] + [s] + b[i..];
    forall k | 0 <= k < |b'| ensures huffByte[start + k] == b'[k] && huffCount[start + k] == CountOf(count, b'[k]) {
      if k > i { assert b'[k] == b[k - 1] && huffByte[start + (k - 1) + 1] == b[k - 1]; }
    }
  }

  ghost function CountOf(count: seq<nat>, s: nat): nat {
    if s < |count| then count[s] else 0
  }

  /** Symbol `s` goes somewhere into the first `i` symbols. */
  ghost predicate Inserting(count: seq<nat>, b: seq<nat>, s: nat, i: nat) {
    i <= |b| && s < |count| && Below(b, |count|)
    && InsertSymbol(count, b, s) == InsertSymbol(count, b[..i], s) + b[i..]
  }

  lemma {:induction false} InsertWhole(count: seq<nat>, b: seq<nat>, s: nat)
    requires s < |count| && Below(b, |count|)
    ensures Inserting(count, b, s, |b|)
  {
    assert b[..|b|] == b && b[|b|..] == [];
  }

  lemma {:induction false} InsertEarlier(count: seq<nat>, b: seq<nat>, s: nat, i: nat)
    requires Inserting(count, b, s, i) && i > 0 && count[s] > CountOf(count, b[i - 1])
    ensures Inserting(count, b, s, i - 1)
  {
    assert b[..i][..i - 1] == b[..i - 1] && b[i - 1..] == [b[i - 1]] + b[i..];
  }

  lemma {:induction false} InsertHere(count: seq<nat>, b: seq<nat>, s: nat, i: nat)
    requires Inserting(count, b, s, i) && (i == 0 || count[s] <= CountOf(count, b[i - 1]))
    ensures InsertSymbol(count, b, s) == b[..i] + [s] + b[i..]
    ensures Below(InsertSymbol(count, b, s), |count|)
  {
    assert InsertSymbol(count, b[..i], s) == b[..i] + [s];
  }

  /** Only the positions from `start` to `end` have changed. */
  ghost predicate Outside(t: seq<nat>, t': seq<nat>, start: nat, end: nat) {
    |t| == |t'| && forall k | 0 <= k < |t| && !(start <= k <= end) :: t'[k] == t[k]
  }

  lemma {:induction false} BucketRoom(count: seq<nat>, n: nat)
    requires CountsOk(count) && n < |count|
    ensures var r := RankOf(count[n]);
            r <= 30 && |Bucket(count, r, n)| == Size(count, r, n)
            && Num(count, r + 1, |count|) + Size(count, r, n) < Num(count, r, |count|) <= |count|
  {
    var r := RankOf(count[n]);
    RankBound(count, n);
    BucketOrder(count, r, n);
    SizeMono(count, r, n + 1, |count|);
    NumSize(count, r, |count|);
    NumMono(count, 0, r, |count|);
    NumAll(count, |count|);
  }

  lemma {:induction false} BucketSkips(count: seq<nat>, q: nat, n: nat)
    requires n < |count| && q != RankOf(count[n])
    ensures Bucket(count, q, n + 1) == Bucket(count, q, n)
  {
  }

  lemma {:induction false} OtherBucket(huffByte: seq<nat>, huffCount: seq<nat>, huffByte': seq<nat>, huffCount': seq<nat>,
                                       count: seq<nat>, n: nat, q: nat)
    requires CountsOk(count) && n < |count| && q != RankOf(count[n])
    requires BucketAt(huffByte, huffCount, count, q, n)
    requires var r := RankOf(count[n]);
             var start := Num(count, r + 1, |count|);
             Outside(huffByte, huffByte', start, start + Size(count, r, n))
             && Outside(huffCount, huffCount', start, start + Size(count, r, n))
    ensures BucketAt(huffByte', huffCount', count, q, n + 1)
  {
    hide RankOf, Bucket, CountsOk;
    var r := RankOf(count[n]);
    BucketSkips(count, q, n);
    BucketRoom(count, n);
    BucketOrder(count, q, n);
    SizeMono(count, q, n, |count|);
    NumSize(count, q, |count|);
    if q < r { NumMono(count, q + 1, r, |count|); } else { NumMono(count, r + 1, q, |count|); }
  }

  lemma {:induction false} NextBuckets(huffByte: seq<nat>, huffCount: seq<nat>, huffByte': seq<nat>, huffCount': seq<nat>,
                                       count: seq<nat>, n: nat, next: nat)
    requires CountsOk(count) && n < |count| && AllBuckets(huffByte, huffCount, count, n) && next == n + 1
    requires |huffByte'| == |huffCount'| >= |count|
    requires var r := RankOf(count[n]);
             var start := Num(count, r + 1, |count|);
             Outside(huffByte, huffByte', start, start + Size(count, r, n))
             && Outside(huffCount, huffCount', start, start + Size(count, r, n))
             && (var b' := InsertSymbol(count, Bucket(count, r, n), n);
                 start + |b'| <= |huffByte'| && Below(b', |count|)
                 && forall k | 0 <= k < |b'| :: huffByte'[start + k] == b'[k] && huffCount'[start + k] == CountOf(count, b'[k]))
    ensures AllBuckets(huffByte', huffCount', count, next)
  {
    var r := RankOf(count[n]);
    assert Bucket(count, r, n + 1) == InsertSymbol(count, Bucket(count, r, n), n);
    hide RankOf, Bucket, CountsOk, InsertSymbol, Num, Size, Outside;
    forall q: nat | q <= 30 ensures BucketAt(huffByte', huffCount', count, q, next) {
      assert BucketAt(huffByte, huffCount, count, q, n);
      if q != r { OtherBucket(huffByte, huffCount, huffByte', huffCount', count, n, q); }
    }
  }

  lemma {:induction false} NoBuckets(huffByte: seq<nat>, huffCount: seq<nat>, count: seq<nat>)
    requires |huffByte| == |huffCount| >= |count|
    ensures AllBuckets(huffByte, huffCount, count, 0)
    ensures forall r: nat :: Size(count, r, 0) == 0
  {
    forall r: nat | r <= 30 ensures BucketAt(huffByte, huffCount, count, r, 0) {
      NumMono(count, 0, r + 1, |count|);
      NumAll(count, |count|);
    }
  }

  /** The bucket the next symbol goes to, and the sizes after it. */
  lemma {:induction false} BucketThere(huffByte: seq<nat>, huffCount: seq<nat>, count: seq<nat>, n: nat)
    requires CountsOk(count) && n < |count| && AllBuckets(huffByte, huffCount, count, n)
    ensures var r := RankOf(count[n]);
            var b, start := Bucket(count, r, n), Num(count, r + 1, |count|);
            && r <= 30 && Below(b, |count|) && start + |b| < |count| && |b| == Size(count, r, n)
            && start + |b| <= |huffByte| == |huffCount|
            && forall k | 0 <= k < |b| :: huffByte[start + k] == b[k] && huffCount[start + k] == CountOf(count, b[k])
    ensures forall q: nat :: Size(count, q, n + 1) == Size(count, q, n) + (if RankOf(count[n]) == q then 1 else 0)
  {
    var r := RankOf(count[n]);
    BucketRoom(count, n);
    assert BucketAt(huffByte, huffCount, count, r, n);
  }

  lemma {:induction false} StaysOutside(t: seq<nat>, t': seq<nat>, start: nat, end: nat)
    requires |t| == |t'| && forall k | 0 <= k < |t| && !(start <= k <= end) :: t'[k] == t[k]
    ensures Outside(t, t', start, end)
  {
  }

  /** HUF_sort: the table lists every symbol once, in decreasing order of count. */
  method Sort(count: seq<nat>, huffByte: array<nat>, huffCount: array<nat>)
    requires CountsOk(count) && huffByte != huffCount && huffByte.Length == huffCount.Length >= |count|
    modifies huffByte, huffCount
    ensures SortedTable(huffByte[..], huffCount[..], count)
  {
    hide RankOf, Bucket, AllBuckets, CountsOk, InsertSymbol, Num, Size, SortedTable, Below;
    var base := new nat[RANK_POSITION_TABLE_SIZE](_ => 0);
    RankBases(count, base);
    var current := new nat[RANK_POSITION_TABLE_SIZE](r requires 0 <= r < base.Length reads base => base[r]);
    NoBuckets(huffByte[..], huffCount[..], count);
    for n := 0 to |count|
      invariant forall r: nat {:trigger base[r]} | r < base.Length :: base[r] == Num(count, r, |count|)
      invariant forall r: nat {:trigger current[r]} | 1 <= r < current.Length :: current[r] == Num(count, r, |count|) + Size(count, r - 1, n)
      invariant AllBuckets(huffByte[..], huffCount[..], count, n)
    {
      ghost var bytes, counts := huffByte[..], huffCount[..];
      var r := RankOf(count[n]) + 1;
      BucketThere(bytes, counts, count, n);
      var pos := current[r];
      current[r] := current[r] + 1;
      InsertInto(count, huffByte, huffCount, base[r], pos, n, Bucket(count, r - 1, n));
      StaysOutside(bytes, huffByte[..], base[r], pos);
      StaysOutside(counts, huffCount[..], base[r], pos);
      NextBuckets(bytes, counts, huffByte[..], huffCount[..], count, n, n + 1);
    }
    BucketsSorted(huffByte[..], huffCount[..], count);
  }
}
