/**
  Huff0 streams decoded with the double-symbol table: up to two symbols a lookup.
 */
module HufStreamX2 {
  import opened Bits
  import opened BitStream
  import opened Errors
  import opened HufHeight
  import opened HufCode
  import opened HufX1
  import opened HufX2
  import opened HufWalk
  import opened HufStream

  /** The double-symbol table is that of the code `lens`, taken as one of height `dtLog`. */
  ghost predicate TableOf2(lens: seq<nat>, dt: seq<DEltX2>, dtLog: nat) {
    1 <= dtLog <= HUF_TABLELOG_MAX && FullCode(lens, dtLog) && TableX2(dt, lens, dtLog)
  }

  /** The symbols of a cell. */
  ghost function Symbols(c: DEltX2): seq<nat> {
    if c.length == 2 then [c.first, c.second] else [c.first]
  }

  /** The lookups of the double-symbol table. */
  ghost function Steps2(dt: seq<DEltX2>): (steps: seq<Step>)
    ensures |steps| == |dt|
  {
    seq(|dt|, x requires 0 <= x < |dt| => Step(Symbols(dt[x]), dt[x].nbBits))
  }

  // ---------- the coded bits do not depend on the height ----------

  lemma {:induction false} WiderBits(lens: seq<nat>, M: nat, D: nat, src: seq<nat>, i: nat)
    requires FullCode(lens, M) && M <= D && i <= |src|
    ensures CodeBits(lens, D, src, i) == CodeBits(lens, M, src, i)
    decreases |src| - i
  {
    hide FullCode, ValueOf, Start;
    WiderCode(lens, M, D);
    if i < |src| { WiderBits(lens, M, D, src, i + 1); }
  }

  // ---------- one lookup ----------

  /** The second code is next in the string, and fits. */
  lemma {:induction false} SecondFits(c: DEltX2, lens: seq<nat>, D: nat, x: nat, s: nat, t: nat)
    requires FullCode(lens, D) && CellX2(c, lens, D, x) && Matches(lens, D, x, s)
    requires t < |lens| && 0 < lens[t] && lens[s] + lens[t] <= D
    requires Low(Shr(x, D - lens[s] - lens[t]), lens[t]) == ValueOf(lens, D, t)
    ensures c == DEltX2(s, t, lens[s] + lens[t], 2)
  {
    hide FullCode, ValueOf;
    DecodeUnique(lens, D, x, c.first, s);
    var next := Shl(Low(x, D - lens[s]), lens[s]);
    ShrShlSame(Low(x, D - lens[s]), lens[s]);
    ShrShr(next, lens[s], D - lens[s] - lens[t]);
    ShrLow(x, D - lens[s], D - lens[s] - lens[t]);
    assert Matches(lens, D, next, t);
    if c.length == 2 { DecodeUnique(lens, D, next, c.second, t); }
  }

  /** The second code is next, but does not fit. */
  lemma {:induction false} SecondCut(c: DEltX2, lens: seq<nat>, D: nat, x: nat, s: nat, t: nat)
    requires FullCode(lens, D) && CellX2(c, lens, D, x) && Matches(lens, D, x, s)
    requires t < |lens| && 0 < lens[t] <= D < lens[s] + lens[t]
    requires Low(x, D - lens[s]) == Shr(ValueOf(lens, D, t), lens[s] + lens[t] - D)
    ensures c.first == s && c.length == 1 && c.nbBits == lens[s]
  {
    hide FullCode, ValueOf;
    DecodeUnique(lens, D, x, c.first, s);
    var next, z := Shl(Low(x, D - lens[s]), lens[s]), Shl(ValueOf(lens, D, t), D - lens[t]);
    ShrShlSame(Low(x, D - lens[s]), lens[s]);
    ShrShlSame(ValueOf(lens, D, t), D - lens[t]);
    ShrShl(ValueOf(lens, D, t), D - lens[t], lens[s]);
    assert Matches(lens, D, z, t);
    if c.length == 2 {
      SamePrefix(lens, D, next, z, D - lens[s], c.second);
      DecodeUnique(lens, D, z, c.second, t);
    }
  }

  /** The last symbol. */
  lemma {:induction false} FirstOnly(c: DEltX2, lens: seq<nat>, D: nat, x: nat, s: nat)
    requires FullCode(lens, D) && CellX2(c, lens, D, x) && Matches(lens, D, x, s)
    ensures c.first == s && (c.length == 1 || c.length == 2) && lens[s] <= c.nbBits <= D
    ensures c.length == 1 ==> c.nbBits == lens[s]
  {
    DecodeUnique(lens, D, x, c.first, s);
  }

  /** The string starts with the two codes at `p` of the stream. */
  lemma {:induction false} PairFits(c: DEltX2, lens: seq<nat>, D: nat, x: nat, s: nat, t: nat, stream: nat, p: nat)
    requires FullCode(lens, D) && CellX2(c, lens, D, x) && Matches(lens, D, x, s) && t < |lens| && 0 < lens[t]
    requires s < |lens| && lens[s] + lens[t] <= D && Shr(x, D - (lens[s] + lens[t])) == Slice(stream, p, lens[s] + lens[t])
    requires Slice(stream, p, lens[t]) == ValueOf(lens, D, t)
    ensures c == DEltX2(s, t, lens[s] + lens[t], 2)
  {
    hide *;
    var n := lens[s] + lens[t];
    assert D - n == D - lens[s] - lens[t];
    SliceSlice(stream, p, n, 0, lens[t]);
    SliceFirst(Slice(stream, p, n), lens[t]);
    SecondFits(c, lens, D, x, s, t);
  }

  /** The string is cut within the second code. */
  lemma {:induction false} PairCut(c: DEltX2, lens: seq<nat>, D: nat, x: nat, s: nat, t: nat, stream: nat, p: nat)
    requires FullCode(lens, D) && CellX2(c, lens, D, x) && Matches(lens, D, x, s) && t < |lens| && 0 < lens[t] <= D
    requires s < |lens| && 0 < lens[s] <= D < lens[s] + lens[t] && x == Slice(stream, p + lens[s] + lens[t] - D, D)
    requires Slice(stream, p, lens[t]) == ValueOf(lens, D, t)
    ensures c.first == s && c.length == 1 && c.nbBits == lens[s]
  {
    hide *;
    var a, b := lens[s], lens[t];
    var q: nat := p + a + b - D;
    SliceSlice(stream, q, D, 0, D - a);
    SliceFirst(x, D - a);
    SliceHead(stream, p, b, D - a);
    assert b - (D - a) == a + b - D;
    SecondCut(c, lens, D, x, s, t);
  }

  lemma {:induction false} TableParts2(lens: seq<nat>, dt: seq<DEltX2>, dtLog: nat)
    requires TableOf2(lens, dt, dtLog)
    ensures 1 <= dtLog <= HUF_TABLELOG_MAX && FullCode(lens, dtLog) && TableX2(dt, lens, dtLog) && |dt| == Pow2(dtLog)
  {
    hide FullCode, CellX2;
  }

  lemma {:induction false} CellAt2(lens: seq<nat>, dt: seq<DEltX2>, D: nat, x: nat)
    requires TableX2(dt, lens, D) && x < Pow2(D)
    ensures x < |dt| && CellX2(dt[x], lens, D, x)
  {
    hide CellX2;
  }

  lemma {:induction false} CellSizes(c: DEltX2, lens: seq<nat>, D: nat, x: nat)
    requires CellX2(c, lens, D, x)
    ensures 1 <= c.nbBits <= D && (c.length == 1 || c.length == 2)
  {
  }

  lemma {:induction false} StepsOk2(lens: seq<nat>, dt: seq<DEltX2>, dtLog: nat)
    requires TableOf2(lens, dt, dtLog)
    ensures StepsOk(Steps2(dt), dtLog)
  {
    hide FullCode, TableX2, CellX2;
    TableParts2(lens, dt, dtLog);
    forall x: nat | x < |dt| ensures 1 <= dt[x].nbBits <= dtLog && (dt[x].length == 1 || dt[x].length == 2) {
      CellAt2(lens, dt, dtLog, x);
      CellSizes(dt[x], lens, dtLog, x);
    }
  }

  // ---------- the reference decoder and the code ----------

  /** The lookup of a window that starts with the next code, with two symbols or more to come. */
  lemma {:induction false} WindowTwo(lens: seq<nat>, c: DEltX2, D: nat, stream: nat, k: nat, s: nat, t: nat)
    requires FullCode(lens, D) && 1 <= D <= HUF_TABLELOG_MAX && CellX2(c, lens, D, Window(stream, k, D))
    requires s < |lens| && 1 <= lens[s] <= D && t < |lens| && 1 <= lens[t] <= D && lens[s] + lens[t] <= k
    requires Slice(stream, k - lens[s], lens[s]) == ValueOf(lens, D, s)
    requires Slice(stream, k - lens[s] - lens[t], lens[t]) == ValueOf(lens, D, t)
    ensures if lens[s] + lens[t] <= D then c == DEltX2(s, t, lens[s] + lens[t], 2)
            else c.first == s && c.length == 1 && c.nbBits == lens[s]
  {
    hide FullCode, CellX2, Slice, ValueOf, Window;
    var x, p := Window(stream, k, D), k - lens[s] - lens[t];
    WindowHead(stream, k, D, lens[s]);
    if lens[s] + lens[t] <= D {
      WindowHead(stream, k, D, lens[s] + lens[t]);
      PairFits(c, lens, D, x, s, t, stream, p);
    } else {
      WindowHead(stream, k, D, D);
      ShiftNone(x);
      PairCut(c, lens, D, x, s, t, stream, p);
    }
  }

  lemma {:induction false} WindowOne(lens: seq<nat>, c: DEltX2, D: nat, stream: nat, k: nat, s: nat)
    requires FullCode(lens, D) && 1 <= D <= HUF_TABLELOG_MAX && CellX2(c, lens, D, Window(stream, k, D))
    requires s < |lens| && 1 <= lens[s] <= D && lens[s] <= k && Slice(stream, k - lens[s], lens[s]) == ValueOf(lens, D, s)
    ensures c.first == s && (c.length == 1 || c.length == 2) && lens[s] <= c.nbBits <= D && (c.length == 1 ==> c.nbBits == lens[s])
  {
    hide FullCode, CellX2, Slice, ValueOf, Window;
    WindowHead(stream, k, D, lens[s]);
    FirstOnly(c, lens, D, Window(stream, k, D), s);
  }

  /** The reference decoder finds the source that the stream spells. */
  lemma {:induction false} SpelledWalk2(lens: seq<nat>, dt: seq<DEltX2>, D: nat, stream: nat, k: nat, src: seq<nat>)
    requires TableOf2(lens, dt, D) && Spells(lens, D, src, stream, k)
    ensures Walk(Steps2(dt), D, stream, k, |src|) == Some(src)
    decreases |src|
  {
    hide TableOf2, Spells, Window, Slice, ValueOf, FullCode, TableX2, CellX2;
    if |src| == 0 {
      SpellsNothing(lens, D, stream, k);
    } else {
      TableParts2(lens, dt, D);
      WindowBound(stream, k, D);
      CellAt2(lens, dt, D, Window(stream, k, D));
      SpelledFirst(lens, D, src, stream, k);
      SpellsFirst(lens, D, src, stream, k);
      var s, c := src[0], dt[Window(stream, k, D)];
      if |src| == 1 {
        assert src[1..] == [];
        SpellsNothing(lens, D, stream, k - lens[s]);
        WindowOne(lens, c, D, stream, k, s);
        assert src == [s] && [s] + [] == [s];
        assert Walk(Steps2(dt), D, stream, 0, 0) == Some([]);
      } else {
        var rest := src[1..];
        SpelledFirst(lens, D, rest, stream, k - lens[s]);
        SpellsFirst(lens, D, rest, stream, k - lens[s]);
        WindowTwo(lens, c, D, stream, k, s, src[1]);
        if c.length == 2 {
          SpelledWalk2(lens, dt, D, stream, k - c.nbBits, rest[1..]);
          assert rest[1..] == src[2..] && [s, src[1]] + src[2..] == src;
        } else {
          SpelledWalk2(lens, dt, D, stream, k - c.nbBits, rest);
          assert [s] + rest == src;
        }
      }
    }
  }

  /** The bits of the stream from the top one of `k` down to `k'` are the code of `src`. */
  ghost predicate SpellsTo(lens: seq<nat>, M: nat, src: seq<nat>, stream: nat, k: nat, k': nat) {
    k' <= k && Spells(lens, M, src, Shr(stream, k'), k - k')
  }

  lemma {:induction false} SpellsMore(lens: seq<nat>, M: nat, s: nat, rest: seq<nat>, stream: nat, k: nat, k': nat)
    requires FullCode(lens, M) && s < |lens| && 1 <= lens[s] <= k && Slice(stream, k - lens[s], lens[s]) == ValueOf(lens, M, s)
    requires SpellsTo(lens, M, rest, stream, k - lens[s], k')
    ensures SpellsTo(lens, M, [s] + rest, stream, k, k')
  {
    hide FullCode, Spells, ValueOf, Shr, Low;
    var src := [s] + rest;
    assert src[1..] == rest;
    ShrShr(stream, k', k - k' - lens[s]);
    SpellsFirst(lens, M, src, Shr(stream, k'), k - k');
  }

  /** The bits that a lookup takes, if they are all there, are the codes of its symbols. */
  lemma {:induction false} CellSpells(lens: seq<nat>, c: DEltX2, D: nat, rest: seq<nat>, stream: nat, k: nat, k': nat)
    requires FullCode(lens, D) && 1 <= D <= HUF_TABLELOG_MAX && CellX2(c, lens, D, Window(stream, k, D)) && c.nbBits <= k
    requires SpellsTo(lens, D, rest, stream, k - c.nbBits, k')
    ensures SpellsTo(lens, D, Symbols(c) + rest, stream, k, k')
  {
    hide FullCode, CellX2, SpellsTo, Slice, ValueOf, Window;
    CellBits(lens, c, D, stream, k);
    if c.length == 2 {
      SpellsMore(lens, D, c.second, rest, stream, k - lens[c.first], k');
      SpellsMore(lens, D, c.first, [c.second] + rest, stream, k, k');
      assert Symbols(c) + rest == [c.first] + ([c.second] + rest);
    } else {
      SpellsMore(lens, D, c.first, rest, stream, k, k');
    }
  }

  lemma {:induction false} CellBits(lens: seq<nat>, c: DEltX2, D: nat, stream: nat, k: nat)
    requires CellX2(c, lens, D, Window(stream, k, D)) && c.nbBits <= k
    ensures c.first < |lens| && 1 <= lens[c.first] <= k && Slice(stream, k - lens[c.first], lens[c.first]) == ValueOf(lens, D, c.first)
    ensures c.length == 1 || c.length == 2
    ensures c.length == 1 ==> c.nbBits == lens[c.first]
    ensures c.length == 2 ==>
              && c.second < |lens| && 1 <= lens[c.second] && c.nbBits == lens[c.first] + lens[c.second]
              && Slice(stream, k - c.nbBits, lens[c.second]) == ValueOf(lens, D, c.second)
  {
    hide Slice, ValueOf, Window, Shl, Shr, Low;
    var x, l := Window(stream, k, D), lens[c.first];
    WindowHead(stream, k, D, l);
    if c.length == 2 {
      var m := lens[c.second];
      WindowHead(stream, k, D, l + m);
      SecondBits(x, D, l, m);
      SliceSlice(stream, k - l - m, l + m, 0, m);
      SliceFirst(Slice(stream, k - l - m, l + m), m);
    }
  }

  /** The second code of a string, after one of `l` bits. */
  lemma {:induction false} SecondBits(x: nat, D: nat, l: nat, m: nat)
    requires l + m <= D
    ensures Shr(Shl(Low(x, D - l), l), D - m) == Low(Shr(x, D - l - m), m)
  {
    hide Shl, Shr, Low;
    ShrShl(Low(x, D - l), l, D - m);
    ShrLow(x, D - l, D - l - m);
  }

  /**
    The last symbol was looked up together with another one, and what was left of the stream was not more than
    both of them take: it need not be its code.
   */
  ghost predicate PairEnd(dt: seq<DEltX2>, D: nat, stream: nat, k': nat, s: nat) {
    var x := Window(stream, k', D);
    x < |dt| && dt[x].length == 2 && dt[x].first == s && k' <= dt[x].nbBits
  }

  ghost predicate LooseEnd(lens: seq<nat>, dt: seq<DEltX2>, D: nat, stream: nat, k: nat, out: seq<nat>) {
    exists k': nat :: LooseAt(lens, dt, D, stream, k, out, k')
  }

  ghost predicate LooseAt(lens: seq<nat>, dt: seq<DEltX2>, D: nat, stream: nat, k: nat, out: seq<nat>, k': nat) {
    |out| > 0 && SpellsTo(lens, D, out[..|out| - 1], stream, k, k') && PairEnd(dt, D, stream, k', out[|out| - 1])
  }

  lemma {:induction false} SpellsAll(lens: seq<nat>, M: nat, src: seq<nat>, stream: nat, k: nat)
    ensures SpellsTo(lens, M, src, stream, k, 0) <==> Spells(lens, M, src, stream, k)
  {
    ShiftNone(stream);
  }

  /** What the reference decoder finds is spelled by the stream, but for a loose end. */
  lemma {:induction false} WalkSpells2(lens: seq<nat>, dt: seq<DEltX2>, D: nat, stream: nat, k: nat, n: nat)
    requires TableOf2(lens, dt, D)
    ensures var w := Walk(Steps2(dt), D, stream, k, n); w.Some? ==> Spells(lens, D, w.value, stream, k) || LooseEnd(lens, dt, D, stream, k, w.value)
    decreases n
  {
    hide TableOf2, Spells, SpellsTo, PairEnd, Window, FullCode, TableX2, CellX2;
    var w := Walk(Steps2(dt), D, stream, k, n);
    if n == 0 {
      SpellsNothing(lens, D, stream, k);
    } else if w.Some? {
      TableParts2(lens, dt, D);
      WindowBound(stream, k, D);
      var x := Window(stream, k, D);
      CellAt2(lens, dt, D, x);
      CellSizes(dt[x], lens, D, x);
      var c := dt[x];
      if |Symbols(c)| > n {
        EndsLoosely(lens, dt, D, stream, k, c.first);
        assert w.value[..0] == [];
      } else {
        WalkSpells2(lens, dt, D, stream, k - c.nbBits, n - |Symbols(c)|);
        var rest := Walk(Steps2(dt), D, stream, k - c.nbBits, n - |Symbols(c)|).value;
        assert w.value == Symbols(c) + rest;
        if Spells(lens, D, rest, stream, k - c.nbBits) {
          SpellsAll(lens, D, rest, stream, k - c.nbBits);
          CellSpells(lens, c, D, rest, stream, k, 0);
          SpellsAll(lens, D, w.value, stream, k);
        } else {
          LooseBefore(lens, dt, D, stream, k, c, rest);
        }
      }
    }
  }

  lemma {:induction false} EndsLoosely(lens: seq<nat>, dt: seq<DEltX2>, D: nat, stream: nat, k: nat, s: nat)
    requires Window(stream, k, D) < |dt|
    requires var c := dt[Window(stream, k, D)]; c.length == 2 && c.first == s && k <= c.nbBits
    ensures LooseEnd(lens, dt, D, stream, k, [s])
  {
    hide Window;
    assert [s][..0] == [];
    SpellsNothing(lens, D, Shr(stream, k), 0);
    assert LooseAt(lens, dt, D, stream, k, [s], k);
  }

  lemma {:induction false} LooseBefore(lens: seq<nat>, dt: seq<DEltX2>, D: nat, stream: nat, k: nat, c: DEltX2, rest: seq<nat>)
    requires FullCode(lens, D) && 1 <= D <= HUF_TABLELOG_MAX && CellX2(c, lens, D, Window(stream, k, D)) && c.nbBits <= k
    requires LooseEnd(lens, dt, D, stream, k - c.nbBits, rest)
    ensures LooseEnd(lens, dt, D, stream, k, Symbols(c) + rest)
  {
    hide FullCode, CellX2, SpellsTo, PairEnd, Window;
    var k': nat :| LooseAt(lens, dt, D, stream, k - c.nbBits, rest, k');
    var m: nat := |rest| - 1;
    CellSpells(lens, c, D, rest[..m], stream, k, k');
    var out := Symbols(c) + rest;
    assert out[..|out| - 1] == Symbols(c) + rest[..m];
    assert out[|out| - 1] == rest[m];
    assert LooseAt(lens, dt, D, stream, k, out, k');
  }

  // ---------- decoding ----------

  /** A cell of a lookup, with two symbols or more to come, or past the end of a segment that has no result. */
  lemma {:induction false} CellMoves(h: Aim, d: DStream, dt: seq<DEltX2>, j: nat)
    requires d.Valid() && AimOk(h) && h.steps == Steps2(dt) && OnWay(h, d, j) && Served(d, h.D) && (h.result.Some? ==> j + 2 <= h.n)
    ensures d.LookBitsFast(h.D) < |dt|
    ensures var c := dt[d.LookBitsFast(h.D)];
            && 1 <= c.nbBits <= h.D <= 12
            && Track(h, LE(d.src), d.Left() - c.nbBits, j + |Symbols(c)|) && NextAre(h, j, Symbols(c))
  {
    hide DStream.Valid, DStream.LookBitsFast, Track, NextAre, LE;
    AnyStep(h, d);
    var x := d.LookBitsFast(h.D);
    StepOn(h, d, j, Step(Symbols(dt[x]), dt[x].nbBits));
    ResultLength(h);
  }

  /** HUF_decodeSymbolX2: always two bytes are stored, of which one or two are symbols. */
  method DecodeSymbolX2(d: DStream, dst: array<nat>, base: nat, j: nat, dt: seq<DEltX2>, dtLog: nat, ghost h: Aim) returns (length: nat)
    requires Lane(h, d, dst[..], base, j) && Served(d, dtLog) && h.steps == Steps2(dt) && h.D == dtLog && CellLengths(dt)
    requires base + j + 2 <= dst.Length && (h.result.Some? ==> j + 2 <= h.n)
    modifies d`bitsConsumed, dst
    ensures length == 1 || length == 2
    ensures Lane(h, d, dst[..], base, j + length) && d.bitsConsumed <= old(d.bitsConsumed) + 12
    ensures Untouched(old(dst[..]), dst[..], base + j, base + j + 2)
  {
    hide LE, Shr, Trunc64, Track, NextAre, AimOk, OutputIs, Served, DStream.LookBitsFast;
    CellMoves(h, d, dt, j);
    var val := d.LookBitsFast(dtLog);
    ghost var before := dst[..];
    dst[base + j], dst[base + j + 1] := dt[val].first, dt[val].second;
    d.SkipBits(dt[val].nbBits);
    length := dt[val].length;
    OutputStored(h, before, dst[..], base, j, dt[val]);
  }

  ghost predicate CellLengths(dt: seq<DEltX2>) {
    forall x | 0 <= x < |dt| :: dt[x].length == 1 || dt[x].length == 2
  }

  lemma {:induction false} OutputStored(h: Aim, out: seq<nat>, out': seq<nat>, base: nat, j: nat, c: DEltX2)
    requires OutputIs(h, out, base, base + j) && base + j + 2 <= |out| && out' == out[base + j := c.first][base + j + 1 := c.second]
    requires (c.length == 1 || c.length == 2) && AimOk(h) && NextAre(h, j, Symbols(c))
    ensures OutputIs(h, out', base, base + j + c.length)
  {
    hide AimOk, OutputIs;
    OutputGrows(h, out, out', base, base + j, Symbols(c));
  }

  /** The last symbol: a cell for two symbols may then take less than its bits. */
  method DecodeLastSymbolX2(d: DStream, dst: array<nat>, base: nat, j: nat, dt: seq<DEltX2>, dtLog: nat, ghost h: Aim)
    requires Lane(h, d, dst[..], base, j) && h.steps == Steps2(dt) && h.D == dtLog && CellLengths(dt) && base + j < dst.Length
    requires j + 1 == h.n && Served(d, dtLog)
    modifies d`bitsConsumed, dst
    ensures Finished(h, d, dst[..], base, base + j + 1) && d.Valid()
    ensures Untouched(old(dst[..]), dst[..], base + j, base + j + 1)
  {
    hide LE, Shr, Trunc64, AimOk, OutputIs, Track, DStream.LookBitsFast;
    LastLookup(h, d, dt);
    ghost var before := dst[..];
    var val := d.LookBitsFast(dtLog);
    dst[base + j] := dt[val].first;
    LastStored(h, before, dst[..], base, j, dt[val].first);
    EndsRight(h, d, dt[val]);
    if dt[val].length == 1 {
      d.SkipBits(dt[val].nbBits);
    } else if d.bitsConsumed < WORD {
      d.SkipBits(dt[val].nbBits);
      if d.bitsConsumed > WORD { d.bitsConsumed := WORD; }
    }
  }

  /** Whether there is a result, as the last lookup shows it. */
  ghost predicate LastAre(h: Aim, left: int, c: DEltX2) {
    && 1 <= c.nbBits <= h.D <= 12 && (c.length == 1 || c.length == 2)
    && (h.result.Some? <==> if c.length == 1 then left == c.nbBits else 0 <= left <= c.nbBits)
    && (h.result.Some? ==> h.n > 0 && |h.result.value| == h.n && h.result.value[h.n - 1] == c.first)
  }

  lemma {:induction false} LastLookup(h: Aim, d: DStream, dt: seq<DEltX2>)
    requires d.Valid() && AimOk(h) && h.n > 0 && OnWay(h, d, h.n - 1) && h.steps == Steps2(dt) && CellLengths(dt) && Served(d, h.D)
    ensures d.LookBitsFast(h.D) < |dt| && h.D <= 12
    ensures LastAre(h, d.Left(), dt[d.LookBitsFast(h.D)])
  {
    hide DStream.Valid, DStream.LookBitsFast, DStream.Left, LE;
    AnyStep(h, d);
    ResultLength(h);
    if d.Left() >= 0 { LookIsWindow(d, h.D); }
    LastTrack(h, LE(d.src), d.Left(), dt, d.LookBitsFast(h.D));
  }

  lemma {:induction false} LastTrack(h: Aim, stream: nat, left: int, dt: seq<DEltX2>, x: nat)
    requires AimOk(h) && h.n > 0 && Track(h, stream, left, h.n - 1) && h.steps == Steps2(dt) && CellLengths(dt)
    requires x < |dt| && (left >= 0 ==> x == Window(stream, left, h.D))
    ensures LastAre(h, left, dt[x])
  {
    hide Window;
    var c := dt[x];
    assert h.steps[x] == Step(Symbols(c), c.nbBits);
    ResultLength(h);
    if left >= 0 && c.length == 1 && c.nbBits <= left {
      assert Walk(h.steps, h.D, stream, left - c.nbBits, 0) == if left == c.nbBits then Some([]) else None;
    }
  }

  /** The register after the last lookup. */
  lemma {:induction false} EndsRight(h: Aim, d: DStream, c: DEltX2)
    requires LastAre(h, d.Left(), c) && Served(d, h.D)
    ensures var after := if c.length == 1 then d.bitsConsumed + c.nbBits
                         else if d.bitsConsumed >= WORD then d.bitsConsumed
                         else if d.bitsConsumed + c.nbBits > WORD then WORD else d.bitsConsumed + c.nbBits;
            d.ptr == 0 && after == WORD <==> h.result.Some?
  {
  }

  lemma {:induction false} LastStored(h: Aim, out: seq<nat>, out': seq<nat>, base: nat, j: nat, c: nat)
    requires AimOk(h) && OutputIs(h, out, base, base + j) && base + j < |out| && out' == out[base + j := c] && j + 1 == h.n
    requires h.result.Some? ==> |h.result.value| == h.n && h.result.value[j] == c
    ensures h.keep ==> h.result.Some? && out'[base..base + j + 1] == h.result.value
  {
    if h.keep {
      assert out'[base..base + j + 1] == out[base..base + j] + [c];
      assert h.result.value == h.result.value[..j] + [h.result.value[j]];
    }
  }

  /** Enough symbols, or bits, for `n` lookups. */
  ghost predicate Ample(h: Aim, d: DStream, j: nat, n: nat)
    reads d
  {
    h.result.Some? ==> j + n + n <= h.n || d.Left() >= 9 + Times12(n)
  }

  lemma {:induction false} AmpleOne(h: Aim, d: DStream, out: seq<nat>, base: nat, j: nat, n: nat)
    requires Lane(h, d, out, base, j) && Ample(h, d, j, n) && n > 0
    ensures h.result.Some? ==> j + 2 <= h.n
  {
    hide Walk, LE, OutputIs, DStream.Valid, StepsOk;
    if h.result.Some? && j + n + n > h.n { MoreToCome(h.steps, h.D, LE(d.src), d.Left(), h.n - j); }
  }

  /** One of `n` lookups in a row, without a reload in between. */
  method NextLookup(d: DStream, dst: array<nat>, base: nat, j: nat, dt: seq<DEltX2>, dtLog: nat, ghost h: Aim, ghost n: nat) returns (j': nat)
    requires Lane(h, d, dst[..], base, j) && h.steps == Steps2(dt) && h.D == dtLog && CellLengths(dt) && Ample(h, d, j, n) && n > 0
    requires base + j + 2 <= dst.Length && (d.ptr == 0 || d.bitsConsumed + 12 <= WORD)
    modifies d`bitsConsumed, dst
    ensures j < j' <= j + 2 && Lane(h, d, dst[..], base, j') && Ample(h, d, j', n - 1) && (h.result.Some? ==> j + 2 <= h.n)
    ensures d.bitsConsumed <= old(d.bitsConsumed) + 12
    ensures Untouched(old(dst[..]), dst[..], base + j, base + j + 2)
  {
    hide Lane, CellLengths, Untouched;
    LaneLog(h, d, dst[..], base, j);
    AmpleOne(h, d, dst[..], base, j, n);
    var length := DecodeSymbolX2(d, dst, base, j, dt, dtLog, h);
    j' := j + length;
  }

  /** Where four lookups stop at the latest: eight symbols on, and within a wanted segment. */
  ghost function Reach(h: Aim, base: nat, j: nat): nat {
    if h.keep && h.n < j + 8 then base + h.n else base + j + 8
  }

  lemma {:induction false} WithinReach(h: Aim, base: nat, j0: nat, j: nat, out: seq<nat>, a: seq<nat>, a': seq<nat>)
    requires (h.keep ==> j + 2 <= h.n) && j0 <= j <= j0 + 6 && Untouched(a, a', base + j, base + j + 2)
    requires Untouched(out, a, base + j0, Reach(h, base, j0))
    ensures Untouched(out, a', base + j0, Reach(h, base, j0))
  {
  }

  lemma {:induction false} KeepHasResult(h: Aim, d: DStream, out: seq<nat>, base: nat, j: nat)
    requires Lane(h, d, out, base, j)
    ensures h.keep ==> h.result.Some?
    ensures h.result.Some? ==> j <= h.n
  {
    hide Walk, LE, OutputIs, DStream.Valid, StepsOk;
  }

  /** Up to eight symbols in four lookups. */
  method FourLookups(d: DStream, dst: array<nat>, base: nat, j0: nat, dt: seq<DEltX2>, dtLog: nat, ghost h: Aim) returns (j: nat)
    requires Lane(h, d, dst[..], base, j0) && d.Filled() && h.steps == Steps2(dt) && h.D == dtLog && CellLengths(dt) && Ample(h, d, j0, 4)
    requires base + j0 + 8 <= dst.Length
    modifies d`bitsConsumed, dst
    ensures j0 + 4 <= j <= j0 + 8 && Lane(h, d, dst[..], base, j) && (d.ptr == 0 || d.bitsConsumed <= 56)
    ensures Untouched(old(dst[..]), dst[..], base + j0, Reach(h, base, j0))
  {
    hide Lane, CellLengths, Ample, Untouched, Reach;
    KeepHasResult(h, d, dst[..], base, j0);
    ghost var out, a, p := dst[..], dst[..], j0;
    UntouchedNone(out, base + j0, Reach(h, base, j0));
    j := NextLookup(d, dst, base, j0, dt, dtLog, h, 4);
    WithinReach(h, base, j0, p, out, a, dst[..]);
    a, p := dst[..], j;
    j := NextLookup(d, dst, base, j, dt, dtLog, h, 3);
    WithinReach(h, base, j0, p, out, a, dst[..]);
    a, p := dst[..], j;
    j := NextLookup(d, dst, base, j, dt, dtLog, h, 2);
    WithinReach(h, base, j0, p, out, a, dst[..]);
    a, p := dst[..], j;
    j := NextLookup(d, dst, base, j, dt, dtLog, h, 1);
    WithinReach(h, base, j0, p, out, a, dst[..]);
  }

  lemma {:induction false} AmpleHere(h: Aim, d: DStream, base: nat, j: nat, end: nat, n: nat)
    requires end == base + h.n && base + j + n + n <= end
    ensures Ample(h, d, j, n)
  {
  }

  /** First loop of HUF_decodeStreamX2: four lookups a reload. */
  method QuickX2(d: DStream, dst: array<nat>, base: nat, j0: nat, end: nat, dt: seq<DEltX2>, dtLog: nat, ghost h: Aim) returns (j: nat)
    requires Lane(h, d, dst[..], base, j0) && h.steps == Steps2(dt) && h.D == dtLog && CellLengths(dt)
    requires base + j0 <= end == base + h.n <= dst.Length && (d.ptr == 0 || d.bitsConsumed <= 56)
    modifies d, dst
    ensures j0 <= j && base + j <= end && Lane(h, d, dst[..], base, j) && Untouched(old(dst[..]), dst[..], base + j0, end)
    ensures d.ptr == 0 || d.bitsConsumed <= 56
  {
    hide Lane, CellLengths, Untouched, Ample, Reach;
    j := j0;
    UntouchedNone(dst[..], base + j0, end);
    var status := LaneReload(d, h, dst[..], base, j);
    while status == Unfinished && base + j + 7 < end
      invariant j0 <= j && base + j <= end && Lane(h, d, dst[..], base, j) && d.Filled()
      invariant Untouched(old(dst[..]), dst[..], base + j0, end)
      decreases end - j
    {
      ghost var out := dst[..];
      AmpleHere(h, d, base, j, end, 4);
      var j' := FourLookups(d, dst, base, j, dt, dtLog, h);
      ReachWithin(h, base, j, end);
      UntouchedWider(out, dst[..], base + j0, base + j, Reach(h, base, j), end);
      UntouchedBoth(old(dst[..]), out, dst[..], base + j0, end);
      j := j';
      status := LaneReload(d, h, dst[..], base, j);
    }
  }

  lemma {:induction false} ReachWithin(h: Aim, base: nat, j: nat, end: nat)
    requires end == base + h.n && base + j + 8 <= end
    ensures Reach(h, base, j) <= end
  {
  }

  /** Second loop: one lookup a reload. What is then left is in the register. */
  method CloserX2(d: DStream, dst: array<nat>, base: nat, j0: nat, end: nat, dt: seq<DEltX2>, dtLog: nat, ghost h: Aim) returns (j: nat)
    requires Lane(h, d, dst[..], base, j0) && h.steps == Steps2(dt) && h.D == dtLog && CellLengths(dt)
    requires base + j0 <= end == base + h.n <= dst.Length && (d.ptr == 0 || d.bitsConsumed <= 56)
    modifies d, dst
    ensures j0 <= j && base + j <= end && Lane(h, d, dst[..], base, j) && Untouched(old(dst[..]), dst[..], base + j0, end)
    ensures d.ptr == 0 || (d.bitsConsumed < 8 && base + j + 2 > end)
  {
    hide Lane, CellLengths, Untouched, Ample;
    j := j0;
    UntouchedNone(dst[..], base + j0, end);
    var status := LaneReload(d, h, dst[..], base, j);
    while status == Unfinished && base + j + 2 <= end
      invariant j0 <= j && base + j <= end && Lane(h, d, dst[..], base, j)
      invariant (status == Unfinished ==> d.bitsConsumed < 8) && (status == Unfinished || d.ptr == 0)
      invariant Untouched(old(dst[..]), dst[..], base + j0, end)
      decreases end - j
    {
      ghost var out := dst[..];
      AmpleHere(h, d, base, j, end, 1);
      var j' := NextLookup(d, dst, base, j, dt, dtLog, h, 1);
      UntouchedWider(out, dst[..], base + j0, base + j, base + j + 2, end);
      UntouchedBoth(old(dst[..]), out, dst[..], base + j0, end);
      j := j';
      status := LaneReload(d, h, dst[..], base, j);
    }
  }

  /** Third loop, without reloads, and the last symbol. */
  method FinishX2(d: DStream, dst: array<nat>, base: nat, j0: nat, end: nat, dt: seq<DEltX2>, dtLog: nat, ghost h: Aim)
    requires Lane(h, d, dst[..], base, j0) && h.steps == Steps2(dt) && h.D == dtLog && CellLengths(dt) && base + j0 <= end == base + h.n <= dst.Length
    requires d.ptr == 0 || (d.bitsConsumed < 8 && base + j0 + 2 > end)
    modifies d`bitsConsumed, dst
    ensures Finished(h, d, dst[..], base, end) && d.Valid() && Untouched(old(dst[..]), dst[..], base + j0, end)
  {
    hide Lane, CellLengths, Untouched, Finished, DStream.Valid;
    LaneLog(h, d, dst[..], base, j0);
    var j := j0;
    UntouchedNone(dst[..], base + j0, end);
    while base + j + 2 <= end
      invariant j0 <= j && base + j <= end && Lane(h, d, dst[..], base, j)
      invariant d.ptr == 0 || (d.bitsConsumed < 8 && base + j + 2 > end)
      invariant Untouched(old(dst[..]), dst[..], base + j0, end)
      decreases end - j
    {
      ghost var out := dst[..];
      var length := DecodeSymbolX2(d, dst, base, j, dt, dtLog, h);
      UntouchedWider(out, dst[..], base + j0, base + j, base + j + 2, end);
      UntouchedBoth(old(dst[..]), out, dst[..], base + j0, end);
      j := j + length;
    }
    if base + j < end {
      ghost var out := dst[..];
      DecodeLastSymbolX2(d, dst, base, j, dt, dtLog, h);
      UntouchedWider(out, dst[..], base + j0, base + j, base + j + 1, end);
      UntouchedBoth(old(dst[..]), out, dst[..], base + j0, end);
    } else {
      LaneEnds(h, d, dst[..], base);
    }
  }

  /** HUF_decodeStreamX2: the output up to `end`. */
  method DecodeStreamX2(d: DStream, dst: array<nat>, base: nat, j0: nat, end: nat, dt: seq<DEltX2>, dtLog: nat, ghost h: Aim)
    requires Lane(h, d, dst[..], base, j0) && h.steps == Steps2(dt) && h.D == dtLog && CellLengths(dt)
    requires base + j0 <= end == base + h.n <= dst.Length && (d.ptr == 0 || d.bitsConsumed <= 56)
    modifies d, dst
    ensures Finished(h, d, dst[..], base, end) && d.Valid() && Untouched(old(dst[..]), dst[..], base + j0, end)
  {
    hide *;
    ghost var out := dst[..];
    var j := QuickX2(d, dst, base, j0, end, dt, dtLog, h);
    ghost var a := dst[..];
    var j1 := CloserX2(d, dst, base, j, end, dt, dtLog, h);
    UntouchedWider(a, dst[..], base + j0, base + j, end, end);
    UntouchedBoth(out, a, dst[..], base + j0, end);
    a := dst[..];
    FinishX2(d, dst, base, j1, end, dt, dtLog, h);
    UntouchedWider(a, dst[..], base + j0, base + j1, end, end);
    UntouchedBoth(out, a, dst[..], base + j0, end);
  }

  // ---------- HUF_decompress1X2 ----------

  /** The stream spells the output, but for a loose end; and a source that it holds is the output. */
  ghost predicate OnlyLoosely(c: seq<byte>, lens: seq<nat>, dt: seq<DEltX2>, D: nat, r: Result<nat>, out: seq<nat>) {
    && (r.Ok? ==> InitError(c) == None && (HoldsSource(lens, D, c, out) || LooseEnd(lens, dt, D, LE(c), BitLength(c), out)))
    && forall src: seq<nat> {:trigger HoldsSource(lens, D, c, src)} | |src| == |out| && HoldsSource(lens, D, c, src) :: r.Ok? && out == src
  }

  /** What the reference decoder makes of a stream is the source that the stream holds, but for a loose end. */
  lemma {:induction false} WalkHolds2(lens: seq<nat>, dt: seq<DEltX2>, D: nat, c: seq<byte>, n: nat)
    requires TableOf2(lens, dt, D) && InitError(c) == None
    ensures var w := Walk(Steps2(dt), D, LE(c), BitLength(c), n);
            && (w.Some? ==> HoldsSource(lens, D, c, w.value) || LooseEnd(lens, dt, D, LE(c), BitLength(c), w.value))
            && forall src: seq<nat> {:trigger HoldsSource(lens, D, c, src)} | |src| == n && HoldsSource(lens, D, c, src) :: w == Some(src)
  {
    hide TableOf2, Walk, LE, Represents, CodeBits, FullCode, TableX2, SourceCoded, BitLength, LooseEnd;
    TableParts2(lens, dt, D);
    WalkSpells2(lens, dt, D, LE(c), BitLength(c), n);
    var w := Walk(Steps2(dt), D, LE(c), BitLength(c), n);
    if w.Some? && Spells(lens, D, w.value, LE(c), BitLength(c)) { HoldsSpelled(c, lens, D, w.value); }
    forall src: seq<nat> | |src| == n && HoldsSource(lens, D, c, src) ensures w == Some(src) {
      HoldsSpelled(c, lens, D, src);
      SpelledWalk2(lens, dt, D, LE(c), BitLength(c), src);
    }
  }

  lemma {:induction false} LooseSource(lens: seq<nat>, dt: seq<DEltX2>, D: nat, c: seq<byte>, r: Result<nat>, out: seq<nat>)
    requires TableOf2(lens, dt, D) && StepsOk(Steps2(dt), D) && OneStream(Steps2(dt), D, c, |out|, r, out)
    ensures OnlyLoosely(c, lens, dt, D, r, out)
  {
    hide TableOf2, StepsOk, HoldsSource, LooseEnd, Walk, LE, BitLength;
    if InitError(c) == None {
      WalkHolds2(lens, dt, D, c, |out|);
    } else {
      forall src: seq<nat> | |src| == |out| && HoldsSource(lens, D, c, src) ensures false { HoldsOpen(lens, D, c, src); }
    }
  }

  lemma {:induction false} LengthsOf(lens: seq<nat>, dt: seq<DEltX2>, D: nat)
    requires TableOf2(lens, dt, D)
    ensures CellLengths(dt)
  {
    hide FullCode, TableX2, CellX2;
    TableParts2(lens, dt, D);
    forall x | 0 <= x < |dt| ensures dt[x].length == 1 || dt[x].length == 2 {
      CellAt2(lens, dt, D, x);
      CellSizes(dt[x], lens, D, x);
    }
  }

  /**
    HUF_decompress1X2_usingDTable, for any bytes: what the reference decoder makes of them. A stream that holds a
    source of the length of the output gives that source; other streams are accepted only with a loose end.
   */
  method Decompress1X2(dst: array<nat>, cSrc: seq<byte>, dt: seq<DEltX2>, dtLog: nat, ghost lens: seq<nat>) returns (r: Result<nat>)
    requires TableOf2(lens, dt, dtLog)
    modifies dst
    ensures r.Ok? ==> r.value == dst.Length
    ensures StepsOk(Steps2(dt), dtLog) && OneStream(Steps2(dt), dtLog, cSrc, dst.Length, r, dst[..])
    ensures OnlyLoosely(cSrc, lens, dt, dtLog, r, dst[..])
  {
    hide TableOf2, CellLengths, Lane, Finished, AimOk, Walk, LE, DStream.Valid, OnlyLoosely, AimFor, OneStream, DStream.EndOfDStream,
      BitLength, StepsOk;
    StepsOk2(lens, dt, dtLog);
    LengthsOf(lens, dt, dtLog);
    var e := InitError(cSrc);
    if e.Some? {
      r := Err(e.value);
      NotOpened(Steps2(dt), dtLog, cSrc, dst.Length, r, dst[..]);
      LooseSource(lens, dt, dtLog, cSrc, r, dst[..]);
      return;
    }
    var d := new DStream(cSrc);
    ghost var h := AimFor(Steps2(dt), dtLog, cSrc, dst.Length);
    AimStarts(h, d, dst[..], 0, Steps2(dt), dtLog, cSrc, dst.Length);
    DecodeStreamX2(d, dst, 0, 0, dst.Length, dt, dtLog, h);
    FinishedIs(h, d, dst[..], 0, dst.Length);
    r := if d.EndOfDStream() then Ok(dst.Length) else Err(CorruptionDetected);
    IsOneStream(h, Steps2(dt), dtLog, cSrc, dst[..], r, d.EndOfDStream());
    LooseSource(lens, dt, dtLog, cSrc, r, dst[..]);
  }

  // ---------- a loose end ----------

  /** Two symbols of one bit each. */
  ghost predicate OneBitEach(lens: seq<nat>, src: seq<nat>) {
    forall i | 0 <= i < |src| :: src[i] < |lens| && lens[src[i]] == 1
  }

  /** An even number of such symbols, decoded as one symbol less. */
  lemma {:induction false} WalkShorter(lens: seq<nat>, dt: seq<DEltX2>, D: nat, stream: nat, k: nat, src: seq<nat>, m: nat)
    requires TableOf2(lens, dt, D) && D >= 2 && OneBitEach(lens, src) && |src| == m + m > 0 && Spells(lens, D, src, stream, k)
    ensures k == |src| && Walk(Steps2(dt), D, stream, k, |src| - 1) == Some(src[..|src| - 1])
    decreases m
  {
    hide TableOf2, Spells, Window, Slice, ValueOf, FullCode, TableX2, CellX2;
    TableParts2(lens, dt, D);
    WindowBound(stream, k, D);
    CellAt2(lens, dt, D, Window(stream, k, D));
    var s, t, rest := src[0], src[1], src[1..];
    assert rest[0] == t && rest[1..] == src[2..];
    SpellsFirst(lens, D, src, stream, k);
    SpellsFirst(lens, D, rest, stream, k - 1);
    WindowTwo(lens, dt[Window(stream, k, D)], D, stream, k, s, t);
    if m == 1 {
      assert src[2..] == [] && src[..1] == [s];
      SpellsNothing(lens, D, stream, k - 2);
    } else {
      WalkShorter(lens, dt, D, stream, k - 2, src[2..], m - 1);
      assert src[..|src| - 1] == [s, t] + src[2..][..|src| - 3];
    }
  }

  /**
    The double-symbol decoder accepts a stream for one symbol less than it holds, where the single-symbol decoder
    finds it corrupted: with two codes of one bit, every stream of an even number of symbols.
   */
  lemma {:induction false} ShorterAccepted(lens: seq<nat>, dt1: seq<DEltX1>, dt2: seq<DEltX2>, M: nat, D: nat, c: seq<byte>, src: seq<nat>, m: nat)
    requires TableOf(lens, dt1, M) && TableOf2(lens, dt2, D) && M <= D && D >= 2 && OneBitEach(lens, src) && |src| == m + m > 0
    requires HoldsSource(lens, M, c, src)
    ensures InitError(c) == None
    ensures Walk(Steps1(dt1), M, LE(c), BitLength(c), |src| - 1) == None
    ensures Walk(Steps2(dt2), D, LE(c), BitLength(c), |src| - 1) == Some(src[..|src| - 1])
  {
    hide TableOf, TableOf2, Walk, LE, BitLength, CodeBits, Represents, FullCode;
    HoldsOpen(lens, M, c, src);
    TableParts(lens, dt1, M);
    TableParts2(lens, dt2, D);
    HoldsSpelled(c, lens, M, src);
    WiderBits(lens, M, D, src, 0);
    WalkShorter(lens, dt2, D, LE(c), BitLength(c), src, m);
    SpelledWalk(lens, dt1, M, LE(c), BitLength(c), src);
    StepsOk1(lens, dt1, M);
    OneLength(dt1, M, LE(c), BitLength(c), |src|, |src| - 1);
  }

  /** The single-symbol decoder accepts a stream for one number of symbols only. */
  lemma {:induction false} OneLength(dt: seq<DEltX1>, M: nat, stream: nat, k: nat, n: nat, m: nat)
    requires StepsOk(Steps1(dt), M) && Walk(Steps1(dt), M, stream, k, n).Some? && n != m
    ensures Walk(Steps1(dt), M, stream, k, m) == None
    decreases n
  {
    hide Window, StepsOk;
    if n > 0 && m > 0 {
      var x := Window(stream, k, M);
      OneLength(dt, M, stream, k - dt[x].nbBits, n - 1, m - 1);
    } else if n > 0 {
      NothingLeft(dt, M, stream, k, n);
    } else if m > 0 && Walk(Steps1(dt), M, stream, k, m).Some? {
      NothingLeft(dt, M, stream, k, m);
    }
  }

  lemma {:induction false} NothingLeft(dt: seq<DEltX1>, M: nat, stream: nat, k: nat, n: nat)
    requires StepsOk(Steps1(dt), M) && n > 0 && Walk(Steps1(dt), M, stream, k, n).Some?
    ensures k > 0
  {
    hide Window;
    var x := Window(stream, k, M);
    assert Steps1(dt)[x].nbBits >= 1;
  }
}
