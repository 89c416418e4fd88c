/**
  What FSE_readNCount makes of arbitrary bytes. The reader is described by functions of its cursor: the place of its
  32-bit window, how far it has read in it, and what it still sees there. Near the end of the input the window stops
  moving, and then the reader sees zeros, or old bits, in place of what it should.
 */
module FseNCountRef {
  import opened Bits
  import opened Errors
  import opened FseSpread
  import opened FseNCount

  datatype Cursor = Cursor(ip: nat, bitCount: nat, bits: nat)

  function Minus(a: nat, b: nat): nat {
    if a >= b then a - b else 0
  }

  /** The 32-bit word at `ip`, without its first bits. */
  ghost function WordFrom(src: seq<byte>, ip: nat, bitCount: nat): nat {
    if ip + 4 <= |src| then Shr(LE(src[ip..ip + 4]), bitCount) else 0
  }

  lemma {:induction false} ShrLess(x: nat, n: nat)
    requires x > 0 && n > 0
    ensures Shr(x, n) < x
  {
    if n == 1 {
      assert Shr(x, 1) == Half(x);
    } else if Half(x) > 0 {
      ShrLess(Half(x), n - 1);
    } else {
      ShrOfZero(n - 1);
    }
  }

  lemma {:induction false} ShrOfZero(n: nat)
    ensures Shr(0, n) == 0
  {
    if n > 0 { ShrOfZero(n - 1); }
  }

  lemma {:induction false} LowOfZero(n: nat)
    ensures Low(0, n) == 0
  {
    if n > 0 { LowOfZero(n - 1); }
  }

  /** Groups of 24 symbols without a counter: 16 ones each. */
  ghost function LongRuns(src: seq<byte>, q: Cursor, n: nat): (Cursor, nat)
    decreases Minus(|src|, q.ip), q.bits
  {
    if Low(q.bits, 16) != 0xFFFF then (q, n)
    else if q.ip + 5 < |src| then LongRuns(src, Cursor(q.ip + 2, q.bitCount, WordFrom(src, q.ip + 2, q.bitCount)), n + 24)
    else
      LowOfZero(16);
      ShrLess(q.bits, 16);
      LongRuns(src, Cursor(q.ip, q.bitCount + 16, Shr(q.bits, 16)), n + 24)
  }

  /** Groups of 3: two ones each. */
  ghost function ShortRuns(q: Cursor, n: nat): (Cursor, nat)
    decreases q.bits
  {
    if Low(q.bits, 2) != 3 then (q, n)
    else
      LowOfZero(2);
      ShrLess(q.bits, 2);
      ShortRuns(Cursor(q.ip, q.bitCount + 2, Shr(q.bits, 2)), n + 3)
  }

  /** The window can be moved to the byte at which `t` bits from its start end. */
  ghost predicate CanMove(src: seq<byte>, ip: nat, t: nat) {
    ip + 7 <= |src| || ip + Shr(t, 3) + 4 <= |src|
  }

  /** A run, with the two bits that end it, and the first symbol after it. */
  ghost function RunRead(src: seq<byte>, q: Cursor, n: nat): (Cursor, nat) {
    var (a, n1) := LongRuns(src, q, n);
    var (b, n2) := ShortRuns(a, n1);
    var t := b.bitCount + 2;
    (if CanMove(src, b.ip, t) then Cursor(b.ip + Shr(t, 3), Low(t, 3), WordFrom(src, b.ip + Shr(t, 3), Low(t, 3)))
     else Cursor(b.ip, t, Shr(b.bits, 2)),
     n2 + Low(b.bits, 2))
  }

  /** A counter. After it, a window that cannot move on is the last one, and its shift wraps at 32. */
  ghost function FieldRead(src: seq<byte>, q: Cursor, remaining: nat): (Cursor, int)
    requires remaining > 0
  {
    var (count, w) := ReadCount(q.bits, remaining);
    var t := q.bitCount + w;
    var ip := if CanMove(src, q.ip, t) then q.ip + Shr(t, 3) else Minus(|src|, 4);
    var bitCount := if CanMove(src, q.ip, t) then Low(t, 3) else Minus(t, Times8(Minus(|src|, q.ip + 4)));
    (Cursor(ip, bitCount, WordFrom(src, ip, Low(bitCount, 5))), count)
  }

  /**
    The counters from the cursor on, after those in `norm`: as long as there are cells to give out and symbols left,
    a run if the last counter was 0, and a counter. In the end exactly all cells must be given out, within the window.
   */
  ghost function CountersRead(src: seq<byte>, maxSymbolValue: nat, q: Cursor, norm: seq<int>, previous0: bool, remaining: nat):
      (r: Result<(seq<int>, nat)>)
    decreases maxSymbolValue + 1 - |norm|
  {
    if remaining <= 1 || |norm| > maxSymbolValue then
      if remaining != 1 || q.bitCount > 32 then Err(CorruptionDetected) else Ok((norm, q.ip + BytesFor(q.bitCount)))
    else
      var (a, n0) := if previous0 then RunRead(src, q, |norm|) else (q, |norm|);
      if n0 > maxSymbolValue then Err(MaxSymbolValueTooSmall)
      else
        var (b, count) := FieldRead(src, a, remaining);
        var zeros: seq<int> := seq(Minus(n0, |norm|), _ => 0);
        CountersRead(src, maxSymbolValue, b, norm + zeros + [if count >= 0x8000 then count - 0x1_0000 else count], count == 0,
                     Minus(remaining, Freq(count)))
  }

  /** The counters, their table log and the size of the description, for an input of at least 4 bytes. */
  ghost function DescriptionRead(src: seq<byte>, maxSymbolValue: nat): Result<(seq<int>, nat, nat)>
    requires |src| >= 4
  {
    var tableLog := Low(LE(src[0..4]), 4) + 5;
    if tableLog > 15 then Err(TableLogTooLarge)
    else
      match CountersRead(src, maxSymbolValue, Cursor(0, 4, WordFrom(src, 0, 4)), [], false, Pow2(tableLog) + 1)
      case Err(e) => Err(e)
      case Ok((norm, size)) => Ok((norm, tableLog, size))
  }

  /** A shorter input is followed by zeros, which the description must not reach. */
  ghost function NCountRead(src: seq<byte>, maxSymbolValue: nat): Result<(seq<int>, nat, nat)> {
    if |src| >= 4 then DescriptionRead(src, maxSymbolValue)
    else
      var zeros: seq<byte> := seq(4 - |src|, _ => 0);
      match DescriptionRead(src + zeros, maxSymbolValue)
      case Err(e) => Err(e)
      case Ok((norm, tableLog, size)) => if size > |src| then Err(CorruptionDetected) else Ok((norm, tableLog, size))
  }
}
