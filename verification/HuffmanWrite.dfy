/**
  The writers of huffman.c: the write cache, the code table, and the bits of the source, to memory and to a
  file. A file is the bytes written to it so far.
 */
module HuffmanWrite {
  import opened Bits
  import opened FseSpread
  import opened HuffmanBits
  import opened HuffmanLabels
  import opened HuffmanCodes
  import opened HuffmanBest
  import opened HuffmanBuild

  const CACHE_SIZE := 1024

  /** buf_cache; `bufout` is the memory that has been written out. */
  class BufCache {
    const cache: array<byte>
    var cacheCur: nat
    var bufout: seq<byte>

    ghost predicate Valid()
      reads this
    {
      cacheCur <= cache.Length
    }

    /** All bytes written so far. */
    ghost function Contents(): seq<byte>
      requires Valid()
      reads this, cache
    {
      bufout + cache[..cacheCur]
    }

    /** init_cache. */
    constructor (cacheSize: nat)
      ensures Valid() && Contents() == [] && fresh(cache)
    {
      cache := new byte[cacheSize](_ => 0);
      cacheCur, bufout := 0, [];
    }

    /** flush_cache. */
    method Flush()
      requires Valid()
      modifies this
      ensures Valid() && cacheCur == 0 && bufout == old(Contents()) && Contents() == old(Contents())
    {
      if cacheCur > 0 {
        bufout := bufout + cache[..cacheCur];
        cacheCur := 0;
      }
    }

    /** write_cache: what does not fit the free part of the cache bypasses it. */
    method Write(data: seq<byte>)
      requires Valid()
      modifies this, cache
      ensures Valid() && Contents() == old(Contents()) + data
    {
      if |data| > cache.Length - cacheCur {
        Flush();
        bufout := bufout + data;
      } else {
        ghost var before := cache[..cacheCur];
        forall k | 0 <= k < |data| { cache[cacheCur + k] := data[k]; }
        assert cache[..cacheCur + |data|] == before + data;
        cacheCur := cacheCur + |data|;
      }
    }
  }

  // ---------- the code table ----------

  /** Symbol, number of bits (one byte), and the code bytes. */
  function EntryBytes(s: nat, slot: Slot): seq<byte>
    requires s < MAX_SYMBOLS
  {
    if slot.Coded? then [s, LowByte(slot.code.numbits)] + slot.code.bits else []
  }

  function EntriesFrom(se: seq<Slot>, s: nat): seq<byte>
    requires s <= |se| == MAX_SYMBOLS
    decreases |se| - s
  {
    if s == |se| then [] else EntryBytes(s, se[s]) + EntriesFrom(se, s + 1)
  }

  function CountFrom(se: seq<Slot>, s: nat): (n: nat)
    requires s <= |se|
    ensures n <= |se| - s
    decreases |se| - s
  {
    if s == |se| then 0 else (if se[s].Coded? then 1 else 0) + CountFrom(se, s + 1)
  }

  /** The table: number of entries, number of symbols, entries. */
  function TableBytes(se: seq<Slot>, symbolCount: nat): seq<byte>
    requires |se| == MAX_SYMBOLS
  {
    ToNet(CountFrom(se, 0)) + ToNet(symbolCount) + EntriesFrom(se, 0)
  }

  /** After the entries before `s`, with `c` written so far, `whole` is what will have been written in the end. */
  ghost predicate Entries(c: seq<byte>, se: seq<Slot>, s: nat, whole: seq<byte>) {
    s <= |se| == MAX_SYMBOLS && c + EntriesFrom(se, s) == whole
  }

  lemma {:induction false} EntriesNext(c: seq<byte>, se: seq<Slot>, s: nat, whole: seq<byte>)
    requires Entries(c, se, s, whole) && s < |se|
    ensures Entries(c + EntryBytes(s, se[s]), se, s + 1, whole)
  {
    hide EntryBytes;
  }

  lemma {:induction false} EntriesEnd(c: seq<byte>, se: seq<Slot>, whole: seq<byte>)
    requires Entries(c, se, MAX_SYMBOLS, whole)
    ensures c == whole
  {
  }

  lemma {:induction false} EntriesStart(before: seq<byte>, se: seq<Slot>, count: nat, symbolCount: nat)
    requires |se| == MAX_SYMBOLS && count == CountFrom(se, 0)
    ensures Entries(before + ToNet(count) + ToNet(symbolCount), se, 0, before + TableBytes(se, symbolCount))
  {
    hide ToNet, EntriesFrom, CountFrom;
    assert before + ToNet(count) + ToNet(symbolCount) + EntriesFrom(se, 0)
        == before + (ToNet(count) + ToNet(symbolCount) + EntriesFrom(se, 0));
  }

  method CountCodes(pSE: array<Slot>) returns (count: nat)
    requires pSE.Length == MAX_SYMBOLS
    ensures count == CountFrom(pSE[..], 0)
  {
    count := 0;
    for i := 0 to MAX_SYMBOLS
      invariant count + CountFrom(pSE[..], i) == CountFrom(pSE[..], 0)
    {
      if pSE[i].Coded? { count := count + 1; }
    }
  }

  /** write_code_table_to_memory. */
  method WriteTableToMemory(pc: BufCache, pSE: array<Slot>, symbolCount: nat)
    requires pc.Valid() && pSE.Length == MAX_SYMBOLS
    modifies pc, pc.cache
    ensures pc.Valid() && pc.Contents() == old(pc.Contents()) + TableBytes(pSE[..], symbolCount)
  {
    hide EntryBytes, EntriesFrom, Entries, TableBytes, CountFrom, ToNet, BufCache.Contents;
    ghost var start, se := pc.Contents(), pSE[..];
    var count := CountCodes(pSE);
    EntriesStart(start, se, count, symbolCount);
    pc.Write(ToNet(count));
    pc.Write(ToNet(symbolCount));
    for i := 0 to MAX_SYMBOLS
      invariant pc.Valid() && Entries(pc.Contents(), se, i, start + TableBytes(se, symbolCount))
    {
      EntriesNext(pc.Contents(), se, i, start + TableBytes(se, symbolCount));
      WriteEntry(pc, i, pSE[i]);
    }
    EntriesEnd(pc.Contents(), se, start + TableBytes(se, symbolCount));
  }

  method WriteEntry(pc: BufCache, s: nat, slot: Slot)
    requires pc.Valid() && s < MAX_SYMBOLS
    modifies pc, pc.cache
    ensures pc.Valid() && pc.Contents() == old(pc.Contents()) + EntryBytes(s, slot)
  {
    hide LowByte;
    if slot.Coded? {
      pc.Write([s]);
      pc.Write([LowByte(slot.code.numbits)]);
      pc.Write(slot.code.bits);
    }
  }

  /** write_code_table. */
  method WriteTable(pSE: array<Slot>, symbolCount: nat) returns (out: seq<byte>)
    requires pSE.Length == MAX_SYMBOLS
    ensures out == TableBytes(pSE[..], symbolCount)
  {
    hide EntryBytes, EntriesFrom, Entries, TableBytes, CountFrom, ToNet;
    ghost var se := pSE[..];
    var count := CountCodes(pSE);
    EntriesStart([], se, count, symbolCount);
    assert [] + TableBytes(se, symbolCount) == TableBytes(se, symbolCount);
    out := ToNet(count);
    assert [] + ToNet(count) == out;
    out := out + ToNet(symbolCount);
    for i := 0 to MAX_SYMBOLS
      invariant Entries(out, se, i, TableBytes(se, symbolCount))
    {
      EntriesNext(out, se, i, TableBytes(se, symbolCount));
      out := PutEntry(out, i, pSE[i]);
    }
    EntriesEnd(out, se, TableBytes(se, symbolCount));
  }

  method PutEntry(out0: seq<byte>, s: nat, slot: Slot) returns (out: seq<byte>)
    requires s < MAX_SYMBOLS
    ensures out == out0 + EntryBytes(s, slot)
  {
    out := out0;
    if slot.Coded? {
      out := out + [s];
      out := out + [LowByte(slot.code.numbits)];
      out := out + slot.code.bits;
    }
  }

  // ---------- the bits of the source ----------

  /** The codes of the first `n` bytes, one after another. */
  ghost function EncBits(paths: seq<seq<bool>>, src: seq<byte>, n: nat): seq<bool>
    requires |paths| == MAX_SYMBOLS && n <= |src|
  {
    if n == 0 then [] else EncBits(paths, src, n - 1) + paths[src[n - 1]]
  }

  lemma {:induction false} EncLength(paths: seq<seq<bool>>, src: seq<byte>, n: nat)
    requires |paths| == MAX_SYMBOLS && n <= |src|
    ensures |EncBits(paths, src, n)| == CodeLength(PathLengths(paths), src, n)
  {
    if n > 0 { EncLength(paths, src, n - 1); }
  }

  /** Whole bytes `full`, and a last one of which `curbit` bits are in use, hold `bits`. */
  ghost predicate Put(full: seq<byte>, curbyte: byte, curbit: nat, bits: seq<bool>) {
    && curbit == Low(|bits|, 3) && (curbit == 0 ==> curbyte == 0)
    && Filled(if curbit > 0 then full + [curbyte] else full, bits)
  }

  lemma {:induction false} PutNext(full: seq<byte>, curbyte: byte, curbit: nat, bits: seq<bool>, b: bool)
    requires Put(full, curbyte, curbit, bits)
    ensures curbit < 8 && SetBit(curbyte, curbit, b) < 256
    ensures var w := SetBit(curbyte, curbit, b);
            if curbit + 1 == 8 then Put(full + [w], 0, 0, bits + [b]) else Put(full, w, curbit + 1, bits + [b])
  {
    hide SetBit, Low, Shr;
    var bytes := if curbit > 0 then full + [curbyte] else full;
    FillNext(bytes, bits, b);
    NumBytesBound(|bits|);
    BytesAndBits(|bits|);
    var w := SetBit(curbyte, curbit, b);
    assert Extended(bytes, |bits|) == full + [curbyte];
    assert (full + [curbyte])[|full| := w] == full + [w];
  }

  /** do_memory_encode, for one byte of the source. */
  method EncodeToMemory(pc: BufCache, code: Code, curbyte0: byte, curbit0: nat, ghost start: seq<byte>, ghost full0: seq<byte>,
                        ghost bits0: seq<bool>, ghost path: seq<bool>) returns (curbyte: byte, curbit: nat, ghost full: seq<byte>)
    requires pc.Valid() && pc.Contents() == start + full0 && Put(full0, curbyte0, curbit0, bits0) && CodeIs(code, path)
    modifies pc, pc.cache
    ensures pc.Valid() && pc.Contents() == start + full && Put(full, curbyte, curbit, bits0 + path)
  {
    hide Put, SetBit, Filled, GetBit, Low, Shr, BufCache.Contents;
    curbyte, curbit, full := curbyte0, curbit0, full0;
    assert bits0 + path[..0] == bits0;
    for i := 0 to code.numbits
      invariant pc.Valid() && pc.Contents() == start + full && Put(full, curbyte, curbit, bits0 + path[..i])
    {
      BitsHeld(code.bits, path, i);
      var b := GetBit(code.bits, i);
      PutNext(full, curbyte, curbit, bits0 + path[..i], b);
      assert bits0 + path[..i + 1] == bits0 + path[..i] + [b];
      curbyte := SetBit(curbyte, curbit, b);
      curbit := curbit + 1;
      if curbit == 8 {
        pc.Write([curbyte]);
        full := full + [curbyte];
        assert start + full == start + full[..|full| - 1] + [curbyte];
        curbyte, curbit := 0, 0;
      }
    }
    assert bits0 + path[..|path|] == bits0 + path;
  }

  lemma {:induction false} PutStart()
    ensures Put([], 0, 0, [])
  {
    hide Shr, Low;
    FilledNone();
    BytesAndBits(0);
  }

  lemma {:induction false} PutEnd(full: seq<byte>, curbyte: byte, curbit: nat, bits: seq<bool>)
    requires Put(full, curbyte, curbit, bits)
    ensures Filled(if curbit > 0 then full + [curbyte] else full, bits)
  {
  }

  lemma {:induction false} CodeOf(se: seq<Slot>, paths: seq<seq<bool>>, src: seq<byte>, i: nat)
    requires CodesFor(se, paths, src) && i < |src|
    ensures |se| == |paths| == MAX_SYMBOLS && se[src[i]].Coded? && CodeIs(se[src[i]].code, paths[src[i]])
  {
    hide CodeIs;
    OccPositive(src, |src|, i);
  }

  /** do_memory_encode. */
  method MemoryEncode(pc: BufCache, bufin: seq<byte>, pSE: array<Slot>, ghost paths: seq<seq<bool>>) returns (ghost data: seq<byte>)
    requires pc.Valid() && pSE.Length == MAX_SYMBOLS && CodesFor(pSE[..], paths, bufin) && |paths| == MAX_SYMBOLS
    modifies pc, pc.cache
    ensures pc.Valid() && pc.Contents() == old(pc.Contents()) + data && Filled(data, EncBits(paths, bufin, |bufin|))
  {
    hide CodesFor, Put, Filled, CodeIs, BufCache.Contents;
    ghost var start, se := pc.Contents(), pSE[..];
    var curbyte: byte, curbit: nat := 0, 0;
    ghost var full := [];
    PutStart();
    assert start + full == start;
    for i := 0 to |bufin|
      invariant pc.Valid() && pc.Contents() == start + full && Put(full, curbyte, curbit, EncBits(paths, bufin, i))
    {
      CodeOf(se, paths, bufin, i);
      curbyte, curbit, full := EncodeToMemory(pc, pSE[bufin[i]].code, curbyte, curbit, start, full, EncBits(paths, bufin, i), paths[bufin[i]]);
    }
    PutEnd(full, curbyte, curbit, EncBits(paths, bufin, |bufin|));
    data := if curbit > 0 then full + [curbyte] else full;
    if curbit > 0 { pc.Write([curbyte]); }
    assert start + full + [curbyte] == start + (full + [curbyte]);
  }

  /** do_file_encode, for one byte of the source. */
  method EncodeToFile(out0: seq<byte>, code: Code, curbyte0: byte, curbit0: nat, ghost bits0: seq<bool>, ghost path: seq<bool>)
    returns (out: seq<byte>, curbyte: byte, curbit: nat)
    requires Put(out0, curbyte0, curbit0, bits0) && CodeIs(code, path)
    ensures Put(out, curbyte, curbit, bits0 + path)
  {
    hide Put, SetBit, Filled, GetBit, Low, Shr;
    out, curbyte, curbit := out0, curbyte0, curbit0;
    assert bits0 + path[..0] == bits0;
    for i := 0 to code.numbits
      invariant Put(out, curbyte, curbit, bits0 + path[..i])
    {
      BitsHeld(code.bits, path, i);
      var b := GetBit(code.bits, i);
      PutNext(out, curbyte, curbit, bits0 + path[..i], b);
      assert bits0 + path[..i + 1] == bits0 + path[..i] + [b];
      curbyte := SetBit(curbyte, curbit, b);
      curbit := curbit + 1;
      if curbit == 8 {
        out := out + [curbyte];
        curbyte, curbit := 0, 0;
      }
    }
    assert bits0 + path[..|path|] == bits0 + path;
  }

  /** do_file_encode: the bytes after the code table. */
  method FileEncode(src: seq<byte>, pSE: array<Slot>, ghost paths: seq<seq<bool>>) returns (out: seq<byte>)
    requires pSE.Length == MAX_SYMBOLS && CodesFor(pSE[..], paths, src) && |paths| == MAX_SYMBOLS
    ensures Filled(out, EncBits(paths, src, |src|))
  {
    hide CodesFor, Put, Filled, CodeIs;
    ghost var se := pSE[..];
    var curbyte: byte, curbit: nat := 0, 0;
    out := [];
    PutStart();
    for i := 0 to |src|
      invariant Put(out, curbyte, curbit, EncBits(paths, src, i))
    {
      CodeOf(se, paths, src, i);
      out, curbyte, curbit := EncodeToFile(out, pSE[src[i]].code, curbyte, curbit, EncBits(paths, src, i), paths[src[i]]);
    }
    PutEnd(out, curbyte, curbit, EncBits(paths, src, |src|));
    if curbit > 0 { out := out + [curbyte]; }
  }
}
