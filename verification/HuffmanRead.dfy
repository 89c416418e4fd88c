/**
  The readers of huffman.c: the code table from memory or from a file, and the decoding loop. A ghost
  description of what was written goes along; without it the input is arbitrary.
 */
module HuffmanRead {
  import opened Bits
  import opened FseSpread
  import opened HuffmanBits
  import opened HuffmanLabels
  import opened HuffmanNodes
  import opened HuffmanCodes
  import opened HuffmanBuild
  import opened HuffmanWrite
  import opened HuffmanTrie

  /** `Refused` is an error return; `Undefined` is a step that C does not define, like following a null pointer. */
  datatype Outcome<+T> = Done(value: T) | Refused | Undefined

  /** What is known of the input, if it is `good`: the code, the source, and the bytes after the table. */
  datatype Known = Known(good: bool, se: seq<Slot>, paths: seq<seq<bool>>, src: seq<byte>, data: seq<byte>)

  ghost predicate WrittenFor(k: Known, input: seq<byte>) {
    k.good ==>
      && CodesFor(k.se, k.paths, k.src) && |k.se| == |k.paths| == MAX_SYMBOLS
      && input == TableBytes(k.se, Low(|k.src|, 32)) + k.data
      && Filled(k.data, EncBits(k.paths, k.src, |k.src|))
  }

  // ---------- the tree after some of the entries ----------

  /** The tree of the codes of the symbols below `s`. */
  ghost predicate HoldsCodes(at: map<seq<bool>, Node>, se: seq<Slot>, paths: seq<seq<bool>>, s: nat)
    requires s <= |se| == |paths|
  {
    && (forall t: nat | t < s && se[t].Coded? :: paths[t] in at && at[paths[t]].isLeaf && at[paths[t]].symbol == t)
    && (forall p | p in at && p != [] :: exists t: nat :: t < s && se[t].Coded? && p <= paths[t])
    && (forall p | p in at && at[p].isLeaf :: exists t: nat :: t < s && se[t].Coded? && p == paths[t])
  }

  lemma {:induction false} NoCodesYet(root: Node, se: seq<Slot>, paths: seq<seq<bool>>)
    requires !root.isLeaf && |se| == |paths|
    ensures HoldsCodes(map[[] := root], se, paths, 0)
  {
  }

  lemma {:induction false} SkipSymbol(at: map<seq<bool>, Node>, se: seq<Slot>, paths: seq<seq<bool>>, s: nat)
    requires s < |se| == |paths| && HoldsCodes(at, se, paths, s) && !se[s].Coded?
    ensures HoldsCodes(at, se, paths, s + 1)
  {
    forall p | p in at && p != [] ensures exists t: nat :: t < s + 1 && se[t].Coded? && p <= paths[t] {
      var t: nat :| t < s && se[t].Coded? && p <= paths[t];
      assert t < s + 1;
    }
    forall p | p in at && at[p].isLeaf ensures exists t: nat :: t < s + 1 && se[t].Coded? && p == paths[t] {
      var t: nat :| t < s && se[t].Coded? && p == paths[t];
      assert t < s + 1;
    }
  }

  /** The next code runs through no leaf and is not in the tree yet. */
  lemma {:induction false} CodeIsNew(at: map<seq<bool>, Node>, se: seq<Slot>, paths: seq<seq<bool>>, src: seq<byte>, s: nat)
    requires CodesFor(se, paths, src) && s < |se| == |paths| && HoldsCodes(at, se, paths, s) && se[s].Coded? && |paths[s]| > 0
    ensures Clear(at, paths[s], |paths[s]|) && paths[s] !in at
  {
    hide CodeIs, Occ;
  }

  lemma {:induction false} CodeAdded(at: map<seq<bool>, Node>, at': map<seq<bool>, Node>, se: seq<Slot>, paths: seq<seq<bool>>, s: nat)
    requires s < |se| == |paths| && HoldsCodes(at, se, paths, s) && se[s].Coded? && s < 256
    requires paths[s] !in at && Extends(at, at', paths[s], |paths[s]|, s)
    ensures HoldsCodes(at', se, paths, s + 1)
  {
    forall p | p in at' && p != [] ensures exists t: nat :: t < s + 1 && se[t].Coded? && p <= paths[t] {
      if p in at {
        var t: nat :| t < s && se[t].Coded? && p <= paths[t];
        assert t < s + 1;
      } else {
        assert s < s + 1;
      }
    }
    forall p | p in at' && at'[p].isLeaf ensures exists t: nat :: t < s + 1 && se[t].Coded? && p == paths[t] {
      if p in at {
        var t: nat :| t < s && se[t].Coded? && p == paths[t];
        assert t < s + 1;
      } else {
        assert s < s + 1;
      }
    }
  }

  // ---------- reading entries ----------

  /** `count` entries from symbol `s` on are left at `index`, and the others are in the tree. */
  ghost predicate Parsing(k: Known, input: seq<byte>, index: nat, s: nat, count: nat, at: map<seq<bool>, Node>) {
    k.good ==>
      && CodesFor(k.se, k.paths, k.src) && s <= |k.se| == |k.paths| == MAX_SYMBOLS && index <= |input|
      && input[index..] == EntriesFrom(k.se, s) + k.data && count == CountFrom(k.se, s)
      && HoldsCodes(at, k.se, k.paths, s)
  }

  lemma {:induction false} NextEntry(k: Known, input: seq<byte>, index: nat, s: nat, count: nat, at: map<seq<bool>, Node>) returns (s': nat)
    requires k.good && Parsing(k, input, index, s, count, at) && count > 0
    ensures Parsing(k, input, index, s', count, at) && s' < |k.se| == MAX_SYMBOLS && k.se[s'].Coded?
    decreases |k.se| - s
  {
    hide CodesFor;
    if k.se[s].Coded? {
      s' := s;
    } else {
      SkipSymbol(at, k.se, k.paths, s);
      assert [] + EntriesFrom(k.se, s + 1) == EntriesFrom(k.se, s + 1);
      s' := NextEntry(k, input, index, s + 1, count, at);
    }
  }

  /** The entry at `index`. */
  lemma {:induction false} EntryAt(k: Known, input: seq<byte>, index: nat, s: nat, count: nat, at: map<seq<bool>, Node>)
    requires k.good && Parsing(k, input, index, s, count, at) && s < MAX_SYMBOLS && k.se[s].Coded?
    ensures var n := |k.paths[s]|;
            && n < MAX_SYMBOLS && index + 2 + NumBytes(n) <= |input| && input[index] == s && input[index + 1] == n
            && BitsOf(input[index + 2..index + 2 + NumBytes(n)], n) == k.paths[s]
            && input[index + 2 + NumBytes(n)..] == EntriesFrom(k.se, s + 1) + k.data
  {
    hide HoldsCodes, CountFrom, EntriesFrom, CodesFor, Filled, NumBytes, BitsOf, LowByte;
    var code, n := k.se[s].code, |k.paths[s]|;
    PathLength(k.se, k.paths, k.src, s);
    ByteLength(n);
    EntriesHead(k.se, s);
    BitsAre(code.bits, k.paths[s]);
    EntryParts(input, index, s, n, code.bits, EntriesFrom(k.se, s + 1), k.data);
  }

  lemma {:induction false} PathLength(se: seq<Slot>, paths: seq<seq<bool>>, src: seq<byte>, s: nat)
    requires CodesFor(se, paths, src) && s < |se| && se[s].Coded?
    ensures |se| == |paths| == MAX_SYMBOLS && CodeIs(se[s].code, paths[s]) && |paths[s]| < MAX_SYMBOLS
  {
    hide CodeIs, Occ;
  }

  lemma {:induction false} EntryParts(input: seq<byte>, index: nat, s: byte, n: byte, bits: seq<byte>, others: seq<byte>, data: seq<byte>)
    requires index <= |input| && input[index..] == [s, n] + bits + others + data
    ensures var m := |bits|;
            && index + 2 + m <= |input| && input[index] == s && input[index + 1] == n
            && input[index + 2..index + 2 + m] == bits && input[index + 2 + m..] == others + data
  {
    var rest, m := input[index..], |bits|;
    assert rest == [s, n] + bits + (others + data);
    assert input[index] == rest[0] && input[index + 1] == rest[1];
    assert input[index + 2..index + 2 + m] == rest[2..2 + m] && input[index + 2 + m..] == rest[2 + m..];
  }

  lemma {:induction false} BitsAre(bytes: seq<byte>, path: seq<bool>)
    requires Filled(bytes, path)
    ensures |bytes| == NumBytes(|path|) && BitsOf(bytes, |path|) == path
  {
  }

  lemma {:induction false} ByteLength(n: nat)
    requires n < 256
    ensures LowByte(n) == n
  {
    SmallPowers();
    LowSmall(n, 8);
  }

  lemma {:induction false} EntriesHead(se: seq<Slot>, s: nat)
    requires s < |se| == MAX_SYMBOLS && se[s].Coded?
    ensures EntriesFrom(se, s) == [s, LowByte(se[s].code.numbits)] + se[s].code.bits + EntriesFrom(se, s + 1)
  {
  }

  /** After the entry. */
  lemma {:induction false} EntryDone(k: Known, input: seq<byte>, index: nat, s: nat, count: nat, at: map<seq<bool>, Node>,
                                     at': map<seq<bool>, Node>)
    requires k.good && Parsing(k, input, index, s, count, at) && s < MAX_SYMBOLS && k.se[s].Coded? && |k.paths[s]| > 0
    requires Extends(at, at', k.paths[s], |k.paths[s]|, s)
    ensures count > 0 && Parsing(k, input, index + 2 + NumBytes(|k.paths[s]|), s + 1, count - 1, at')
  {
    hide CodesFor, HoldsCodes, EntriesFrom, NumBytes;
    EntryAt(k, input, index, s, count, at);
    CodeIsNew(at, k.se, k.paths, k.src, s);
    CodeAdded(at, at', k.se, k.paths, s);
  }

  // ---------- sources with one symbol, and with several ----------

  predicate TwoSymbols(src: seq<byte>) {
    exists i: nat, j: nat :: i < j < |src| && src[i] != src[j]
  }

  /** With at least two symbols no code is empty, and there are bytes after the table. */
  ghost predicate Several(k: Known)
    requires |k.se| == |k.paths|
  {
    |k.data| > 0 && forall s: nat | s < |k.se| && k.se[s].Coded? :: |k.paths[s]| > 0
  }

  lemma {:induction false} SeveralCodes(k: Known, input: seq<byte>)
    requires k.good && WrittenFor(k, input) && TwoSymbols(k.src)
    ensures |k.se| == |k.paths| && Several(k)
  {
    hide CodesFor, CodeIs, Occ, TableBytes, Low, Shr, EncBits, Filled;
    var i: nat, j: nat :| i < j < |k.src| && k.src[i] != k.src[j];
    CodeOf(k.se, k.paths, k.src, i);
    CodeOf(k.se, k.paths, k.src, j);
    forall s: nat | s < |k.se| && k.se[s].Coded? ensures |k.paths[s]| > 0 {
      NotEmpty(k.se, k.paths, k.src, s, if s == k.src[i] then k.src[j] else k.src[i]);
    }
    EncLonger(k.paths, k.src, i + 1, |k.src|);
    EncLast(k.paths, k.src, i + 1);
    BytesNeeded(k.data, EncBits(k.paths, k.src, |k.src|));
  }

  lemma {:induction false} NotEmpty(se: seq<Slot>, paths: seq<seq<bool>>, src: seq<byte>, s: nat, t: nat)
    requires CodesFor(se, paths, src) && s < |se| && t < |se| && se[s].Coded? && se[t].Coded? && s != t
    ensures |paths| == |se| && |paths[s]| > 0
  {
    hide CodeIs, Occ;
    assert paths[s] <= paths[t] ==> s == t;
  }

  lemma {:induction false} EncLast(paths: seq<seq<bool>>, src: seq<byte>, n: nat)
    requires |paths| == MAX_SYMBOLS && 0 < n <= |src|
    ensures EncBits(paths, src, n) == EncBits(paths, src, n - 1) + paths[src[n - 1]]
  {
  }

  lemma {:induction false} TwoFrom(src: seq<byte>, i: nat, j: nat)
    requires i < |src| && j < |src| && src[i] != src[j]
    ensures TwoSymbols(src)
  {
    var a, b := if i < j then i else j, if i < j then j else i;
    assert a < b < |src| && src[a] != src[b];
  }

  lemma {:induction false} CodedIs(se: seq<Slot>, paths: seq<seq<bool>>, src: seq<byte>, s: nat)
    requires CodesFor(se, paths, src) && s < |se| && se[s].Coded?
    ensures |se| == |paths| == MAX_SYMBOLS && CodeIs(se[s].code, paths[s]) && Occ(src, |src|, s) > 0
    ensures |paths[s]| > 0 ==> exists t: nat :: t < MAX_SYMBOLS && t != s && se[t].Coded?
  {
    hide CodeIs, Occ;
  }

  lemma {:induction false} BytesNeeded(bytes: seq<byte>, bits: seq<bool>)
    requires Filled(bytes, bits)
    ensures |bits| > 0 <==> |bytes| > 0
    ensures |bits| <= Times8(|bytes|)
  {
    hide Low, Shr;
    NumBytesBound(|bits|);
    BytesAndBits(|bits|);
  }

  lemma {:induction false} EncLonger(paths: seq<seq<bool>>, src: seq<byte>, i: nat, n: nat)
    requires |paths| == MAX_SYMBOLS && i <= n <= |src|
    ensures EncBits(paths, src, i) <= EncBits(paths, src, n)
  {
    if i < n { EncLonger(paths, src, i, n - 1); }
  }

  /** With one symbol its code is empty, and the input ends with its entry; without any it ends before. */
  ghost predicate Few(k: Known, input: seq<byte>) {
    && |k.data| == 0
    && (|k.src| == 0 ==> |input| == 8 && CountFrom(k.se, 0) == 0)
    && (|k.src| > 0 ==> |input| == 10 && CountFrom(k.se, 0) == 1 && input[8] == k.src[0] && input[9] == 0)
  }

  lemma {:induction false} FewCodes(k: Known, input: seq<byte>)
    requires k.good && WrittenFor(k, input) && !TwoSymbols(k.src)
    ensures Few(k, input)
  {
    hide CodesFor, TableBytes, EncBits, Filled, TwoSymbols, CountFrom, EntriesFrom, Low;
    forall s: nat | s < MAX_SYMBOLS && k.se[s].Coded? ensures |k.src| > 0 && s == k.src[0] && k.paths[s] == [] {
      OnlySymbol(k, s);
    }
    if |k.src| > 0 { CodeOf(k.se, k.paths, k.src, 0); }
    EncNothing(k, |k.src|);
    BytesNeeded(k.data, EncBits(k.paths, k.src, |k.src|));
    OneEntry(k, 0);
    TableParts(k, input);
    if |k.src| > 0 { assert input[8] == input[8..][0] && input[9] == input[8..][1]; }
  }

  lemma {:induction false} TableParts(k: Known, input: seq<byte>)
    requires k.good && WrittenFor(k, input) && |k.data| == 0
    ensures |input| == 8 + |EntriesFrom(k.se, 0)| && input[8..] == EntriesFrom(k.se, 0)
  {
    hide CodesFor, ToNet, CountFrom, EntriesFrom, Filled, EncBits, Low;
  }

  lemma {:induction false} OnlySymbol(k: Known, s: nat)
    requires CodesFor(k.se, k.paths, k.src) && !TwoSymbols(k.src) && s < |k.se| && k.se[s].Coded?
    ensures |k.src| > 0 && |k.paths| == |k.se| && s == k.src[0] && k.paths[s] == []
  {
    hide CodesFor, TwoSymbols, CodeIs, Occ;
    CodedIs(k.se, k.paths, k.src, s);
    var i := OccHas(k.src, |k.src|, s);
    if k.src[0] != s { TwoFrom(k.src, 0, i); }
    if |k.paths[s]| > 0 {
      var t: nat :| t < MAX_SYMBOLS && t != s && k.se[t].Coded?;
      CodedIs(k.se, k.paths, k.src, t);
      var j := OccHas(k.src, |k.src|, t);
      TwoFrom(k.src, i, j);
    }
  }

  lemma {:induction false} EncNothing(k: Known, n: nat)
    requires n <= |k.src| && |k.paths| == |k.se| == MAX_SYMBOLS && CodesFor(k.se, k.paths, k.src)
    requires forall s: nat | s < MAX_SYMBOLS && k.se[s].Coded? :: k.paths[s] == []
    ensures EncBits(k.paths, k.src, n) == []
  {
    hide CodesFor, CodeIs;
    if n > 0 {
      CodeOf(k.se, k.paths, k.src, n - 1);
      EncNothing(k, n - 1);
    }
  }

  /** The entries from `s` on, when only the first byte of the source has one, and its code is empty. */
  lemma {:induction false} OneEntry(k: Known, s: nat)
    requires |k.se| == |k.paths| == MAX_SYMBOLS && s <= MAX_SYMBOLS && CodesFor(k.se, k.paths, k.src)
    requires forall t: nat | t < MAX_SYMBOLS && k.se[t].Coded? :: |k.src| > 0 && t == k.src[0] && k.paths[t] == []
    requires |k.src| > 0 ==> k.se[k.src[0]].Coded?
    ensures |k.src| > 0 && s <= k.src[0] ==> CountFrom(k.se, s) == 1 && EntriesFrom(k.se, s) == [k.src[0], 0]
    ensures |k.src| == 0 || s > k.src[0] ==> CountFrom(k.se, s) == 0 && EntriesFrom(k.se, s) == []
    decreases MAX_SYMBOLS - s
  {
    hide CodesFor, NumBytes, LowByte, Filled, Occ;
    if s < MAX_SYMBOLS {
      OneEntry(k, s + 1);
      if k.se[s].Coded? {
        CodedIs(k.se, k.paths, k.src, s);
        BitsAre(k.se[s].code.bits, []);
        ByteLength(0);
        FilledNone();
      }
    }
  }

  /** The input has been read up to the entries. */
  lemma {:induction false} ParsingStarts(k: Known, input: seq<byte>, root: Node)
    requires k.good && WrittenFor(k, input) && !root.isLeaf
    ensures 8 <= |input| && FromNet(input[0..4]) == CountFrom(k.se, 0) && FromNet(input[4..8]) == Low(|k.src|, 32)
    ensures CountFrom(k.se, 0) <= MAX_SYMBOLS
    ensures Parsing(k, input, 8, 0, CountFrom(k.se, 0), map[[] := root])
  {
    hide CodesFor, ToNet, FromNet, Low, Filled, EncBits, CountFrom, EntriesFrom;
    var a, b, c := ToNet(CountFrom(k.se, 0)), ToNet(Low(|k.src|, 32)), EntriesFrom(k.se, 0);
    assert input == a + b + c + k.data;
    assert input[0..4] == a && input[4..8] == b && input[8..] == c + k.data;
    NetRoundTrip(CountFrom(k.se, 0));
    NetRoundTrip(Low(|k.src|, 32));
    SmallCount(CountFrom(k.se, 0));
    LowLow(|k.src|, 32, 32);
    NoCodesYet(root, k.se, k.paths);
  }

  lemma {:induction false} SmallCount(n: nat)
    requires n <= MAX_SYMBOLS
    ensures Low(n, 32) == n
  {
    hide Pow2, Low;
    SmallPowers();
    Pow2Strict(8, 32);
    LowSmall(n, 32);
  }

  lemma {:induction false} AllParsed(k: Known, input: seq<byte>, index: nat, s: nat, at: map<seq<bool>, Node>)
    requires k.good && Parsing(k, input, index, s, 0, at)
    ensures HoldsCodes(at, k.se, k.paths, MAX_SYMBOLS) && index <= |input| && input[index..] == k.data
    decreases MAX_SYMBOLS - s
  {
    hide CodesFor;
    if s < MAX_SYMBOLS {
      SkipSymbol(at, k.se, k.paths, s);
      assert [] + EntriesFrom(k.se, s + 1) == EntriesFrom(k.se, s + 1);
      AllParsed(k, input, index, s + 1, at);
    } else {
      assert [] + k.data == k.data;
    }
  }

  /** memread: refuses a read that ends exactly at the end of the buffer. */
  predicate MemReads(buflen: nat, index: nat, n: nat) {
    n + index < buflen
  }

  /** The input is known, and has a code for several symbols. */
  ghost predicate Many(k: Known) {
    k.good ==> |k.se| == |k.paths| == MAX_SYMBOLS && Several(k)
  }

  /** There is room for the entry, whether the end of the input may be touched or not. */
  lemma {:induction false} EntryReads(k: Known, input: seq<byte>, index: nat, s: nat, count: nat, at: map<seq<bool>, Node>)
    requires k.good && Many(k) && Parsing(k, input, index, s, count, at) && s < MAX_SYMBOLS && k.se[s].Coded?
    ensures var n := |k.paths[s]|;
            && 0 < n < MAX_SYMBOLS && index + 2 + NumBytes(n) < |input| && input[index] == s && input[index + 1] == n
            && BitsOf(input[index + 2..index + 2 + NumBytes(n)], n) == k.paths[s]
            && Clear(at, k.paths[s], n)
    ensures |k.se| == |k.paths|
  {
    hide CodesFor, HoldsCodes, EntriesFrom, NumBytes, BitsOf, Clear;
    EntryAt(k, input, index, s, count, at);
    CodeIsNew(at, k.se, k.paths, k.src, s);
    assert |input[index + 2 + NumBytes(|k.paths[s]|)..]| >= |k.data|;
  }

  /** `root` is the root of the tree `at`, and not a leaf. */
  ghost predicate Tree(root: Node, at: map<seq<bool>, Node>)
    reads at.Values
  {
    Trie(at) && [] in at && at[[]] == root && !root.isLeaf
  }

  // ---------- the tables of arbitrary bytes ----------

  /** `count` entries from `index` on, added to the tree; none may end with the buffer, or run through a leaf. */
  ghost function MemEntries(input: seq<byte>, index: nat, count: nat, m: map<seq<bool>, Twig>): (r: Outcome<(nat, map<seq<bool>, Twig>)>)
    requires index <= |input|
    ensures r.Done? ==> r.value.0 <= |input|
    decreases count
  {
    if count == 0 then Done((index, m))
    else if index + 2 >= |input| || index + 2 + NumBytes(input[index + 1]) >= |input| then Refused
    else
      var n, size := input[index + 1], NumBytes(input[index + 1]);
      var c := BitsOf(input[index + 2..index + 2 + size], n);
      if Blocked(m, c) then Undefined else MemEntries(input, index + 2 + size, count - 1, Inserted(m, c, input[index]))
  }

  /** Where the table in memory ends, the number of symbols, and the tree. */
  ghost function MemTable(input: seq<byte>): (r: Outcome<(nat, nat, map<seq<bool>, Twig>)>)
    ensures r.Done? ==> r.value.0 <= |input|
  {
    if |input| <= 8 then Refused
    else
      match MemEntries(input, 8, FromNet(input[0..4]), map[[] := Inner])
      case Done((index, m)) => Done((index, FromNet(input[4..8]), m))
      case Refused => Refused
      case Undefined => Undefined
  }

  /** The same for a file: an entry may end with the file, none is empty, and a leaf on the way is an error. */
  ghost function FileEntries(input: seq<byte>, index: nat, count: nat, m: map<seq<bool>, Twig>): (r: Outcome<(nat, map<seq<bool>, Twig>)>)
    requires index <= |input|
    ensures r.Done? ==> r.value.0 <= |input|
    decreases count
  {
    if count == 0 then Done((index, m))
    else if index + 2 > |input| || input[index + 1] == 0 || index + 2 + NumBytes(input[index + 1]) > |input| then Refused
    else
      var n, size := input[index + 1], NumBytes(input[index + 1]);
      var c := BitsOf(input[index + 2..index + 2 + size], n);
      if Blocked(m, c) then Refused else FileEntries(input, index + 2 + size, count - 1, Inserted(m, c, input[index]))
  }

  /** What the table of a file is: nothing, one symbol without a code, or a tree. */
  datatype Content = Nothing | OneSymbol(symbol: byte) | Codes(tree: map<seq<bool>, Twig>)

  ghost function FileTable(input: seq<byte>): (r: Outcome<(nat, nat, Content)>)
    ensures r.Done? ==> r.value.0 <= |input|
  {
    if |input| < 8 then Refused
    else
      var count, n := FromNet(input[0..4]), FromNet(input[4..8]);
      if count > 256 then Refused
      else if count == 0 then if n > 0 then Refused else Done((8, n, Nothing))
      else if |input| < 10 then Refused
      else if input[9] == 0 then if count == 1 then Done((10, n, OneSymbol(input[8]))) else Refused
      else
        match FileEntries(input, 8, count, map[[] := Inner])
        case Done((index, m)) => Done((index, n, Codes(m)))
        case _ => Refused
  }

  /** InsertCode on a whole tree. */
  method AddCode(root: Node, bytes: seq<byte>, numbits: nat, symbol: byte, ghost at: map<seq<bool>, Node>)
    returns (ok: bool, ghost at': map<seq<bool>, Node>)
    requires Tree(root, at)
    modifies at.Values
    ensures Tree(root, at') && forall p | p in at' :: at'[p] in at.Values || fresh(at'[p])
    ensures ok <==> Clear(at, BitsOf(bytes, numbits), numbits)
    ensures ok ==> Extends(at, at', BitsOf(bytes, numbits), numbits, symbol)
    ensures ok <==> !Blocked(Shape(at), BitsOf(bytes, numbits))
    ensures ok ==> Shape(at') == Inserted(Shape(at), BitsOf(bytes, numbits), symbol)
  {
    hide Clear, BitsOf, Extends, TreePaths, Linked, Shape, Inserted, Blocked;
    ClearShape(at, BitsOf(bytes, numbits));
    ok, at' := InsertCode(root, bytes, numbits, symbol, at);
    if ok { ShapeInserted(at, at', BitsOf(bytes, numbits), symbol); }
  }

  /** One entry of read_code_table_from_memory. */
  method ReadEntryFromMemory(bufin: seq<byte>, index: nat, root: Node, ghost at: map<seq<bool>, Node>,
                             ghost k: Known, ghost s: nat, ghost count: nat)
    returns (r: Outcome<nat>, ghost at': map<seq<bool>, Node>, ghost s': nat)
    requires Tree(root, at) && index < |bufin| && count > 0
    requires Many(k) && Parsing(k, bufin, index, s, count, at)
    modifies at.Values
    ensures index + 2 >= |bufin| ==> r == Refused
    ensures k.good ==> r.Done?
    ensures r.Done? ==> Tree(root, at') && forall p | p in at' :: at'[p] in at.Values || fresh(at'[p])
    ensures r.Done? ==> index < r.value < |bufin| && Parsing(k, bufin, r.value, s', count - 1, at')
    ensures MemEntries(bufin, index, count, Shape(at))
         == match r case Done(next) => MemEntries(bufin, next, count - 1, Shape(at')) case Refused => Refused case Undefined => Undefined
  {
    hide Tree, Parsing, Many, Extends, Clear, BitsOf, NumBytes, Shape, Inserted, Blocked;
    at', s' := at, s;
    if k.good {
      s' := NextEntry(k, bufin, index, s, count, at);
      EntryReads(k, bufin, index, s', count, at);
    }
    if !MemReads(|bufin|, index, 1) { return Refused, at', s'; }
    var symbol := bufin[index];
    if !MemReads(|bufin|, index + 1, 1) { return Refused, at', s'; }
    var numbits := bufin[index + 1];
    var numbytes := NumBytes(numbits);
    if !MemReads(|bufin|, index + 2, numbytes) { return Refused, at', s'; }
    var ok;
    ok, at' := AddCode(root, bufin[index + 2..index + 2 + numbytes], numbits, symbol, at);
    if !ok { return Undefined, at', s'; }
    r := Done(index + 2 + numbytes);
    s' := ParsedEntry(k, bufin, index, s', count, at, at', numbits);
  }

  lemma {:induction false} ParsedEntry(k: Known, input: seq<byte>, index: nat, s: nat, count: nat, at: map<seq<bool>, Node>,
                                       at': map<seq<bool>, Node>, n: nat) returns (s': nat)
    requires k.good ==> Parsing(k, input, index, s, count, at) && s < |k.se| == |k.paths| == MAX_SYMBOLS && k.se[s].Coded?
    requires k.good ==> |k.paths[s]| == n > 0 && Extends(at, at', k.paths[s], n, s)
    requires count > 0
    ensures Parsing(k, input, index + 2 + NumBytes(n), s', count - 1, at')
  {
    hide Parsing, Extends, NumBytes;
    s' := s + 1;
    if k.good {
      EntryDone(k, input, index, s, count, at, at');
    } else {
      NotParsing(k, input, index + 2 + NumBytes(n), s', count - 1, at');
    }
  }

  /** read_code_table_from_memory, for any bytes. It refuses the tables of sources without two different symbols. */
  method ReadTableFromMemory(bufin: seq<byte>, ghost k: Known)
    returns (r: Outcome<nat>, dataBytes: nat, root: Node, ghost at: map<seq<bool>, Node>)
    requires WrittenFor(k, bufin)
    ensures r.Done? ==> Tree(root, at) && r.value <= |bufin|
    ensures k.good && TwoSymbols(k.src) ==> r.Done? && dataBytes == Low(|k.src|, 32) && ReadWhole(k, bufin, r.value, at)
    ensures k.good && !TwoSymbols(k.src) ==> r == Refused
    ensures MemTable(bufin)
         == match r case Done(index) => Done((index, dataBytes, Shape(at))) case Refused => Refused case Undefined => Undefined
  {
    hide Tree, Parsing, Many, TwoSymbols, WrittenFor, ReadWhole, FromNet, Low, CountFrom, Begun, MemEntries, Shape;
    root := new Node.NonLeaf(0, null, null, 0);
    at, dataBytes := map[[] := root], 0;
    ShapeAlone(root);
    ghost var k' := k.(good := k.good && TwoSymbols(k.src));
    RootAlone(root);
    Prepared(k, k', bufin, at);
    if !MemReads(|bufin|, 0, 4) { BegunShort(k, k', bufin, at); return Refused, dataBytes, root, at; }
    var count := FromNet(bufin[0..4]);
    if !MemReads(|bufin|, 4, 4) { BegunShort(k, k', bufin, at); return Refused, dataBytes, root, at; }
    dataBytes := FromNet(bufin[4..8]);
    BegunLong(k, k', bufin, at);
    var index: nat := 8;
    ghost var s: nat := 0;
    while count > 0
      invariant index < |bufin| && Tree(root, at) && forall p | p in at :: fresh(at[p])
      invariant Many(k') && Parsing(k', bufin, index, s, count, at)
      invariant k.good && !k'.good ==> index == 8 && |bufin| == 10 && count == 1
      invariant MemEntries(bufin, 8, FromNet(bufin[0..4]), map[[] := Inner]) == MemEntries(bufin, index, count, Shape(at))
      decreases count
    {
      var e;
      e, at, s := ReadEntryFromMemory(bufin, index, root, at, k', s, count);
      if !e.Done? { return e, dataBytes, root, at; }
      index := e.value;
      count := count - 1;
    }
    if k'.good { Finished(k, k', bufin, index, s, at); }
    NoEntries(bufin, index, Shape(at));
    r := Done(index);
  }

  /** The table has been read, and the data are next. */
  ghost predicate ReadWhole(k: Known, input: seq<byte>, index: nat, at: map<seq<bool>, Node>) {
    |k.se| == |k.paths| == MAX_SYMBOLS && HoldsCodes(at, k.se, k.paths, MAX_SYMBOLS) && index <= |input| && input[index..] == k.data
  }

  lemma {:induction false} ShapeAlone(root: Node)
    requires !root.isLeaf
    ensures Shape(map[[] := root]) == map[[] := Inner]
  {
  }

  lemma {:induction false} NoEntries(input: seq<byte>, index: nat, m: map<seq<bool>, Twig>)
    requires index <= |input|
    ensures MemEntries(input, index, 0, m) == Done((index, m)) && FileEntries(input, index, 0, m) == Done((index, m))
  {
  }

  lemma {:induction false} FileShort(input: seq<byte>, index: nat, count: nat, m: map<seq<bool>, Twig>)
    requires count > 0 && index <= |input|
    ensures index + 2 > |input| ==> FileEntries(input, index, count, m).Refused?
  {
    hide NumBytes, BitsOf, Blocked, Inserted;
  }

  lemma {:induction false} RootAlone(root: Node)
    requires !root.isLeaf && root.zero == null && root.one == null
    ensures Tree(root, map[[] := root])
  {
  }

  /** Before the first entry; `k'` is `k` if that has several symbols. */
  ghost predicate Begun(k: Known, k': Known, input: seq<byte>, at: map<seq<bool>, Node>) {
    && Many(k') && (k'.good ==> k.good && k' == k)
    && (k.good ==> 8 <= |input| && FromNet(input[4..8]) == Low(|k.src|, 32) && FromNet(input[0..4]) == CountFrom(k.se, 0) <= MAX_SYMBOLS)
    && (k'.good ==> 8 < |input| && CountFrom(k.se, 0) > 0)
    && (8 <= |input| ==> Parsing(k', input, 8, 0, FromNet(input[0..4]), at))
    && (k.good && !k'.good ==> Few(k, input))
  }

  lemma {:induction false} BegunShort(k: Known, k': Known, input: seq<byte>, at: map<seq<bool>, Node>)
    requires Begun(k, k', input, at) && |input| <= 8
    ensures !k'.good
  {
    hide FromNet, Low, Parsing, Many;
  }

  lemma {:induction false} BegunLong(k: Known, k': Known, input: seq<byte>, at: map<seq<bool>, Node>)
    requires Begun(k, k', input, at) && |input| >= 8
    ensures Many(k') && Parsing(k', input, 8, 0, FromNet(input[0..4]), at)
    ensures k.good ==> FromNet(input[4..8]) == Low(|k.src|, 32) && FromNet(input[0..4]) <= MAX_SYMBOLS
    ensures k'.good ==> FromNet(input[0..4]) > 0
    ensures k.good && !k'.good && |k.src| > 0 ==> |input| == 10 && FromNet(input[0..4]) == 1 && input[8] == k.src[0] && input[9] == 0
    ensures k.good && !k'.good && |k.src| == 0 ==> |input| == 8 && FromNet(input[0..4]) == 0
  {
    hide FromNet, Low, Parsing, Many;
  }

  lemma {:induction false} Prepared(k: Known, k': Known, input: seq<byte>, at: map<seq<bool>, Node>)
    requires WrittenFor(k, input) && k' == k.(good := k.good && TwoSymbols(k.src))
    requires at.Keys == {[]} && !at[[]].isLeaf
    ensures Begun(k, k', input, at)
  {
    hide WrittenFor, FromNet, Low, TwoSymbols, Parsing, Few;
    assert at == map[[] := at[[]]];
    if k.good {
      ParsingStarts(k, input, at[[]]);
      if k'.good {
        SeveralCodes(k, input);
        ParsingSame(k, k', input, at);
      } else {
        FewCodes(k, input);
      }
    }
    if !k'.good && 8 <= |input| { NotParsing(k', input, 8, 0, FromNet(input[0..4]), at); }
  }

  lemma {:induction false} ParsingSame(k: Known, k': Known, input: seq<byte>, at: map<seq<bool>, Node>)
    requires k.good && k' == k && |k.se| == |k.paths| && Several(k) && Parsing(k, input, 8, 0, CountFrom(k.se, 0), at)
    requires k.data != [] && TwoSymbols(k.src)
    ensures |input| > 8 && Many(k') && CountFrom(k.se, 0) > 0
  {
    hide CodesFor, HoldsCodes, EntriesFrom, CountFrom;
    assert |input[8..]| >= |k.data|;
    CodeOf(k.se, k.paths, k.src, 0);
    SomeCode(k.se, 0, k.src[0]);
  }

  lemma {:induction false} SomeCode(se: seq<Slot>, s: nat, t: nat)
    requires s <= t < |se| && se[t].Coded?
    ensures CountFrom(se, s) > 0
    decreases t - s
  {
    if s < t { SomeCode(se, s + 1, t); }
  }

  lemma {:induction false} NotParsing(k: Known, input: seq<byte>, index: nat, s: nat, count: nat, at: map<seq<bool>, Node>)
    requires !k.good
    ensures Parsing(k, input, index, s, count, at)
  {
  }

  lemma {:induction false} Finished(k: Known, k': Known, input: seq<byte>, index: nat, s: nat, at: map<seq<bool>, Node>)
    requires k'.good && k' == k.(good := true) && Parsing(k', input, index, s, 0, at)
    ensures ReadWhole(k, input, index, at)
  {
    hide HoldsCodes, CodesFor;
    AllParsed(k', input, index, s, at);
  }

  // ---------- the code table of a file ----------

  /** The rest of an entry of read_code_table: the code bytes, added to the tree. */
  method ReadEntry(input: seq<byte>, index: nat, root: Node, ghost at: map<seq<bool>, Node>, ghost k: Known, ghost s: nat, ghost count: nat)
    returns (r: Outcome<nat>, ghost at': map<seq<bool>, Node>, ghost s': nat)
    requires Tree(root, at) && index + 2 <= |input| && count > 0
    requires Many(k) && Parsing(k, input, index, s, count, at)
    modifies at.Values
    ensures !r.Undefined? && (k.good ==> r.Done?)
    ensures r.Done? ==> Tree(root, at') && forall p | p in at' :: at'[p] in at.Values || fresh(at'[p])
    ensures r.Done? ==> index < r.value <= |input| && Parsing(k, input, r.value, s', count - 1, at')
    ensures FileEntries(input, index, count, Shape(at)) == match r case Done(next) => FileEntries(input, next, count - 1, Shape(at')) case _ => Refused
  {
    hide Tree, Parsing, Many, Extends, Clear, BitsOf, NumBytes, Shape, Inserted, Blocked;
    at', s' := at, s;
    if k.good {
      s' := NextEntry(k, input, index, s, count, at);
      EntryReads(k, input, index, s', count, at);
    }
    var symbol, numbits := input[index], input[index + 1];
    if numbits == 0 { return Refused, at', s'; }
    var numbytes := NumBytes(numbits);
    if index + 2 + numbytes > |input| { return Refused, at', s'; }
    var ok;
    ok, at' := AddCode(root, input[index + 2..index + 2 + numbytes], numbits, symbol, at);
    if !ok { return Refused, at', s'; }
    r := Done(index + 2 + numbytes);
    s' := ParsedEntry(k, input, index, s', count, at, at', numbits);
  }

  /** What read_code_table finds: nothing, a single leaf, or a tree. */
  ghost predicate TableOfFile(root: Node?, at: map<seq<bool>, Node>, dataBytes: nat)
    reads at.Values
  {
    if root == null then dataBytes == 0 else root.isLeaf || Tree(root, at)
  }

  ghost function ContentOf(root: Node?, at: map<seq<bool>, Node>): Content {
    if root == null then Nothing else if root.isLeaf then OneSymbol(root.symbol) else Codes(Shape(at))
  }

  /** read_code_table, for any bytes: the table that they say, and nothing undefined happens. */
  method ReadTable(input: seq<byte>, ghost k: Known)
    returns (r: Outcome<nat>, dataBytes: nat, root: Node?, ghost at: map<seq<bool>, Node>)
    requires WrittenFor(k, input)
    ensures !r.Undefined? && (r.Done? ==> TableOfFile(root, at, dataBytes) && r.value <= |input|)
    ensures k.good ==> r.Done? && dataBytes == Low(|k.src|, 32)
    ensures k.good && TwoSymbols(k.src) ==> root != null && !root.isLeaf && ReadWhole(k, input, r.value, at)
    ensures k.good && !TwoSymbols(k.src) ==> if |k.src| == 0 then root == null else root != null && root.isLeaf && root.symbol == k.src[0]
    ensures FileTable(input) == match r case Done(index) => Done((index, dataBytes, ContentOf(root, at))) case _ => Refused
  {
    hide Tree, Parsing, Many, TwoSymbols, WrittenFor, ReadWhole, FromNet, Low, CountFrom, Begun, FileEntries, Shape;
    var first := new Node.NonLeaf(0, null, null, 0);
    root, at, dataBytes := null, map[[] := first], 0;
    ShapeAlone(first);
    ghost var k' := k.(good := k.good && TwoSymbols(k.src));
    RootAlone(first);
    Prepared(k, k', input, at);
    if 4 > |input| { BegunSize(k, k', input, at); return Refused, dataBytes, root, at; }
    var count: nat := FromNet(input[0..4]);
    if 8 > |input| { BegunSize(k, k', input, at); return Refused, dataBytes, root, at; }
    BegunLong(k, k', input, at);
    if count > MAX_SYMBOLS { return Refused, dataBytes, root, at; }
    dataBytes := FromNet(input[4..8]);
    LowNothing(32);
    if count == 0 && dataBytes > 0 { return Refused, dataBytes, root, at; }
    var index: nat := 8;
    ghost var s: nat := 0;
    while count > 0
      invariant index <= |input| && Tree(first, at) && (forall p | p in at :: fresh(at[p])) && (root == null || root == first)
      invariant Many(k') && Parsing(k', input, index, s, count, at)
      invariant root == null ==> index == 8 && (count > 0 || dataBytes == 0)
      invariant k.good && !k'.good && |k.src| > 0 ==> root == null && count == 1
      invariant k.good && !k'.good && |k.src| == 0 ==> root == null && count == 0
      invariant k'.good && count == 0 ==> root != null
      invariant root == null ==> count == FromNet(input[0..4]) && Shape(at) == map[[] := Inner]
      invariant root != null ==> |input| >= 10 && input[9] != 0 && FromNet(input[0..4]) > 0
      invariant FileEntries(input, 8, FromNet(input[0..4]), map[[] := Inner]) == FileEntries(input, index, count, Shape(at))
      decreases count
    {
      if k'.good { EntryThere(k', input, index, s, count, at); }
      FileShort(input, index, count, Shape(at));
      if index + 2 > |input| { return Refused, dataBytes, root, at; }
      if root == null {
        if input[index + 1] == 0 {
          if count != 1 { return Refused, dataBytes, root, at; }
          root := new Node.Leaf(input[index], 0);
          return Done(index + 2), dataBytes, root, at;
        }
        root := first;
      }
      var e;
      e, at, s := ReadEntry(input, index, first, at, k', s, count);
      if !e.Done? { return e, dataBytes, root, at; }
      index := e.value;
      count := count - 1;
    }
    if k'.good { Finished(k, k', input, index, s, at); }
    NotLeaf(first, at);
    NoEntries(input, index, Shape(at));
    r := Done(index);
  }

  lemma {:induction false} NotLeaf(root: Node, at: map<seq<bool>, Node>)
    requires Tree(root, at)
    ensures !root.isLeaf
  {
  }

  lemma {:induction false} BegunSize(k: Known, k': Known, input: seq<byte>, at: map<seq<bool>, Node>)
    requires Begun(k, k', input, at)
    ensures k.good ==> |input| >= 8
  {
    hide FromNet, Low, Parsing, Many;
  }

  lemma {:induction false} EntryThere(k: Known, input: seq<byte>, index: nat, s: nat, count: nat, at: map<seq<bool>, Node>)
    requires k.good && Many(k) && Parsing(k, input, index, s, count, at) && count > 0
    ensures index + 2 <= |input| && input[index + 1] > 0
  {
    hide Parsing, Many;
    var s' := NextEntry(k, input, index, s, count, at);
    EntryReads(k, input, index, s', count, at);
  }
}
