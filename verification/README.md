# Entropy coders and bus channel: a verified model

This project models, in Dafny, the two entropy coders of `FiniteStateEntropy/lib`, the Huffman program of
`huffman`, and the bus scheduler of `flashsim`, and proves what they are for:

- **FSE** (tANS): histogram, normalization, the description of the counters (NCount), the encoding and
  decoding tables, the two interleaved states over a backward bit stream, the single-state 16-bit
  variant, and the whole block with its shared workspace.
- **Huff0**: the bucket sort, the two-queue Huffman tree, the height limiter, canonical codes, the
  header with the implied last weight, the single-symbol (X1) and double-symbol (X2) decoding tables,
  one and four streams, and the whole block.
- **The LIFO bit stream** under both of them.
- **The Huffman program** of `huffman/huffman.c`: a tree of linked nodes, the code table, the write cache,
  and encoding and decoding in memory and in files.
- **`Channel::lock`**: a first-fit scheduler of transfers on a bus.

The main results are round trips and exact characterisations over all inputs: the encoders and decoders
are methods over arrays and stream objects, as in the original, each proved against a specification
function, and the decoders are proved for arbitrary bytes: what they accept, and what they make of it.

## How it is organised

| files | subject |
|---|---|
| `Bits`, `Errors` | shifts, masks and little-endian words as functions on naturals; error codes |
| `BitStream`, `BitLifo` | `BIT_CStream_t`, `BIT_DStream_t` as classes; the LIFO law |
| `FseWalk`, `FseSpread`, `FseTable`, `FseWksp` | the spreading walk, the tables, step inverse, the shared workspace |
| `FseStream`, `FseBlock`, `FseU16` | the state chains and their decoders |
| `FseCounters`, `FseShares`, `FseNormalize` | what normalization is, how near it is to the shares, `FSE_normalizeCount` |
| `FseNCount`, `FseNCountBound`, `FseNCountRef`, `FseReadNCount` | writing the description, its length, a reference reader, the reader |
| `FseWhole` | `FSE_compress2` and `FSE_decompress` |
| `HufSort`, `HufTree`, `HufBuild`, `HufHeight`, `HufCode`, `HufCTable` | from counts to a canonical, limited, optimal code |
| `HufDeep`, `HufLimit` | the deepest trees; two codes worked out |
| `HufX1`, `HufX2`, `HufX2Build` | the two decoding tables |
| `HufWalk`, `HufStream`, `HufStreamX2`, `Huf4X`, `Huf4X2` | a reference decoder; streams, with one and with four segments |
| `HufStats`, `HufHeader`, `HufBlock` | the header, `HUF_compress2` and `HUF_decompress` |
| `HuffmanBits`, `HuffmanLabels`, `HuffmanNodes`, `HuffmanCodes` | huffman.c: bit arrays, the tree and its paths, linked nodes, codes |
| `HuffmanBest`, `HuffmanBuild` | joining the rarest roots, and why no prefix code is shorter |
| `HuffmanWrite`, `HuffmanTrie`, `HuffmanRead`, `HuffmanWalk`, `HuffmanCodec` | writers, the tree rebuilt from a table, readers, the decoding walk, the codec |
| `SsdChannel` | the bus channel |

`dafny verify dfyconfig.toml` checks the whole project.

## Assumptions of the model

- `size_t` is 64 bits, and the stream register is a 64-bit container; truncation to 64, 32 and 16 bits is
  written out where the code relies on it. Elsewhere integers are unbounded, and a contract says so
  when the code could overflow (`inRange` of `HufCTable.BuildCTable`).
- Unaligned reads and writes are little-endian functions on byte sequences. Allocation succeeds.
- Pointers into buffers are indices; the nodes of `huffman.c` are linked objects. A stream object has the
  buffer, its window and the position; what is written outside the window is stated by frame conditions.
- Where the original does not check its stores, the array `dst` is the memory: the destination is a part of
  it, and it goes on after the destination at least as far as the code stores. The contracts say how far
  that is, and when it is inside the destination.
- The four lanes of a 4X decoder are advanced one after another in each round; they touch disjoint
  parts of the output.
- Times of the bus channel are reals. `std::sort` and `qsort` leave open how equal keys are ordered, and no
  proof uses it.
- A file is the sequence of its bytes. Where C does not define a step, such as following a null pointer, a
  method of the Huffman program returns `Undefined`.
- Decoding methods say for arbitrary bytes what they return and store. Some also carry a ghost description of a
  known source, and then say that this is what comes back; without one (`good` or `known` false) nothing more
  is claimed.
- Where a contract describes a result by a plan (the counters, the description and the stream of a block), a lemma
  says that all plans for the same source and arguments lead to the same result (`FseWhole.VerdictDecides`,
  `HufHeader.WeightsDecide`, `HufBlock.BlockVerdictDecides`).

## Model

| member | source | states |
|---|---|---|
| BitStream.CStream.FlushBits | FiniteStateEntropy/lib/bitstream.h:239-248 | whole bytes move from the register to memory and at most 7 bits stay; the bits pushed so far are unchanged, and nothing outside the destination is touched, even when the position is clamped |
| BitStream.CStream.FlushBitsFast | FiniteStateEntropy/lib/bitstream.h:223-231 | the same without the check: no bit is ever lost, and 8 bytes are stored wherever the position is |
| BitStream.HoldsAdd | FiniteStateEntropy/lib/bitstream.h:198-217 | a field pushed above the bits held appends it to the bit string that memory and register hold together |
| BitStream.HoldsFlush | FiniteStateEntropy/lib/bitstream.h:223-248 | moving whole bytes from the register to memory changes no bit of the string held |
| BitStream.CStream.Close | FiniteStateEntropy/lib/bitstream.h:254-260 | a size other than 0 exactly if the bits and the end mark leave the last word of the destination free; then no flush was ever clamped and the destination holds exactly the bits pushed |
| BitStream.LastByteMark | FiniteStateEntropy/lib/bitstream.h:272-318 | every byte string with a non-zero last byte is the closed stream of one bit string, whose length is found from the highest bit of that byte |
| BitStream.RepresentsUnique | FiniteStateEntropy/lib/bitstream.h:272-318 | a closed stream determines the number of its bits, as the reader relies on |
| BitStream.DStream.Reload | FiniteStateEntropy/lib/bitstream.h:416-440 | for any bytes: reloading never changes the number of unread bits nor moves below the start; it reports completion exactly at 0 unread bits, and overflow exactly when more than a register was consumed |
| BitStream.LookBitsFastIsSlice | FiniteStateEntropy/lib/bitstream.h:361-365 | the fast look-up shows the top unread bits, as the plain one does, when at least one bit is asked for |
| BitLifo.LifoRoundTrip | FiniteStateEntropy/lib/bitstream.h:183-447 | any fields of fewer than 32 bits come back last first, under every flush schedule that keeps the register below 64 bits, and end the stream exactly; they are stored exactly if there is room |
| FseWalk.PosInjective | FiniteStateEntropy/lib/fse_compress.c:105-122 | the odd-step walk meets no position twice within one turn |
| FseSpread.SpreadSymbols | FiniteStateEntropy/lib/fse_compress.c:105-122 | the skipping walk fills exactly the cells below the low-probability symbols, in symbol order along the walk, and ends at position 0 |
| FseSpread.SpreadUnique | FiniteStateEntropy/lib/fse_decompress.c:96-114 | there is only one such table: encoder and decoder spread alike |
| FseSpread.SpreadCount | FiniteStateEntropy/lib/fse_decompress.c:85-114 | every symbol gets exactly as many cells as its counter says |
| FseTable.BuildCTable | FiniteStateEntropy/lib/fse_compress.c:66-166 | the states sorted by symbol and the per-symbol bit thresholds, on that spread; fails exactly for a workspace smaller than the table |
| FseTable.BuildDTable | FiniteStateEntropy/lib/fse_decompress.c:71-126 | the decoding cells on that spread; fails exactly beyond the limits; fast mode exactly if no symbol has half of the table |
| FseTable.StepInverse | FiniteStateEntropy/lib/fse.h:514-521 | for every state and coded symbol: encoding emits the low bits of the state and lands in a cell that decodes to that symbol, asks for exactly those bits, and gives back the state |
| FseTable.InitialCell | FiniteStateEntropy/lib/fse.h:503-512 | a chain starts in the first cell of its symbol, which asks for at least one bit unless the symbol owns the whole table |
| FseTable.DecodeStaysInTable | FiniteStateEntropy/lib/fse.h:592-622 | any state of the table, with any bits, leads to a state of the table |
| FseTable.FastCells | FiniteStateEntropy/lib/fse_decompress.c:78-95 | fast mode implies that every cell asks for at least one bit |
| FseWksp.SharedExactly | FiniteStateEntropy/lib/fse_compress.c:641-650 | the encoder states and the spread cells share a byte of the workspace exactly if the table is larger than the raw arguments allow for |
| FseWksp.ApartRounds | FiniteStateEntropy/lib/fse_compress.c:124-130 | the loop over shared memory sorts the states as with separate buffers, if the cells lie behind the states |
| FseWksp.BuildCTableWksp | FiniteStateEntropy/lib/fse_compress.c:66-166 | in one workspace, cells behind states, the same table as in separate buffers, although the transforms are written over cells |
| FseWksp.CellsOverwritten | FiniteStateEntropy/lib/fse_compress.c:124-130 | a concrete table and arguments for which the loop reads, in place of a cell, a byte of a state that is no symbol |
| FseStream.CompressUsingCTable | FiniteStateEntropy/lib/fse_compress.c:554-624 | the destination holds the closed stream of the two interleaved chains, exactly if the source has more than 2 symbols and there is room, whichever flush is used; how far the unchecked flushes store, and that they stay inside whenever there is room |
| FseStream.RoomIsInside | FiniteStateEntropy/lib/fse_compress.c:613-624 | if the stream has room, no unchecked flush has stored outside the destination |
| FseStream.SmallLogInside | FiniteStateEntropy/lib/fse_compress.c:613-624 | with a table log of at most 8 the unchecked flushes never leave a destination of FSE_BLOCKBOUND bytes |
| FseStream.FlushesPastBound | FiniteStateEntropy/lib/fse_compress.c:613-624 | a family of sources for which they leave it |
| FseStream.BlockLength | FiniteStateEntropy/lib/fse_compress.c:554-611 | no block takes more bits than the table log times the number of its symbols |
| FseStream.SameBlock | FiniteStateEntropy/lib/fse_compress.c:554-611 | every encoding table for the same counters leads to the same block |
| FseBlock.StepUndoes | FiniteStateEntropy/lib/fse_decompress.c:178-238 | one decoding step undoes one encoding step on the whole history of bits and both states |
| FseBlock.BlockRuns | FiniteStateEntropy/lib/fse_decompress.c:178-238 | the reference decoder, one symbol after another on the bits as a number, finds the source in the stream of a block, exactly if there is room for it and no symbol owns the whole table |
| FseBlock.DecompressUsingDTable | FiniteStateEntropy/lib/fse_decompress.c:178-252 | for any bytes: result and output are exactly those of the reference decoder, and the error is known |
| FseBlock.RoundTrip | FiniteStateEntropy/lib/fse_compress.c:554-624 | every block of coded symbols comes back unchanged, and the decoder stops after exactly as many symbols, unless one symbol owns the whole table, which is always refused; enough room is the table log for each symbol |
| FseU16.ZeroStops | FiniteStateEntropy/lib/fseU16.c:273-301 | among the last symbols, which take no bits, state 0 is met only at the very end |
| FseU16.ChainStreamRuns | FiniteStateEntropy/lib/fseU16.c:273-301 | the single-state reference decoder finds the source in the stream of its chain, exactly if there is room for it; if a symbol owns the whole table, it finds nothing |
| FseU16.DecompressU16UsingDTable | FiniteStateEntropy/lib/fseU16.c:273-301 | for any bytes: result and output are exactly those of the reference decoder, which is told no length |
| FseU16.RoundTripU16 | FiniteStateEntropy/lib/fseU16.c:150-301 | single-state round trip for every source, the empty one included; with a symbol that owns the whole table every block reads as empty |
| FseCounters.LargeEnough | FiniteStateEntropy/lib/fse_compress.c:316-322 | a table log is large enough exactly if the table has more cells than the source has bytes, or than twice the largest symbol |
| FseCounters.Telescopes | FiniteStateEntropy/lib/fse_compress.c:409-430 | the fixed-point rounding of the proportional shares adds up to exactly what was to be distributed |
| FseCounters.NormalizationFills | FiniteStateEntropy/lib/fse_compress.c:348-484 | whichever method decides, the counters fill the table exactly, exactly the symbols in use have one, and exactly those up to the low threshold count as improbable |
| FseShares.Rounding | FiniteStateEntropy/lib/fse_compress.c:459-467 | a share is rounded up exactly if more than a tabled part of a cell is left over, with the table of the source |
| FseShares.ScaledNear | FiniteStateEntropy/lib/fse_compress.c:445-467 | a scaled counter above the low threshold is within one cell of the share of its symbol, but for the rounding of the fixed-point step |
| FseShares.NormalizationShares | FiniteStateEntropy/lib/fse_compress.c:348-484 | every counter is accounted for: by the first method it is scaled, and the first largest one takes the whole remainder; by the second, small counts get one cell, and the rest is shared in proportion within one cell, or evenly, or goes to the largest count |
| FseShares.TenthAndRest | FiniteStateEntropy/lib/fse_compress.c:435-484 | counts 100 and 900 get 3 and 29 of 32 cells |
| FseNormalize.NormalizeM2 | FiniteStateEntropy/lib/fse_compress.c:348-432 | the array becomes the counters of the second method, and it fails exactly if these do not exist |
| FseNormalize.NormalizeCount | FiniteStateEntropy/lib/fse_compress.c:435-494 | the counters are the normalization of the counts; 0 exactly for one repeated symbol; each error exactly when the table log does not suit or the second method refuses; none takes the whole table |
| FseNCount.CountRead | FiniteStateEntropy/lib/entropy_common.c:106-117 | the shrinking truncated-binary field gives back the counter and its own width |
| FseNCount.WriteNCount | FiniteStateEntropy/lib/fse_compress.c:192-299 | the description of any counters that fill the table; refused exactly if the buffer is below FSE_NCountWriteBound and the stores do not fit; nothing changes outside the buffer or, from the bound on, outside the bytes that the writer stores into |
| FseNCountBound.DescriptionLength | FiniteStateEntropy/lib/fse_compress.c:192-285 | no description takes more than the table log for each counter, the table log once more, and 11 bits |
| FseNCountBound.PastTheBound | FiniteStateEntropy/lib/fse_compress.c:184-190 | from the bound on, at most two bytes after the buffer are stored into, and the description is at most one byte too long; with a table log of at most 6, one byte, and the description fits |
| FseNCountBound.Enough | FiniteStateEntropy/lib/fse_compress.c:286-299 | a size by the number of counters and the table log from which on every store is inside the buffer |
| FseNCountBound.StoresPastBound | FiniteStateEntropy/lib/fse_compress.c:184-190 | concrete counters whose last store ends one byte after a buffer of exactly the bound |
| FseNCountBound.LongerThanBound | FiniteStateEntropy/lib/fse_compress.c:184-190 | concrete counters whose description is longer than the bound |
| FseReadNCount.ReadNCount | FiniteStateEntropy/lib/entropy_common.c:41-144 | for any bytes, result and counters are those of the reference reader, and what is accepted fills the table with counters of at least -1 (for a table log below 15); a written description gives back its counters, table log and size exactly if it is legible |
| FseReadNCount.NCountRoundTrip | FiniteStateEntropy/lib/fse_compress.c:192-285 | description round trip with zero runs of any length, exactly if it is legible; whatever follows it, it is legible if anything does |
| FseReadNCount.ReadRun | FiniteStateEntropy/lib/entropy_common.c:76-104 | a run of zeros, seen as it is or not: the true number of zeros and the next bits, or too few zeros or wrong bits |
| FseReadNCount.LostCount | FiniteStateEntropy/lib/entropy_common.c:106-117 | after a run that is not seen as it is, the counter read is never the one written |
| FseReadNCount.CutShort | FiniteStateEntropy/lib/entropy_common.c:76-83 | concrete counters whose description is not legible when nothing follows it |
| FseWhole.Count | FiniteStateEntropy/lib/hist.c:54-79 | counts, their maximum and the trimmed alphabet; an error exactly for a byte beyond the alphabet |
| FseWhole.ApartWhenAskedFor | FiniteStateEntropy/lib/fse.h:97-105 | which arguments keep the tables of the workspace apart for every source |
| FseWhole.NotApart | FiniteStateEntropy/lib/fse_compress.c:632-676 | arguments, and every source of 64 bytes of 0 and 1, for which the tables overlap |
| FseWhole.LeastTableLog | FiniteStateEntropy/lib/fse_compress.c:316-342 | the table log is the smallest that suits: asked for or enough for the size of the source, and large enough; at most 12 |
| FseWhole.Compress2 | FiniteStateEntropy/lib/fse_compress.c:632-693 | when the tables are apart and the description is not longer than the destination: 1, 0, the size of a block, or an error, as the counts of the source, their normalization, its description and the stream decide; what is stored is that block, without touching anything after the destination |
| FseWhole.VerdictDecides | FiniteStateEntropy/lib/fse_compress.c:632-693 | these leave one result only, so 0 is returned exactly if the source is flat, too short, or its block has no room or is not 2 bytes smaller; and which error is returned when |
| FseWhole.ReadBlockDecides | FiniteStateEntropy/lib/fse_decompress.c:255-283 | the bytes and the room leave one result and one output only |
| FseWhole.DecompressWksp | FiniteStateEntropy/lib/fse_decompress.c:255-283 | for any bytes, an accepted description always builds a table, and the rest is decoded as the reference decoder does; a block gives back its source |
| FseWhole.CompressRoundTrip | FiniteStateEntropy/lib/fse_compress.c:632-693 | every source that FSE_compress2 compresses comes back from FSE_decompress, whenever the tables of the workspace are apart and the description is not longer than the destination; FSE_NCOUNTBOUND bytes are always enough for it |
| HufSort.Sort | FiniteStateEntropy/lib/huf_compress.c:307-329 | the symbols in decreasing order of count, equal counts as the insertion leaves them |
| HufSort.TableUnique | FiniteStateEntropy/lib/huf_compress.c:307-329 | there is only one such table |
| HufBuild.NodesFirst | FiniteStateEntropy/lib/huf_compress.c:360-379 | a leaf is taken before a node exactly if it is smaller |
| HufBuild.PicksGreedy | FiniteStateEntropy/lib/huf_compress.c:360-379 | taking from the heads of the two queues joins two smallest items at every step |
| HufBuild.JoinNodes | FiniteStateEntropy/lib/huf_compress.c:360-379 | exactly those items are joined in every step, and the parents form the tree of those joins |
| HufLimit.NodeBeforeLeaf | FiniteStateEntropy/lib/huf_compress.c:372-373 | counts 2, 2, 1, 1 lead to lengths 1, 2, 3, 3 |
| HufTree.Optimal | FiniteStateEntropy/lib/huf_compress.c:360-384 | joining the two smallest counts leads to lengths that no prefix code beats |
| HufBuild.LeafLengths | FiniteStateEntropy/lib/huf_compress.c:381-387 | the lengths of the leaves: sorted, complete (Kraft equality), and cheapest of all prefix codes |
| HufTree.HeightBound | FiniteStateEntropy/lib/huf_compress.c:338-410 | a total below a Fibonacci number bounds the height of the tree |
| HufHeight.PriceRule | FiniteStateEntropy/lib/huf_compress.c:239-257 | which rank repays: no higher one would have been worth it, and its last leaf is at most twice as frequent as that of the rank below, unless no lower rank is in use |
| HufHeight.SetMaxHeight | FiniteStateEntropy/lib/huf_compress.c:215-291 | from any complete sorted code to a complete sorted code of height exactly the limit, namely the one that repaying by that rule and giving back the rest leads to; a code within the limit is left alone |
| HufLimit.TenLimited | FiniteStateEntropy/lib/huf_compress.c:215-291 | ten counts limited to 5 bits get lengths 1, 3, 3, 4, 5, 5, 5, 5, 5, 5 |
| HufDeep.ChainOf | FiniteStateEntropy/lib/huf_compress.c:360-384 | counts each of which is larger than all after the next one lead to a tree with one leaf on every level |
| HufDeep.LimiterOverflows | FiniteStateEntropy/lib/huf_compress.c:219-230 | concrete counts for which the cost that the limiter adds up does not fit an int |
| HufDeep.FibsAccepted | FiniteStateEntropy/lib/huf_compress.c:338-362 | those counts are a source of 433,494,435 symbols, below the barrier of the tree construction |
| HufHeight.PayDebt | FiniteStateEntropy/lib/huf_compress.c:239-272 | lengthening the chosen leaf keeps the Kraft sum, the cost and the table of last ranks in step |
| HufHeight.GiveBack | FiniteStateEntropy/lib/huf_compress.c:274-287 | and so does shortening the first deepest leaf after an overshoot |
| HufCode.StartExact | FiniteStateEntropy/lib/huf_compress.c:389-407 | the first canonical value of each length leaves room for exactly the codes that are not longer |
| HufCode.PrefixFree | FiniteStateEntropy/lib/huf_compress.c:389-407 | no canonical code is a prefix of another |
| HufCode.DecodeExists | FiniteStateEntropy/lib/huf_decompress.c:151-183 | every bit string starts with a code |
| HufCode.DecodeUnique | FiniteStateEntropy/lib/huf_decompress.c:151-183 | and with only one |
| HufCTable.LimitedCodeUnique | FiniteStateEntropy/lib/huf_compress.c:338-410 | counts and limit leave one code only: the lengths of the sorted leaves, limited, and given to their symbols |
| HufCTable.BuildCTable | FiniteStateEntropy/lib/huf_compress.c:338-410 | the canonical table of that code, which is complete, for exactly the symbols in use, within the limit, and the cheapest one if the limit did not bind; exactly unless the limiter overflows an int |
| HufX1.FillDTableX1 | FiniteStateEntropy/lib/huf_decompress.c:151-183 | every cell of the decoding table is written, with the one symbol whose code its index starts with |
| HufX2.FillDTableX2 | FiniteStateEntropy/lib/huf_decompress.c:468-549 | every cell of the double-symbol table: one symbol or two, two exactly if both codes fit |
| HufX2Build.BuildX2 | FiniteStateEntropy/lib/huf_decompress.c:551-649 | the same from the weights alone, with the rank tables computed on the way |
| HufX2.RefinesX1 | FiniteStateEntropy/lib/huf_decompress.c:468-549 | a cell of the double-symbol table is one step of the single-symbol table, which may be for shorter strings, or two successive ones with added lengths, whatever bits follow |
| HufStream.Compress1X | FiniteStateEntropy/lib/huf_compress.c:457-502 | the destination holds the closed stream of the canonical codes, exactly if there is room |
| HufStream.WalkHolds | FiniteStateEntropy/lib/huf_decompress.c:187-258 | the reference decoder finds in a stream the source that it holds, and nothing else |
| HufStream.Decompress1X1 | FiniteStateEntropy/lib/huf_decompress.c:214-258 | for any bytes: it succeeds exactly if they are the stream of a source of the length of the output, which then is the output; otherwise the error is known |
| HufStreamX2.WalkSpells2 | FiniteStateEntropy/lib/huf_decompress.c:651-693 | what two symbols at a time find is spelled by the stream, but for a loose end: a last symbol whose code is shorter than the bits taken off |
| HufStreamX2.Decompress1X2 | FiniteStateEntropy/lib/huf_decompress.c:695-747 | for any bytes: exactly what the reference decoder makes of them; a stream of a source of that length gives the source, and others are accepted only with a loose end |
| HufStreamX2.ShorterAccepted | FiniteStateEntropy/lib/huf_decompress.c:672-693 | with two codes of one bit, every stream of an even number of symbols is accepted for one symbol less, where the single-symbol decoder reports corruption |
| Huf4X.Compress4X | FiniteStateEntropy/lib/huf_compress.c:552-603 | a jump table and four closed streams, exactly if the last of them has room after the others |
| Huf4X.Decompress4X1 | FiniteStateEntropy/lib/huf_decompress.c:262-354 | for any bytes: the interleaved decoders succeed exactly if these are the four-stream form of a source of the length of the output, which then is the output; they stay within the output, or within three segments for the outputs that cannot hold them |
| Huf4X.FourRoomIs | FiniteStateEntropy/lib/huf_decompress.c:291-294 | only outputs of 1, 2 and 5 bytes cannot hold three segments; then the third ends one or two bytes after them |
| Huf4X2.Decompress4X2 | FiniteStateEntropy/lib/huf_decompress.c:749-862 | the same two symbols at a time, but for loose ends |
| HufStats.CompleteStats | FiniteStateEntropy/lib/entropy_common.c:182-214 | accepts exactly the headers of complete codes, and the omitted last weight it computes is the only one that completes the code |
| HufStats.HeaderExactly | FiniteStateEntropy/lib/entropy_common.c:189-205 | a complete code can be read back unless it has height 12 and a one-bit code before its last symbol |
| HufStats.Unreadable | FiniteStateEntropy/lib/entropy_common.c:189-205 | such a code |
| HufStats.WriteRaw | FiniteStateEntropy/lib/huf_compress.c:136-146 | two weights a byte; refused exactly for more than 128 weights or too little room |
| HufStats.ReadRaw | FiniteStateEntropy/lib/entropy_common.c:165-174 | for any bytes the weights are the half bytes after the first; every raw header gives back its weights |
| HufHeader.WriteCTable | FiniteStateEntropy/lib/huf_compress.c:63-147 | the header holds the weights of all symbols but the last: in the compressed form exactly if their FSE block exists, is longer than 1 byte and shorter than half of their number, and else raw; an error exactly if there is none of these; at most one byte after a destination of up to 13 bytes is stored into |
| HufHeader.WeightsDecide | FiniteStateEntropy/lib/huf_compress.c:63-103 | the weights and the room leave one size of their FSE block only |
| HufHeader.ReadStats | FiniteStateEntropy/lib/entropy_common.c:154-215 | for any bytes: what is accepted is a complete code, the only one with the weights found in them; a written header gives back the code it was written for |
| HufHeader.ReadDTableX1 | FiniteStateEntropy/lib/huf_decompress.c:118-185 | the decoding table of the code in the header, exactly if it can be read back |
| HufHeader.ReadDTableX2 | FiniteStateEntropy/lib/huf_decompress.c:551-649 | the double-symbol table of the code in the header, exactly if it can be read back |
| HufHeader.ReadCTable | FiniteStateEntropy/lib/huf_compress.c:150-198 | the coding table that was written, value for value |
| HufBlock.CompressBlock | FiniteStateEntropy/lib/huf_compress.c:637-723 | 1 exactly for one repeated byte; otherwise 0, the size of the block, or an error, as the counts of the source, the code for them, its header and its streams decide; what is stored is the header and the streams |
| HufBlock.BlockVerdictDecides | FiniteStateEntropy/lib/huf_compress.c:637-723 | these leave one result only |
| HufBlock.Decompress | FiniteStateEntropy/lib/huf_decompress.c:1056-1080 | any bytes and output sizes: raw, repeated and compressed inputs are told apart by size; with the single-symbol decoder a compressed one is accepted exactly if its header is that of a code and the rest is the form of a source of that length; a block gives back its source with either decoder |
| HufBlock.CompressRoundTrip | FiniteStateEntropy/lib/huf_compress.c:787-798 | every source comes back from HUF_decompress, whichever decoder it picks; with a limit of 12 exactly if the code can be read back |
| HuffmanBits.FillNext | huffman/huffman.c:60-66 | filling an array of bytes bit by bit appends exactly that bit to the bits that get_bit finds |
| HuffmanCodes.ReverseBits | huffman/huffman.c:68-91 | the bytes then carry the same bits backwards |
| HuffmanNodes.GetFrequencies | huffman/huffman.c:314-359 | one leaf for each symbol in use, with its number of occurrences, and their 32-bit total |
| HuffmanNodes.JoinFirst | huffman/huffman.c:461-477 | the two rarest roots get a common parent that replaces them in the table, and the links of all nodes stay those of a forest |
| HuffmanLabels.LabelInjective | huffman/huffman.c:97-140 | different nodes have different paths from the root |
| HuffmanLabels.LeafPrefix | huffman/huffman.c:97-140 | no path to a leaf is the beginning of another path |
| HuffmanLabels.LabelLength | huffman/huffman.c:461-477 | no path is longer than the number of joins, so that a code length fits a byte |
| HuffmanCodes.NewCode | huffman/huffman.c:97-135 | the bits collected on the way up and reversed are the path from the root to the leaf |
| HuffmanBest.BoundNext | huffman/huffman.c:461-477 | joining the two rarest roots keeps the bound: for every prefix code of the leaves there is one of the roots that, with the joins so far, costs no more |
| HuffmanBest.TreeCost | huffman/huffman.c:429-482 | the counts of all joins add up to the bits that the paths of the leaves take |
| HuffmanBuild.CalculateCodes | huffman/huffman.c:429-482 | a prefix code for exactly the symbols counted, of at most 255 bits each, and no prefix code encodes the source in fewer bits, however qsort orders equal counts |
| HuffmanWrite.BufCache.Write | huffman/huffman.c:280-312 | what has been written is the output so far followed by the data, whether it goes through the cache or around it |
| HuffmanWrite.WriteTableToMemory | huffman/huffman.c:545-595 | the table: number of codes, number of symbols, and the entries |
| HuffmanWrite.WriteTable | huffman/huffman.c:498-537 | the same bytes in a file |
| HuffmanWrite.MemoryEncode | huffman/huffman.c:903-943 | after the table, the codes of all bytes of the source one after another |
| HuffmanWrite.FileEncode | huffman/huffman.c:862-901 | the same in a file |
| HuffmanTrie.InsertCode | huffman/huffman.c:693-739 | the tree grows by exactly the beginnings of the code, with a leaf at its end; it fails exactly if the code runs through a leaf |
| HuffmanRead.ReadTableFromMemory | huffman/huffman.c:765-860 | for any bytes the tree is that of the entries one after another, and refused exactly if a read touches the end; a written table gives back its tree exactly if the source has two different bytes |
| HuffmanRead.ReadTable | huffman/huffman.c:602-745 | for any bytes the tree is that of the entries one after another, a single leaf, or nothing, or the table is refused, and nothing undefined happens; a written table gives back its own |
| HuffmanCodec.DecodeBits | huffman/huffman.c:1008-1030 | for any tree and bits, the walk from the root to leaf after leaf; it gives back the source |
| HuffmanWalk.WalkSays | huffman/huffman.c:1008-1030 | the walk succeeds exactly if the bits are paths to leaves, as many as are asked for, or fewer and then the beginning of another path; its result is the symbols of those leaves |
| HuffmanCodec.MemoryRoundTrip | huffman/huffman.c:1039-1127 | a source comes back exactly if it has two different bytes; otherwise the decoder returns an error; besides the table, no prefix code takes fewer bytes |
| HuffmanCodec.DecodeMemory | huffman/huffman.c:1079-1127 | for any bytes exactly what table and walk say, including when a null pointer would be followed |
| HuffmanCodec.DecodeFile | huffman/huffman.c:977-1035 | for any bytes exactly what table and walk say, or an error; it never follows a null pointer |
| HuffmanCodec.FileRoundTrip | huffman/huffman.c:948-1035 | every file comes back up to its length modulo 2^32, and so whole exactly below 4 GiB; the empty file and files of one repeated byte included |
| SsdChannel.GrantIsFirst | flashsim/ssd_channel.cpp:134-174 | the time granted is free and the earliest such time from the start time on |
| SsdChannel.LockStep | flashsim/ssd_channel.cpp:123-190 | one call with a positive duration: the table stays disjoint and its content is exactly the slots not expired and the new one |
| SsdChannel.Channel.Lock | flashsim/ssd_channel.cpp:123-190 | the object: table, last ready time over all slots ever granted, and the two times of the event |
| SsdChannel.RunDisjoint | flashsim/ssd_channel.cpp:123-190 | over every run, the slots in the table never overlap |
| SsdChannel.NeverOverlaps | flashsim/ssd_channel.cpp:195-209 | a call that starts no earlier than the end of every slot erased so far overlaps no transfer before it |
| SsdChannel.RunNeverOverlaps | flashsim/ssd_channel.cpp:195-209 | if start times never go back, no two transfers of a run overlap |
| SsdChannel.ErasedIsSafeExactly | flashsim/ssd_channel.cpp:195-209 | the bound is exact: a slot that has been erased is safe from a start time exactly if it is over by then |
| SsdChannel.GoingBackOverlaps | flashsim/ssd_channel.cpp:195-209 | below the bound, a run in which two transfers overlap, for every slot and start time |
| SsdChannel.WeakGrantExactly | flashsim/ssd_channel.cpp:157-174 | with empty slots in the table: exactly when the time granted is free |
| SsdChannel.ZeroDurationOverlaps | flashsim/ssd_channel.cpp:157-174 | a run with one transfer of duration 0 in which two later ones overlap |

## Findings

Properties that the code, or its documentation, does not meet, with the input and the exact condition.

- **A symbol that owns the whole FSE table.** If one counter equals the table size, every state costs 0
  bits, so the decoder cannot tell where to stop: `FSE_decompress_usingDTable` refuses every such block
  with `dstSize_tooSmall`, and the 16-bit decoder returns an empty block. Exact condition:
  `NoWholeTable` (`FseBlock.RoundTrip`, `FseU16.RoundTripU16`). `FSE_normalizeCount` never makes such
  counters (`FseNormalize.NormalizeCount`), so `FSE_compress2` is not affected.
- **The workspace of `FSE_compress2`.** The place of the spread cells is computed from the raw arguments
  (fse_compress.c:641-643), before 0 is replaced by a default and before the table log is raised to what
  the source needs. If the table then is larger than the arguments allow for, cells and states overlap
  (`FseWksp.SharedExactly`) and the build loop reads a state where it expects a cell
  (`FseWksp.CellsOverwritten`: a table log of 1 and a largest symbol of 1 asked for, counters 16 and 16;
  any 64 bytes of 0 and 1 lead there, `FseWhole.NotApart`). fse.h:97-105 promises that both parameters may
  be 0: with a table log of 0 the size is even computed with a shift by -1. The tables are apart exactly
  under `FseWhole.TablesApart`, which a caller can evaluate; a table log of at least 5 with a largest
  symbol other than 0, or a table log of at least 9, is always enough (`FseWhole.CompressRoundTrip`).
- **An NCount description at the very end of the input.** Five bytes before the end, `FSE_readNCount` stops
  reloading within a run of zeros, and shows zeros in place of the last byte. It then reads something else
  exactly if the run goes on for 16 bits or more from there and one of the hidden bits that belong to the
  run or to the counter after it is set: `FseReadNCount.Legible`, with both directions in
  `FseReadNCount.NCountRoundTrip`. An instance is the 6 bytes for counters 31, 49 zeros, 1
  (`FseReadNCount.CutShort`). One more byte is enough, whatever it is; in an FSE block the stream always
  follows.
- **A Huff0 header that is written but refused.** `HUF_readStats` rejects weights of 12 and up, so a code of
  height 12 with a one-bit code before its last symbol cannot be read back; exactly those cannot
  (`HufStats.HeaderExactly`, an instance in `HufStats.Unreadable`). With a limit of 11, the default, it
  does not happen.
- **The bound of `FSE_writeNCount` is too small.** From `FSE_NCountWriteBound` bytes on
  (fse_compress.c:184-190), the writer does not check where it stores. But it always ends with two bytes, and
  some counters take more bits than the table log. It stays inside the buffer exactly if the buffer is
  smaller than the bound, or `FseNCount.NCountReach` is not larger than it (`FseNCount.WriteNCount`). For the
  counters 1, 0, 1, 0, 1, 0, 1, 0, 1, 0, 27 and a table log of 5, the bound is 9 bytes, and so is the
  description, but the byte after them is stored into (`FseNCountBound.StoresPastBound`). With a table log of
  9, the description itself can be longer: 28 bytes for the 22 counters of
  `FseNCountBound.LongerThanBound`, where the bound is 27; the size returned then is larger than the buffer,
  and `FSE_compress2` computes a negative size of what is left (`FseWhole.TooLong`). All stores end at most two
  bytes after the buffer (`FseNCountBound.PastTheBound`); n counters with the table log L never take more
  than (n+1) L + 11 bits (`FseNCountBound.DescriptionLength`), so `FseNCountBound.EnoughFor` gives a safe
  size. For `FSE_compress2`, `FSE_NCOUNTBOUND` bytes always are; for a Huff0 header, 14 bytes are.
- **The unchecked flushes of `FSE_compress_usingCTable`.** From `FSE_BLOCKBOUND` bytes on
  (fse_compress.c:617-620) the flushes are not checked. They store past the destination exactly if
  `FseStream.FastReach` is larger than it: for instance, with a table log of 12, for every source of at least
  22 symbols of one cell each in a destination of that size (`FseStream.FlushesPastBound`). It happens only
  if there is no room for the stream, so that 0 is returned (`FseStream.RoomIsInside`), and never with a table
  log of at most 8 (`FseStream.SmallLogInside`), so not for Huff0 headers. A block that `FSE_compress2`
  returns has been stored without touching anything else (`FseWhole.Compress2`).
- **The double-symbol decoders accept more than the single-symbol ones.** `HUF_decodeLastSymbolX2` takes off the bits of
  both symbols of a cell although one symbol is stored, up to the end of the stream (huf_decompress.c:672-693). So
  `HUF_decompress1X2` and `HUF_decompress4X2` accept some streams for one symbol less than they hold, where the
  single-symbol decoders report corruption (`HufStreamX2.ShorterAccepted`: with two codes of one bit, every
  stream of an even number of symbols). What they accept is a stream of the output, or ends with such a loose end
  (`HufStreamX2.WalkSpells2`); the single-symbol decoders accept exactly the streams of the output
  (`HufStream.Decompress1X1`, `Huf4X.Decompress4X1`).
- **Four streams into 1, 2 or 5 bytes.** Three segments do not fit such an output, and the third one is
  decoded past its end, by one or two bytes (`Huf4X.FourRoomIs`, `Huf4X.Decompress4X1`, `Huf4X2.Decompress4X2`).
  `HUF_decompress` never calls the decoders with so small an output and a long enough input.
- **The height limiter on very deep trees.** `totalCost` of `HUF_setMaxHeight` is an int; it overflows exactly
  if `HufHeight.CostInInt` fails for the lengths of the tree (`HufCTable.BuildCTable`). That takes at least
  3,524,578 symbols; 40 symbols that occur 1, 2, 3, 5, 8, ... times are an instance, with any limit up to 11
  (`HufDeep.LimiterOverflows`). Block sizes stay far below.
- **Bus transfers may overlap when start times go back.** `Channel::unlock` erases slots that are over at the
  start time of the call; a later call with an earlier start time does not see them
  (`SsdChannel.GoingBackOverlaps`). A call is safe exactly from the end of the erased slots on
  (`SsdChannel.NeverOverlaps`, `SsdChannel.ErasedIsSafeExactly`).
- **Transfers of duration 0** leave empty slots in the table, which can hide a longer one with the same
  start; exactly then the time granted may be taken (`SsdChannel.WeakGrantExactly`,
  `SsdChannel.ZeroDurationOverlaps`).
- **The Huffman program on short inputs in memory.** `memread` refuses a read that ends with the buffer
  (huffman.c:758), so the encoding of an empty input, or of one repeated byte, is refused by
  `huffman_decode_memory`; every other input comes back (`HuffmanCodec.MemoryRoundTrip`). Moreover, for one
  repeated byte the encoder passes a null pointer for an empty code to `write_cache`, whose `assert` stops
  it in a build with assertions; the model is of a build without them. The file functions handle both
  cases.
- **The Huffman program on long files.** The number of symbols has 32 bits, so a file of 4 GiB or more comes
  back cut to its length modulo 2^32, and without an error (`HuffmanCodec.FileRoundTrip`).

## Left out

- 32-bit containers, BMI2 variants, loop unrolling, and prefetching.
- Histogram striping over four tables (`hist.c`): one count suffices.
- `HUF_repeat` and the `preferRepeat` heuristics, and the estimated-size test that goes with them.
- `HUF_selectDecoder`: which decoder runs is an arbitrary choice, and the results hold for both.
- Workspace sizes and alignment checks of Huff0: the workspace is assumed to be large enough.
- RLE and raw tables (`FSE_buildCTable_rle`, `FSE_buildDTable_raw` and the like): constant tables for one repeated symbol and for symbols of a fixed number of bits.
- `FSE_bitCost`, `FSE_getMaxNbBits` and `HUF_estimateCompressedSize`: approximate costs that callers use to choose a table; no coder depends on them.
- FseReadNCount.ReadNCount: for a table log of 15, a counter of the whole table does not fit a short; the lower bound on counters is claimed below 15.
- FseWhole.Compress2: says nothing when the tables of the workspace are not apart, or the description is longer than the destination (see Findings).
- FseU16.CompressU16UsingCTable: requires a destination of more than 8 bytes. The original ignores the error of `BIT_initCStream` (fseU16.c:164) and goes on with an end pointer before the start.
- HufCTable.BuildCTable: needs a total of less than 2^30, the barrier in the original, and says nothing of the table when `inRange` is false, since the original then overflows an int.
- SsdChannel.Channel.Lock: `assert` on the arguments becomes a precondition; `connect` and `disconnect` only count devices and are not modelled.
- HuffmanCodec.MemoryRoundTrip: the output length and the indices are unbounded, while `unsigned int` wraps at 2^32; the output has at most 8712 bytes more than the source, so a source of up to 2^32 - 8713 bytes is not affected.
- huffcode.c (the command line), freeing of memory, and allocation failure.
