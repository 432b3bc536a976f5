# The C libraries of the game server

The server is built on a handful of C libraries under `lualib-src`: a boundary-tag allocator over a private arena,
exact decimal conversion, a logger with a thread of its own, coalesced hash tables, a JSON codec, a protobuf codec
with its descriptor loader, and two Mersenne Twisters. This project models them in Dafny, in the form they have in C
(arrays, linked nodes and objects that methods update in place), and proves what they are for.

`dafny verify dfyconfig.toml` checks everything.

## How it is laid out

| modules | what they model |
|---|---|
| `Chunks`, `FreeLists`, `HeapSteps`, `HeapMoves`, `HeapResize`, `Allocator`, `HeapRuns` | `dlmalloc.c`: chunks and their tags, bins and their rings, single steps on them, the moves malloc, free and realloc are made of, the arena with its public functions, and whole runs of calls and stores |
| `Limbs`, `Bignum`, `BignumDivide`, `DecimalDigits`, `HalfwayCompare` | `dtoa.c`: bignums of 32-bit limbs, exact division, digit generation and rounding, comparison with a half-way value |
| `NumberText`, `NumberSpellings` | the number layouts of `g_fmt.c` and the scanning front end of strtod; every spelling of a number, and that exactly these are read |
| `LoggerState`, `LoggerProgress`, `Logger` | `lua-log.c`: the protocol as steps on a state with an invariant, that it gets on, and the logger with its buffers |
| `HashChains`, `NameTable`, `FullTables` | `map.c`: coalesced chaining, and the three tables |
| `StringBuffer`, `JsonText`, `JsonGrammar`, `JsonRoundTrip`, `JsonEncoder`, `JsonParser` | `strbuf.c` and `lua_cjson.c`: the growing buffer, what the decoder makes of a text, a concrete syntax and that exactly its texts decode, the round trip, printer and parser |
| `Varint`, `WireWriter`, `WireReader`, `WireMessage`, `WirePacker` | `varint.c`, `wmessage.c`, `context.c`, `rmessage.c`, `pattern.c`: the protobuf wire format, and messages from writer to reader |
| `Registration` | `register.c`: loading descriptor files in dependency order |
| `Recurrence`, `Twister32`, `Twister64` | `lrandom.c`, `lrandom64.c` |

In the allocator memory is counted in units of 16 bytes: `lo` and `hi` of a unit are its two 8-byte words, the chunk
at unit `a` has its `prev_size` in `lo[a]` and its size in `hi[a]`, and the bin headers in `av_` have negative units. `Layout` is the
abstract heap (sizes, free chunks, base, top and end); `Closed` says that memory, bins and bitmap agree with it:
chunks tile the arena, tags and feet agree with their neighbours, no two free chunks touch, every free chunk is in
the one right bin, bins are sorted and every non-empty bin is marked.

## Where the code does less than one would expect

* `bigcomp` ends without looking at the digit it has pending (`dtoa.c:2401-2402`). `HalfwayCompare.RightAtCalls` gives
  the exact condition under which the sign is right at a call, and `OverlooksLastDigit` an input of 53 digits that is
  rounded the wrong way.
* `sbrk` takes an `int` and clears memory before it checks the range, so requests of 2^31 bytes and more destroy the
  heap when the conversion makes them negative, or small enough to be granted. `Allocator.Arena.Malloc` says for every
  full heap and request when (`Copes`) and how; `HeapRuns.LostBlock` shows a word that is lost. After a first
  extension that obtained memory but not its alignment correction, `sbrked_mem` counts memory no chunk uses, exactly
  then (`stranded`).
* `strbuf` with linear growth rounds up the old size whatever was asked for (`StringBuffer.MakesRoom`).
* The bounds check of a length-delimited field is done in 32 bits, and a length cut by the end of the buffer is
  completed from a temporary that still holds the tag (`WireReader.OverrunExactly`, `TagEndsLength`).
* Pattern mode never takes back a `sint64` field (`WireReader.PatternReads`).
* `value(a, b)` leaves its range exactly for ranges of 2^31 numbers or more other than the full one
  (`Twister32.ValueInRange`).
* Exponents beyond 19999 are read as 19999 (`NumberSpellings.ScanReads`).
* A JSON text ends at its first NUL; what an encoder writes never has one (`JsonRoundTrip.TextClean`).
* The decoder takes more than RFC 4627 has: control characters in strings, numbers with the point first or last
  (`-.5`, `1.`), any value at the top, and, where strictness is off, a plus and idle zeros. `JsonGrammar.WellFormed`
  is what it takes.
* A string is compared with its default by `strcmp`, so a default with a NUL inside is taken for other texts of its
  length, which are then not written (`WireMessage.CleanExactly`).

## Model

| member | source | states |
|---|---|---|
| Allocator.Arena.Malloc | lualib-src/pbc/binding/lua53/dlmalloc.c:2138-2378 | a full heap stays valid exactly when malloc copes with the request: a chunk fits, top is large enough, or sbrk, asked through its int, obtains the memory or leaves all as it is. Then the block was not live and has the padded size and less than one minimum chunk more, all other live blocks keep place and bytes, the free chunk used is the last remainder or a smallest binned one that fits, top is used only when none fits, and 0 means that memory is exhausted or the request is no long. Otherwise the whole heap has been cleared and 0 is returned, when the amount leads below the arena, or a block that ends behind the break |
| Allocator.Arena.Free | lualib-src/pbc/binding/lua53/dlmalloc.c:2405-2494 | the block is no longer live, every other live block keeps place, size and bytes, and the whole heap invariant holds again; free(0) changes nothing |
| Allocator.Arena.Realloc | lualib-src/pbc/binding/lua53/dlmalloc.c:2537-2731 | for every request malloc copes with, and every one that the block or its free neighbours have room for: through all of its forward, backward, both, into-top, next-chunk and move paths the first min(old, new) bytes are kept, the block has the padded size, no other live block changes, failure changes no live block; and NULL is returned only for what is no long, or when no free chunk and no extended top holds the request and the block cannot grow where it is |
| Allocator.Arena.MemAlign | lualib-src/pbc/binding/lua53/dlmalloc.c:2756-2850 | for every padded request malloc copes with: the address is a multiple of the alignment, the block was not live and has at least the padded request and less than one minimum chunk more; nothing else live changes, and NULL means that the padded request is no long or memory is exhausted for it |
| Allocator.Arena.Trim | lualib-src/pbc/binding/lua53/dlmalloc.c:2985-3038 | memory is released exactly when top exceeds pad, minimum and a page, although the difference is taken in size_t; afterwards top is within a page above pad and minimum, and the break has moved by what top lost; otherwise nothing changes |
| Allocator.Arena.ExtendTop | lualib-src/pbc/binding/lua53/dlmalloc.c:1964-2070 | top grows, or the first heap is laid out, and the heap is kept exactly when sbrk copes with the amount; otherwise everything from base to end is cleared, or top ends behind the break; a failed first extension strands memory and says so |
| Allocator.Arena.Sbrk | lualib-src/pbc/binding/lua53/dlmalloc.c:1487-1505 | the break moves within the arena or not at all, and memory given back is cleared even when the move is then refused |
| Allocator.Arena.constructor | lualib-src/pbc/binding/lua53/dlmalloc.c:1507-1514 | the empty arena: all bins empty, no top, the break at its start |
| Allocator.Arena.FrontLink | lualib-src/pbc/binding/lua53/dlmalloc.c:1771-1798 | a loose free chunk enters the bin of its size at the place that keeps the bin sorted, and the bit of the block is set |
| Allocator.Arena.FindPlace | lualib-src/pbc/binding/lua53/dlmalloc.c:1791-1792 | the walk of frontlink stops in front of the first chunk that is not larger, without leaving the ring |
| Allocator.Arena.Unlink | lualib-src/pbc/binding/lua53/dlmalloc.c:1803-1809 | a chunk leaves its ring and bin and no other link, tag or payload changes |
| Allocator.Arena.FreeIntoTop | lualib-src/pbc/binding/lua53/dlmalloc.c:2441-2458 | freeing next to top makes p, a free predecessor and top one chunk that is the new top |
| Allocator.Arena.DetachAround | lualib-src/pbc/binding/lua53/dlmalloc.c:2464-2487 | the free neighbours of a freed chunk leave the bins, the last remainder being replaced in place; the merged size is the sum |
| Allocator.Arena.MergeAround | lualib-src/pbc/binding/lua53/dlmalloc.c:2464-2494 | the freed chunk and its free neighbours become one chunk in the bins or in the last-remainder place, no two free chunks adjacent |
| Allocator.Arena.FreeInside | lualib-src/pbc/binding/lua53/dlmalloc.c:2460-2494 | freeing away from top restores the closed heap and removes exactly the freed block from the live ones |
| Allocator.Arena.ExactFit | lualib-src/pbc/binding/lua53/dlmalloc.c:2168-2224 | the first search of malloc: a returned chunk is free, in a bin and fits exactly, and otherwise the index says below which bin nothing fits |
| Allocator.Arena.UseLast | lualib-src/pbc/binding/lua53/dlmalloc.c:2226-2256 | the last remainder is split, used up, or put in its bin, and afterwards there is none unless it was split |
| Allocator.Arena.LastFit | lualib-src/pbc/binding/lua53/dlmalloc.c:2291-2316 | walking a bin from its end finds a smallest chunk that fits, or shows that all are too small |
| Allocator.Arena.ScanBlock | lualib-src/pbc/binding/lua53/dlmalloc.c:2284-2320 | the bins of one block from the start on: the first fitting chunk found is a smallest fitting one, or all are too small |
| Allocator.Arena.ClearPartial | lualib-src/pbc/binding/lua53/dlmalloc.c:2322-2333 | backtracking clears the bit of a block only when every bin of it is empty, so every non-empty bin stays marked |
| Allocator.Arena.SkipBlocks | lualib-src/pbc/binding/lua53/dlmalloc.c:2335-2346 | the loop over the bitmap ends at the next marked block, and every bin skipped is empty |
| Allocator.Arena.SearchBins | lualib-src/pbc/binding/lua53/dlmalloc.c:2263-2348 | the search over blocks ends; the chunk found is a smallest binned chunk that fits, and finding none means none fits |
| Allocator.Arena.FromBins | lualib-src/pbc/binding/lua53/dlmalloc.c:2168-2348 | the whole search before top: the chunk is the last remainder or best fit and is taken out, or no free chunk fits |
| Allocator.Arena.SplitTop | lualib-src/pbc/binding/lua53/dlmalloc.c:2351-2378 | top is cut when a remainder of minimum size is left |
| Allocator.Arena.FromTop | lualib-src/pbc/binding/lua53/dlmalloc.c:2351-2378 | the last step of malloc: a chunk from top, extended when it is too small; the heap is kept exactly when top is large enough or sbrk copes, and -1 then means that memory is exhausted |
| Allocator.Arena.SplitRoom | lualib-src/pbc/binding/lua53/dlmalloc.c:2712-2730 | the room behind a grown block is split off and freed when it makes a chunk, and the block keeps its bytes |
| Allocator.Arena.GrowInPlace | lualib-src/pbc/binding/lua53/dlmalloc.c:2601-2686 | growing into the free neighbours or into top succeeds exactly when they have room for the request, and keeps the bytes |
| Allocator.Arena.GrowBack | lualib-src/pbc/binding/lua53/dlmalloc.c:2635-2686 | growing backward, or both ways, or into top succeeds exactly when there is room, and keeps the bytes at the new address although source and target overlap |
| Allocator.Arena.MoveAway | lualib-src/pbc/binding/lua53/dlmalloc.c:2688-2709 | allocate, copy, free; when the new chunk is the next one the two are joined without a copy; it fails only when memory is exhausted |
| Allocator.Arena.CopyWords | lualib-src/pbc/binding/lua53/dlmalloc.c:2655-2683 | an ascending copy to a lower or separate address moves every word although the ranges may overlap |
| Allocator.ArenaAccounted | lualib-src/pbc/binding/lua53/dlmalloc.c:1998-2034 | in a settled heap the chunks are exactly the row from the first to top, and their total size plus the pad in front is sbrked_mem, which is the distance the break has moved |
| Allocator.FreeInOneBin | lualib-src/pbc/binding/lua53/dlmalloc.c:1525-1571 | every free chunk is in exactly one bin, the one bin_index names or the last remainder |
| HeapRuns.Run | lualib-src/pbc/binding/lua53/dlmalloc.c:1487-3038 | for every sequence of malloc, free, realloc, memalign, trim and stores whose requests stay 8 KiB below 2 GiB: at its end the heap is sound, the live chunks are exactly the blocks the program holds, each is large enough, and each has at every place the last word stored there, through all moves; and every NULL on the way was due: the request was no long, or nothing fitted in the heap of that moment, the break could not move and, for a resize, the block could not grow |
| HeapRuns.StoreKeeps | lualib-src/pbc/binding/lua53/dlmalloc.c:1163-1180 | a word of a live block, up to the prev_size of the next chunk, is no size word, foot or link: storing to it leaves the heap closed and other blocks unchanged |
| HeapRuns.OversizedRequests | lualib-src/pbc/binding/lua53/dlmalloc.c:1487-1505 | malloc does not cope with 2^31 bytes in any heap of less than 2 GiB less a page, which it clears, nor with 2^32 bytes in any heap with a page left, where it returns a block behind the break |
| HeapRuns.LostBlock | lualib-src/pbc/binding/lua53/dlmalloc.c:1495-1499 | a word stored in a live block reads 7 before and 0 after malloc has refused 2^31 bytes |
| Allocator.ToIntExact | lualib-src/pbc/binding/lua53/dlmalloc.c:1487 | the conversion to int keeps the amount exactly when it is below 2^31 |
| Allocator.UnitsExact | lualib-src/pbc/binding/lua53/dlmalloc.c:1286-1289 | request2size leaves room for the bytes and a size word exactly when the padded sum is a long |
| Allocator.LeadFacts | lualib-src/pbc/binding/lua53/dlmalloc.c:2807-2832 | the padding malloc was asked for suffices: the lead is a whole chunk and what remains from the aligned address holds the request |
| Allocator.FirstSpan | lualib-src/pbc/binding/lua53/dlmalloc.c:2012-2034 | the first heap is aligned to 16, ends on a page and has the size set in its head |
| Allocator.TookLast | lualib-src/pbc/binding/lua53/dlmalloc.c:2233-2242 | splitting the last remainder keeps the heap closed and makes exactly one block live |
| Chunks.UnitInOneChunk | lualib-src/pbc/binding/lua53/dlmalloc.c:1298-1340 | chunks tile the arena: every unit from the first chunk to the end lies in exactly one chunk |
| Chunks.RowComplete | lualib-src/pbc/binding/lua53/dlmalloc.c:1298-1340 | walking from chunk to next chunk from the first one meets every chunk |
| Chunks.RowTotal | lualib-src/pbc/binding/lua53/dlmalloc.c:1298-1340 | the sizes met on that walk add up to the distance to the end |
| Chunks.PreviousChunk | lualib-src/pbc/binding/lua53/dlmalloc.c:2464-2468 | when the previous chunk is free its foot leads to its start |
| FreeLists.UnlinkLinked | lualib-src/pbc/binding/lua53/dlmalloc.c:1803-1809 | unlinking takes one chunk out of one ring and leaves all other rings as they are |
| FreeLists.InsertLinked | lualib-src/pbc/binding/lua53/dlmalloc.c:1771-1798 | linking in adds one chunk to one ring and leaves all other rings as they are |
| FreeLists.BinIndexMonotone | lualib-src/pbc/binding/lua53/dlmalloc.c:1525-1532 | larger sizes never have a smaller bin index, over the seven ranges of the macro |
| FreeLists.BinnedInsert | lualib-src/pbc/binding/lua53/dlmalloc.c:1771-1798 | bins stay sorted, right for their sizes and marked when a chunk is put in its place |
| FreeLists.BinnedRemove | lualib-src/pbc/binding/lua53/dlmalloc.c:1803-1809 | and when one is taken out |
| FreeLists.SomeBlockFrom | lualib-src/pbc/binding/lua53/dlmalloc.c:2268-2278 | if the bitmap is not below the bit looked at, some marked block is reached |
| HeapSteps.MarkedFree | lualib-src/pbc/binding/lua53/dlmalloc.c:2460 | clearing the in-use bit makes a live chunk a free one and breaks nothing else |
| HeapSteps.JoinedStep | lualib-src/pbc/binding/lua53/dlmalloc.c:2476-2491 | joining a free chunk with its free successor keeps tiling, tags, feet and bins |
| HeapSteps.CutStep | lualib-src/pbc/binding/lua53/dlmalloc.c:2235-2239 | cutting a chunk in two keeps tiling, tags, feet and bins |
| HeapMoves.SplitOff | lualib-src/pbc/binding/lua53/dlmalloc.c:2296-2306 | malloc's split: one live chunk and one last remainder make up the chunk that was cut, in whichever order the heads are written |
| HeapMoves.TakenWhole | lualib-src/pbc/binding/lua53/dlmalloc.c:2308-2314 | a free chunk used whole is live and its successor knows |
| HeapMoves.TopSplit | lualib-src/pbc/binding/lua53/dlmalloc.c:2370-2374 | what is cut off the front of top is live and top still ends the arena |
| HeapMoves.FreedTop | lualib-src/pbc/binding/lua53/dlmalloc.c:2441-2454 | merging with top, with or without a free predecessor |
| HeapMoves.FreedLast | lualib-src/pbc/binding/lua53/dlmalloc.c:2480-2491 | merging in the place of the last remainder |
| HeapMoves.FreedLoose | lualib-src/pbc/binding/lua53/dlmalloc.c:2490-2493 | merging when the chunk goes to a bin |
| HeapResize.SwelledCut | lualib-src/pbc/binding/lua53/dlmalloc.c:2714-2721 | splitting off the room behind a live chunk leaves both live and the bytes in front unchanged |
| HeapResize.Gathered | lualib-src/pbc/binding/lua53/dlmalloc.c:2664-2685 | a live chunk and the free chunks around it become one live chunk |
| HeapResize.IntoTop | lualib-src/pbc/binding/lua53/dlmalloc.c:2611-2618 | a live chunk swallows top and gives the rest back as top |
| HeapResize.CopyInside | lualib-src/pbc/binding/lua53/dlmalloc.c:2669-2683 | copying within the gathered chunk writes nothing outside it |
| Bignum.Bigint.constructor | lualib-src/lua-cjson/dtoa.c:545-583 | a bignum of 2^k limbs, all its own |
| Bignum.MultAdd | lualib-src/lua-cjson/dtoa.c:613-667 | the value becomes b * m + a exactly, in the same bignum or a larger one when a limb is added |
| Bignum.Mult | lualib-src/lua-cjson/dtoa.c:805-913 | the value is the product, in limbs that were allocated, without leading zero limbs |
| Bignum.Pow5List.Get | lualib-src/lua-cjson/dtoa.c:948-968 | the shared list grows on demand and its i-th node stays 5^(4 * 2^i) across all calls |
| Bignum.NodeSquare | lualib-src/lua-cjson/dtoa.c:957-966 | each node is the square of the one before |
| Bignum.Pow5Mult | lualib-src/lua-cjson/dtoa.c:917-972 | the value becomes b * 5^k and the list keeps its invariant |
| Bignum.Lshift | lualib-src/lua-cjson/dtoa.c:974-1030 | the value becomes b * 2^k exactly |
| Bignum.ShiftLimbs | lualib-src/lua-cjson/dtoa.c:1005-1016 | the loop of lshift inside a word: limbs and carried bits together are the shifted value |
| Bignum.I2b | lualib-src/lua-cjson/dtoa.c:789-803 | a bignum of the given value |
| BignumDivide.Cmp | lualib-src/lua-cjson/dtoa.c:1034-1065 | the sign of the result is the sign of the difference of the values |
| BignumDivide.Diff | lualib-src/lua-cjson/dtoa.c:1068-1160 | the value is the absolute difference and the sign says which was larger |
| BignumDivide.Hi0bits | lualib-src/lua-cjson/dtoa.c:707-739 | the number of leading zero bits |
| BignumDivide.SubMul | lualib-src/lua-cjson/dtoa.c:2160-2190 | one pass computes b - q * S with carry and borrow that never exceed a word |
| BignumDivide.EstimateBounds | lualib-src/lua-cjson/dtoa.c:2149 | with four leading zero bits in the top limb of S and b < 10 * S the estimate is the quotient or one less |
| BignumDivide.Quorem | lualib-src/lua-cjson/dtoa.c:2120-2241 | old b = q * S + new b with new b < S, S unchanged |
| DecimalDigits.Dshift | lualib-src/lua-cjson/dtoa.c:2106-2117 | the shift that leaves four leading zero bits in the top limb |
| DecimalDigits.Prepare | lualib-src/lua-cjson/dtoa.c:4152-4159 | both operands are scaled alike, so the quotient is unchanged and S is ready for quorem |
| DecimalDigits.GenerateDigits | lualib-src/lua-cjson/dtoa.c:4284-4298 | the digits so far and the remainder are the exact decimal expansion of b/S |
| DecimalDigits.RoundUp | lualib-src/lua-cjson/dtoa.c:4310-4322 | the carry runs through nines; k is raised exactly when all digits were nines |
| DecimalDigits.TrimZeros | lualib-src/lua-cjson/dtoa.c:4323-4329 | trailing zeros go and the value stays |
| DecimalDigits.FixedDigits | lualib-src/lua-cjson/dtoa.c:4284-4329 | for S <= b < 10 * S the digits are b/S rounded half-even to ilim places, without trailing zeros, and k is raised exactly when rounding reaches the next power of ten |
| DecimalDigits.RoundIsNearest | lualib-src/lua-cjson/dtoa.c:4301-4308 | half-even rounding: no integer is nearer, and on a tie the result is even |
| DecimalDigits.S2b | lualib-src/lua-cjson/dtoa.c:669-705 | the bignum of a decimal string of any length with its point in place and the first nine digits precomputed |
| HalfwayCompare.BigComp | lualib-src/lua-cjson/dtoa.c:2369-2405 | the sign of dd at ret, for any number of input digits, as a function of the input and of b/d |
| HalfwayCompare.RightExactlyWhen | lualib-src/lua-cjson/dtoa.c:2369-2403 | for all operands, exactly when that sign is the sign of input minus b/d |
| HalfwayCompare.QuotientNotZero | lualib-src/lua-cjson/dtoa.c:3057-3061 | the guard of the call, that the digits kept are not above b/d, makes the first quotient digit non-zero |
| HalfwayCompare.RightAtCalls | lualib-src/lua-cjson/dtoa.c:2369-2403 | at every call the sign is right exactly unless b/d goes on for just one more place after agreeing with every digit |
| HalfwayCompare.OverlooksLastDigit | lualib-src/lua-cjson/dtoa.c:2399-2402 | an input of 53 digits, with the operands and the first 18 digits of its call: it lies below the half-way value by the digit that is overlooked, and is called equal |
| HalfwayCompare.DecTail | lualib-src/lua-cjson/dtoa.c:2379-2400 | digits below a position contribute less than one unit of it |
| NumberText.Scan | lualib-src/lua-cjson/dtoa.c:2517-2714 | the front end of strtod: sign, end, the significant digits and where they lie, their first sixteen summed, and the exponent clamped at 19999, for every text |
| NumberText.ReadMantissa | lualib-src/lua-cjson/dtoa.c:2541-2622 | leading zeros, digits, point and fraction in one pass: the significant digits are those of the whole number without idle zeros |
| NumberText.ReadFraction | lualib-src/lua-cjson/dtoa.c:2605-2621 | zeros of the fraction are held back until a digit follows |
| NumberText.ReadExponent | lualib-src/lua-cjson/dtoa.c:2626-2655 | the exponent field or none, 19999 standing for all that is larger |
| NumberText.Format | lualib-src/lua-cjson/g_fmt.c:51-111 | the text in the buffer is the layout of the digits, with its NUL, and nothing behind it is touched |
| NumberText.PutExponent | lualib-src/lua-cjson/g_fmt.c:76-85 | the two loops print the exponent in decimal with at least two digits |
| NumberText.FitsIn32 | lualib-src/lua-cjson/g_fmt.c:51-111 | at a precision of at most 14 the text and its NUL fit in 32 bytes |
| NumberSpellings.NumeralRead | lualib-src/lua-cjson/dtoa.c:2517-2655 | any numeral, with blanks, a sign or none, the point anywhere or nowhere, and e or E with a sign or none, is read wherever it stands unless what follows continues it: its sign, its digits, its exponent and its end |
| NumberSpellings.NumeralWritten | lualib-src/lua-cjson/dtoa.c:2517-2655 | whatever is read as a decimal number is such a numeral, up to where it is read |
| NumberSpellings.Longest | lualib-src/lua-cjson/dtoa.c:2517-2655 | what is read is the longest numeral that begins there |
| NumberSpellings.ScanReads | lualib-src/lua-cjson/dtoa.c:2517-2714 | for every numeral, the digits and the exponent handed on denote it exactly when its exponent is at most 19999 in size |
| NumberSpellings.ScanAccepts | lualib-src/lua-cjson/dtoa.c:2517-2714 | a decimal number is handed on exactly where a numeral stands |
| NumberSpellings.SpecialExactly | lualib-src/lua-cjson/dtoa.c:2541-2690 | what is handled elsewhere is exactly inf, nan and 0x in either case behind blanks and a sign |
| NumberSpellings.ReadsBack | lualib-src/lua-cjson/g_fmt.c:69-104 | any layout, wherever it stands, scans to the same sign and the same rational number and is read in full |
| NumberSpellings.ScanUndoesFormat | lualib-src/lua-cjson/dtoa.c:2517-2714 | the digits and exponent that scanning hands on denote the printed number exactly when a written exponent is at most 19999 in size |
| NumberSpellings.LayoutSpells | lualib-src/lua-cjson/g_fmt.c:69-104 | each layout spells digits * 10^(decpt - length), with an exponent exactly below -4 or from the precision on, as the g conversion of C |
| NumberSpellings.SignificantValue | lualib-src/lua-cjson/dtoa.c:2605-2713 | dropping leading and trailing zeros and correcting the exponent keeps the number |
| Logger.Log.constructor | lualib-src/lua-log.c:50-71 | one empty current buffer and a spare |
| Logger.Log.Append | lualib-src/lua-log.c:168-216 | the line is at the end of what was accepted; only buffers that were not there before are new |
| Logger.Log.Enqueue | lualib-src/lua-log.c:180-208 | a full buffer is linked behind the tail, and the next one becomes current |
| Logger.Log.StartWorker | lualib-src/lua-log.c:222-227 | the worker starts with two empty buffers |
| Logger.Log.Collect | lualib-src/lua-log.c:234-281 | the critical section: the worker takes the queue and the current buffer in order, and what was accepted or kept does not change |
| Logger.Log.Report | lualib-src/lua-log.c:283-295 | the drop message is appended like any line |
| Logger.Log.Drop | lualib-src/lua-log.c:297-309 | exactly the buffers after the first two are freed |
| Logger.Log.WriteNode | lualib-src/lua-log.c:311-318 | one buffer's bytes go to the end of the file |
| Logger.Log.Recycle | lualib-src/lua-log.c:326-354 | two empty buffers are there again, the others are freed, nothing is freed twice, and the asserts hold |
| Logger.Log.FreeAll | lualib-src/lua-log.c:300-305 | a chain of buffers is freed, each once |
| Logger.Log.WorkerStep | lualib-src/lua-log.c:228-356 | any one step of the worker keeps the invariant and does what its phase asks for: swap, report or write, drop, one buffer to the file, recycle |
| Logger.Log.Flush | lualib-src/lua-log.c:228-356 | from the start of a round, with no line appended meanwhile and no drop due, as many steps as buffers are queued and five more lead to the start of the next, and the file holds every byte that was queued or current |
| Logger.Log.FlushDropping | lualib-src/lua-log.c:283-318 | when a drop is due seven steps do, the file gains the first two buffers, and the drop message is what is left |
| Logger.Log.Run | lualib-src/lua-log.c:168-360 | any interleaving of lines and worker steps keeps the invariant, and unless a drop happened everything appended is accepted in order; and with the steps left in the round and 27 more, among any number of lines, all that was accepted at the start has reached the file |
| LoggerProgress.DistanceFalls | lualib-src/lua-log.c:228-356 | each step of a running worker but the first of a round brings the next round one step nearer, whatever is appended |
| LoggerProgress.RemainingFalls | lualib-src/lua-log.c:228-356 | without a drop each step brings bytes that are kept one step nearer to the file, where they stay |
| LoggerState.EnqueuedInv | lualib-src/lua-log.c:179-208 | linking a full buffer keeps ownership, linkage and conservation |
| LoggerState.SwappedInv | lualib-src/lua-log.c:249-277 | so does the swap, for a queue that is empty or not |
| LoggerState.DroppedInv | lualib-src/lua-log.c:297-309 | and the drop |
| LoggerState.RecycledInv | lualib-src/lua-log.c:326-354 | and recycling, which never runs out of buffers |
| LoggerState.DroppedExactly | lualib-src/lua-log.c:297-309 | a drop loses one row of whole buffers, those after the first two, and nothing else |
| LoggerState.BuffersApart | lualib-src/lua-log.c:50-71 | current, spare, queued, being written and the worker's two buffers are pairwise distinct |
| LoggerState.NothingLost | lualib-src/lua-log.c:168-318 | without a drop: bytes written, then the unwritten part of the worker's list, the queue and the current buffer are what was appended, in order |
| NameTable.SpMap.constructor | lualib-src/pbc/src/map.c:247-261 | the empty map, its capacity the least power of two that is not too small |
| NameTable.SpMap.Insert | lualib-src/pbc/src/map.c:364-368 | the map with one more entry |
| NameTable.SpMap.Place | lualib-src/pbc/src/map.c:275-301 | without rehash the new key is found from its home slot |
| NameTable.SpMap.Rehash | lualib-src/pbc/src/map.c:303-319 | twice the capacity and the same map |
| NameTable.SpMap.Query | lualib-src/pbc/src/map.c:376-394 | the value the map has, or NULL |
| NameTable.SpMap.QueryInsert | lualib-src/pbc/src/map.c:321-374 | the slot of the key, which is new with value NULL if it was not there |
| NameTable.SpMap.Probe | lualib-src/pbc/src/map.c:281-299 | probing from the home slot finds a free slot while there is one |
| NameTable.SpMap.Next | lualib-src/pbc/src/map.c:430-474 | the next used slot after a key's, or the first |
| NameTable.SpMap.Walk | lualib-src/pbc/src/map.c:455-474 | iteration meets every stored key with a value once and no other |
| NameTable.EmptyName | lualib-src/pbc/src/map.c:32-42 | the empty name hashes to 0, the hash of a free slot |
| FullTables.Build | lualib-src/pbc/src/map.c:45-78 | a table of as many slots as entries ends completely full, every key on an acyclic chain from its home |
| FullTables.SiMap.constructor | lualib-src/pbc/src/map.c:45-78 | the table of names stands for the list it was built from |
| FullTables.SiMap.Query | lualib-src/pbc/src/map.c:86-103 | found exactly for the keys of the map, with their id |
| FullTables.IpMap.constructor | lualib-src/pbc/src/map.c:136-163 | array or hash form, the same map |
| FullTables.IpMap.Query | lualib-src/pbc/src/map.c:210-231 | both forms give the pointer the map has, or NULL |
| FullTables.IpMap.Inject | lualib-src/pbc/src/map.c:175-195 | the entries written back are those of the map, each once |
| FullTables.Combine | lualib-src/pbc/src/map.c:197-208 | the union of two maps with different keys |
| FullTables.MaxId | lualib-src/pbc/src/map.c:139-152 | the array form is taken exactly when all ids are between 0 and twice the number of entries |
| FullTables.Spread | lualib-src/pbc/src/map.c:153-162 | the array has each pointer at its id and NULL elsewhere |
| HashChains.HousedGood | lualib-src/pbc/src/map.c:60-63 | filling a free home slot keeps every key reachable |
| HashChains.ChainedGood | lualib-src/pbc/src/map.c:64-74 | linking a slot behind a taken home keeps every key reachable through coalescing |
| HashChains.Lookup | lualib-src/pbc/src/map.c:86-103 | walking the chain ends and finds the key exactly when it is there |
| HashChains.Fill | lualib-src/pbc/src/map.c:58-75 | one round of building: the key is in, and the slots before the free pointer stay used |
| HashChains.SomeFree | lualib-src/pbc/src/map.c:66-69 | while fewer keys than slots are in, there is a free slot |
| StringBuffer.CalculateNewSize | lualib-src/lua-cjson/strbuf.c:134-159 | shrinking is exact; exponential growth ends at the old size times a power of the factor, at least the request and less than the request times the factor |
| StringBuffer.MakesRoom | lualib-src/lua-cjson/strbuf.c:134-159 | the new size holds the request exactly when growth is exponential or rounding the old size up happens to reach it |
| StringBuffer.LinearStaysShort | lualib-src/lua-cjson/strbuf.c:154-155 | linear growth from 16 by 8 answers a request of 101 with 16 |
| StringBuffer.StrBuf.constructor | lualib-src/lua-cjson/strbuf.c:44-66 | an empty buffer of the size asked for or the default |
| StringBuffer.StrBuf.Resize | lualib-src/lua-cjson/strbuf.c:164-180 | the new size as calculated, for larger and smaller sizes; the text is kept as far as it fits, and whole when the size exceeds the length |
| StringBuffer.StrBuf.EnsureEmptyLength | lualib-src/lua-cjson/strbuf.h:95-99 | for either kind of growth: room for that many characters exactly when there was, or growth is exponential, or rounding the size up reaches it; the text is kept and nothing is reallocated when there was room |
| StringBuffer.StrBuf.AppendCharUnsafe | lualib-src/lua-cjson/strbuf.h:122-125 | one more character, for a caller that has made room |
| StringBuffer.StrBuf.AppendMem | lualib-src/lua-cjson/strbuf.h:127-132 | the text and the bytes behind it, whenever the room can be made |
| StringBuffer.StrBuf.AppendMemUnsafe | lualib-src/lua-cjson/strbuf.h:134-138 | the same for a caller that has made room |
| StringBuffer.StrBuf.AppendString | lualib-src/lua-cjson/strbuf.c:182-198 | the text and the string behind it, whenever the room can be made for all of it at once; nothing is reallocated when it fits |
| JsonEncoder.AppendString | lualib-src/lua-cjson/lua_cjson.c:471-495 | the quoted and escaped string; once 6 * len + 2 characters are ensured the buffer is never reallocated |
| JsonEncoder.AppendNumber | lualib-src/lua-cjson/lua_cjson.c:619-623 | the number's text is appended within the 32 characters ensured |
| JsonEncoder.AppendArray | lualib-src/lua-cjson/lua_cjson.c:574-594 | the elements between brackets with commas, or false exactly when one is nested too deeply |
| JsonEncoder.AppendObject | lualib-src/lua-cjson/lua_cjson.c:626-665 | the members between braces with commas |
| JsonEncoder.AppendMember | lualib-src/lua-cjson/lua_cjson.c:641-660 | a string key, or a number key written as a string, the colon and the value |
| JsonEncoder.AppendData | lualib-src/lua-cjson/lua_cjson.c:668-709 | the text of the value, or false exactly when its tables are nested deeper than the limit |
| JsonEncoder.Encode | lualib-src/lua-cjson/lua_cjson.c:711-740 | the JSON text of a value, or the nesting error |
| JsonParser.Parser.AppendUnicodeEscape | lualib-src/lua-cjson/lua_cjson.c:827-883 | an escape or surrogate pair adds the UTF-8 form of the code point CodePoint finds, or is refused exactly when CodePoint refuses it; what is decoded stays shorter than what is consumed |
| JsonParser.Parser.AppendUtf8 | lualib-src/lua-cjson/lua_cjson.c:783-816 | the UTF-8 form is appended unchecked, within the room that is there |
| JsonParser.Parser.NextStringToken | lualib-src/lua-cjson/lua_cjson.c:893-951 | the token and position the text determines; every unchecked append stays inside a buffer as long as the text |
| JsonParser.Parser.NextNumberToken | lualib-src/lua-cjson/lua_cjson.c:1004-1016 | the number's text and end, or an error |
| JsonParser.Parser.NextToken | lualib-src/lua-cjson/lua_cjson.c:1022-1099 | the token at the pointer, with its index and the next position |
| JsonParser.Parser.ProcessValue | lualib-src/lua-cjson/lua_cjson.c:1232-1259 | the value that starts with a token, or the error with what was expected, found and where |
| JsonParser.Parser.ParseArrayContext | lualib-src/lua-cjson/lua_cjson.c:1194-1229 | the elements in order, the depth restored |
| JsonParser.Parser.ParseObjectContext | lualib-src/lua-cjson/lua_cjson.c:1143-1191 | the members in the order of assignment, the depth restored |
| JsonParser.DecodeText | lualib-src/lua-cjson/lua_cjson.c:1261-1299 | the value of a whole text, or the error; JsonGrammar.DecodesExactly says which |
| JsonText.StringRest | lualib-src/lua-cjson/lua_cjson.c:893-951 | a decoded string is never longer than the characters consumed for it |
| JsonText.CodePoint | lualib-src/lua-cjson/lua_cjson.c:827-869 | a code point that comes out is in range and no surrogate, and lies within the text |
| JsonGrammar.DecodesExactly | lualib-src/lua-cjson/lua_cjson.c:1261-1299 | a text decodes to a value exactly when it spells that value by the grammar, with blanks between any tokens, within the limit of nesting, and is not taken for UTF-16 |
| JsonGrammar.DecodesSpelled | lualib-src/lua-cjson/lua_cjson.c:1261-1299 | every text of the grammar decodes to what it stands for, or to the nesting error exactly when it is nested too deep |
| JsonGrammar.DecodedSpelled | lualib-src/lua-cjson/lua_cjson.c:1261-1299 | every text that decodes is one of the grammar and stands for the value it gives, so that a missing comma or trailing characters are refused |
| JsonGrammar.ValueRead | lualib-src/lua-cjson/lua_cjson.c:1232-1259 | the same for a value anywhere inside a text |
| JsonGrammar.ValueWritten | lualib-src/lua-cjson/lua_cjson.c:1232-1259 | and its converse |
| JsonGrammar.PiecesRead | lualib-src/lua-cjson/lua_cjson.c:893-951 | a string spelled with any mixture of characters, short escapes and hexadecimal escapes in either case is read as the bytes it stands for |
| JsonGrammar.PiecesWritten | lualib-src/lua-cjson/lua_cjson.c:893-951 | and whatever is read as a string is spelled so |
| JsonGrammar.PairRead | lualib-src/lua-cjson/lua_cjson.c:827-869 | a surrogate pair with digits of either case names its one code point |
| JsonGrammar.HexSame | lualib-src/lua-cjson/lua_cjson.c:747-758 | the value of a hexadecimal digit in either case |
| JsonGrammar.NumberRead | lualib-src/lua-cjson/lua_cjson.c:1004-1099 | a numeral that begins with a minus or a digit is one token with all its text; strict reading refuses idle zeros, and without it a plus is allowed |
| JsonGrammar.NumberWritten | lualib-src/lua-cjson/lua_cjson.c:1004-1099 | and a number token is such a numeral |
| JsonRoundTrip.RoundTrip | lualib-src/lua-cjson/lua_cjson.c:668-740 | decoding an encoded value gives it back exactly when its tables are nested no deeper than the decoder allows; number keys come back as strings, nothing else changes |
| JsonRoundTrip.ValueBack | lualib-src/lua-cjson/lua_cjson.c:1232-1259 | the same for a value anywhere inside a text |
| JsonRoundTrip.StringBack | lualib-src/lua-cjson/lua_cjson.c:471-495 | any string comes back from its escaped form, NUL and bytes above 127 included |
| JsonRoundTrip.CharBack | lualib-src/lua-cjson/lua_cjson.c:471-495 | each single character does |
| JsonRoundTrip.NumberBack | lualib-src/lua-cjson/lua_cjson.c:1004-1016 | a printed number is one token, in strict mode too |
| JsonRoundTrip.KeyBack | lualib-src/lua-cjson/lua_cjson.c:641-655 | a key comes back as a string |
| JsonRoundTrip.TextClean | lualib-src/lua-cjson/lua_cjson.c:471-495 | an encoded text has no control character, so no NUL, where the parser would stop |
| JsonRoundTrip.PointBack | lualib-src/lua-cjson/lua_cjson.c:827-883 | the escapes of a code point in its UTF-16 form, with hexadecimal digits in either case, decode to its UTF-8 form |
| JsonRoundTrip.Utf8Decodes | lualib-src/lua-cjson/lua_cjson.c:783-816 | that form is well-formed UTF-8 for the code point, by an independent reader |
| JsonRoundTrip.PrintedShort | lualib-src/lua-cjson/lua_cjson.c:596-624 | a printed number is shorter than the 32 characters ensured for it |
| Varint.Encode32 | lualib-src/pbc/src/varint.c:8-32 | the base 128 form, at most five bytes, nothing else in the buffer changed |
| Varint.Encode | lualib-src/pbc/src/varint.c:34-48 | the same for 64 bits, at most ten bytes |
| Varint.Decode | lualib-src/pbc/src/varint.c:50-80 | value modulo 2^64 and length of a varint, 0 and 10 when ten bytes do not end it |
| Varint.RoundTrip | lualib-src/pbc/src/varint.c:8-80 | decoding undoes encoding wherever the number stands |
| Varint.GroupsRead | lualib-src/pbc/src/varint.c:50-80 | any bytes, not only shortest forms, are read as the sum of their groups by weight up to the first without a mark, and ten marked ones have no end |
| Varint.EncodedFits | lualib-src/pbc/src/varint.c:8-48 | five bytes suffice for 32 bits and ten for 64 |
| Varint.ZigzagInterleaves | lualib-src/pbc/src/varint.c:82-94 | zigzag gives small numbers of either sign small codes, 2n and -2n - 1 |
| Varint.Zigzag64Back | lualib-src/pbc/src/varint.c:96-102 | dezigzag64 undoes zigzag on all 64 bits |
| Varint.Zigzag32Back | lualib-src/pbc/src/varint.c:104-110 | dezigzag32 undoes zigzag32 on the low word |
| WireWriter.WMessage.Expand | lualib-src/pbc/src/wmessage.c:65-79 | room for sz more bytes by doubling, the data kept |
| WireWriter.WMessage.Integer | lualib-src/pbc/src/wmessage.c:136-203 | the field's bytes behind the data, or nothing for an optional field at its default |
| WireWriter.WMessage.Text | lualib-src/pbc/src/wmessage.c:244-329 | the same for strings and bytes, the length taken from strlen when it is not positive |
| WireWriter.WMessage.PackPacked64 | lualib-src/pbc/src/wmessage.c:347-369 | length and eight bytes a number |
| WireWriter.WMessage.PackPackedVarint | lualib-src/pbc/src/wmessage.c:397-465 | the block is varint(length) and payload, whatever the guess for the length was |
| WireWriter.WMessage.RepairHeader | lualib-src/pbc/src/wmessage.c:451-464 | the guessed header is replaced, the payload moved when the size of the header changes |
| WireWriter.WMessage.Finish | lualib-src/pbc/src/wmessage.c:492-517 | packed fields and submessages follow the fields written before |
| WireReader.WiretypeDecode | lualib-src/pbc/src/context.c:16-85 | one field: tag, value or slice, and the next position; the ten bytes of temp are used again for the second number and first hold whatever lies in memory |
| WireReader.OverrunExactly | lualib-src/pbc/src/context.c:61-72 | a length-delimited field is accepted past the end of the buffer exactly when the length is below 2^32, its sum with its own bytes wraps round, and the rest fits; for complete lengths, and for cut ones, which are read from the rest of the buffer, the bytes the tag left in temp and memory |
| WireReader.TagEndsLength | lualib-src/pbc/src/context.c:61-72 | nine bytes whose cut length is ended by the last byte of the tag, accepted past the end whatever lies in memory |
| WireReader.FoundAlone | lualib-src/pbc/src/context.c:16-85 | a field that is found does not depend on what lay in memory |
| WireReader.OpenAlone | lualib-src/pbc/src/context.c:217-270 | a message that opens with one content of memory opens to the same fields with every other |
| WireReader.Context.FillInner | lualib-src/pbc/src/context.c:231-247 | the first fields, in the array inside the context |
| WireReader.Context.Spill | lualib-src/pbc/src/context.c:249-266 | the others in an array that grows by 64, the first ones copied last |
| WireReader.Context.Open | lualib-src/pbc/src/context.c:217-270 | all fields in order and their number, or minus the number before the first that cannot be read; lost when a length has passed the check past the end |
| WireReader.OpensToWritten | lualib-src/pbc/src/context.c:217-270 | a buffer of any sequence of fields opens to exactly those fields in order, however many |
| WireReader.FinishedOpens | lualib-src/pbc/src/wmessage.c:492-517 | the same for a finished message with packed fields and submessages |
| WireReader.SliceHolds | lualib-src/pbc/src/context.c:61-72 | the slice of a string field holds the bytes that were written |
| WireReader.MeaningBack | lualib-src/pbc/src/rmessage.c:99-137 | the number read is the number written, all 64 bits or the low 32 of it |
| WireReader.PatternReads | lualib-src/pbc/src/pattern.c:283-325 | pattern mode takes back exactly the numbers that are not of type sint64 |
| WireReader.PatternLosesSint64 | lualib-src/pbc/src/pattern.c:320-325 | the sint64 number 1 is written and then refused |
| WireReader.UnpackVarints | lualib-src/pbc/src/pattern.c:210-278 | the numbers of a packed block are pushed in order, -1 when the last is cut |
| WireReader.UnpackFixed64 | lualib-src/pbc/src/pattern.c:194-209 | the words of the block are pushed in order, -1 unless its length is a multiple of eight |
| WireReader.PackedRoundTrip | lualib-src/pbc/src/pattern.c:210-278 | unpacking a packed payload, of pattern mode or of a message, gives the numbers pushed: 64 bits for the types written whole, the low words for the others |
| WireReader.Fixed64Back | lualib-src/pbc/src/pattern.c:194-209 | unpacking packed numbers of 64 bits gives them back |
| WireReader.ReturnedSame | lualib-src/pbc/src/pattern.c:210-278 | the same number by number, and the high words of the narrow unsigned types are 0 |
| WireMessage.RMessage.Load | lualib-src/pbc/src/rmessage.c:246-308 | each field the type knows is entered in the order of the buffer, others are passed over, and a buffer that does not open, or holds something but no field, is refused |
| WireMessage.RMessage.Integer | lualib-src/pbc/src/rmessage.c:371-397 | a value entered for the field, or its default when there is none; an enumeration shows no high word |
| WireMessage.RMessage.Text | lualib-src/pbc/src/rmessage.c:338-368 | the same for strings and bytes |
| WireMessage.RMessage.Size | lualib-src/pbc/src/rmessage.c:444-454 | 1 exactly when a value is there |
| WireMessage.WriteAll | lualib-src/pbc/src/wmessage.c:136-329 | the message of any calls holds exactly the fields that are not left out, in order |
| WireMessage.MessageRead | lualib-src/pbc/src/rmessage.c:246-308 | the table of a reader of these calls holds exactly those fields, whatever lay in memory |
| WireMessage.NumberComesBack | lualib-src/pbc/src/rmessage.c:371-397 | for every call of a message the number comes back, all 64 bits for the wide types and the low 32 for the others, whether it was written or left out |
| WireMessage.NumberPresent | lualib-src/pbc/src/wmessage.c:136-203 | a number is left out exactly when the field is optional and the number is its default, both words of it |
| WireMessage.TextComesBack | lualib-src/pbc/src/rmessage.c:338-368 | bytes and strings come back, written or left out, when the default has no NUL but perhaps as its last character |
| WireMessage.TextPresent | lualib-src/pbc/src/wmessage.c:244-329 | a text is left out exactly when it is the default of an optional field and the string at the pointer does not go on behind it |
| WireMessage.CleanExactly | lualib-src/pbc/src/wmessage.c:278-293 | a text that is left out is always the default exactly when the default has no such NUL: strcmp stops there |
| WireMessage.Exchange | lualib-src/pbc/src/rmessage.c:371-397 | the same from end to end: the calls are written, the bytes opened and the number of any call asked for |
| WirePacker.PackVarint | lualib-src/pbc/src/pattern.c:364-395 | written exactly when it fits in the slice |
| WirePacker.PackNumbers | lualib-src/pbc/src/pattern.c:658-665 | the numbers one after the other, -1 exactly when they do not fit |
| WirePacker.PutHeader | lualib-src/pbc/src/pattern.c:670-684 | the right header in front of the payload |
| WirePacker.PackPackedVarint | lualib-src/pbc/src/pattern.c:650-685 | length and payload, or -1 exactly when they do not fit in the slice although the header is guessed; nothing outside the slice is touched |
| Registration.Env.CheckFileName | lualib-src/pbc/src/register.c:255-275 | registered already, lacking a dependency, or ready |
| Registration.Env.VisitEntry | lualib-src/pbc/src/register.c:282-300 | one entry is registered exactly when it is open and ready, and counted exactly when it is open and not ready |
| Registration.Env.RegisterNoDependency | lualib-src/pbc/src/register.c:277-303 | a pass counts fewer than the one before unless every file it counted still lacks a dependency |
| Registration.PbcRegister | lualib-src/pbc/src/register.c:327-335 | at most as many passes as files; the names registered are the least fixpoint of the dependency rule; success exactly when all files are among them |
| Registration.OrderIrrelevant | lualib-src/pbc/src/register.c:277-335 | the names registered do not depend on the order of the files |
| Registration.Env.Register | lualib-src/pbc/src/register.c:289-297 | each file is registered after all its dependencies |
| Registration.Fixpoint | lualib-src/pbc/src/register.c:329-332 | when no open file is ready, nothing more can ever be registered |
| Recurrence.Regenerate | lualib-src/lrandom/lrandom.c:59-70 | the three in-place loops turn a block of terms of the recurrence into the next block |
| Recurrence.HalfNext | lualib-src/lrandom/lrandom.c:59-70 | one step of them, at any position |
| Recurrence.DeadFromStart | lualib-src/lrandom/lrandom.c:59-70 | whenever n terms in a row carry nothing on, the state itself carried nothing |
| Twister32.MT.InitGenrand | lualib-src/lrandom/lrandom.c:30-44 | the state is the seeding sequence and no word is drawn |
| Twister32.MT.GenrandInt32 | lualib-src/lrandom/lrandom.c:46-82 | the k-th word drawn is the tempered k-th term of the recurrence, whenever blocks are regenerated |
| Twister32.TemperInjective | lualib-src/lrandom/lrandom.c:75-79 | tempering is injective |
| Twister32.NeverZero | lualib-src/lrandom/lrandom.c:30-82 | whatever the seed, not all of 624 numbers in a row are zero |
| Twister32.ValueInRange | lualib-src/lrandom/lrandom.c:153-177 | value(a, b) lies in [a, b] for every word exactly when b - a + 1 is a positive int or wraps round to 0 |
| Twister32.ValueReaches | lualib-src/lrandom/lrandom.c:153-177 | and every number of the range comes from some word |
| Twister64.MT.InitGenrand64 | lualib-src/lrandom/lrandom64.c:30-36 | the same for 64 bits |
| Twister64.MT.InitByArray64 | lualib-src/lrandom/lrandom64.c:38-64 | the state that the two mixing loops arrive at, first word 2^63 |
| Twister64.MT.Genrand64Int64 | lualib-src/lrandom/lrandom64.c:66-102 | the k-th word drawn is the tempered k-th term of the recurrence |
| Twister64.TemperInjective | lualib-src/lrandom/lrandom64.c:93-97 | tempering is injective |
| Twister64.NeverZero | lualib-src/lrandom/lrandom64.c:38-102 | whatever the key, not all of 312 numbers in a row are zero |
| Twister64.SeedNeverZero | lualib-src/lrandom/lrandom64.c:30-102 | the same for every single seed |
| Twister64.DiesExactly | lualib-src/lrandom/lrandom64.c:66-97 | a state leads to 312 zero terms in a row exactly when all of it but the 31 idle bits of its first word is zero, and then to nothing but zeros |

## Left out

Allocator:

- `mmap`, the Windows and debug branches, foreign sbrk calls with their fenceposts, `calloc`, `mallopt` and statistics (`max_sbrked_mem`, `max_total_mem`).
- Allocator.Arena.constructor: arenas of more than 2 GiB are not modelled, and `av_` is taken to lie below the arena.
- Allocator.Arena.Malloc: of an arena without a heap, only that it stays sound when malloc copes with the request, not the converse; there is no block to lose.
- Allocator.Arena.Realloc: claims nothing for requests at which the malloc it needs destroys the heap.
- Allocator.Arena.MemAlign: the same for the padded request; the alignment is a power of two, as the source demands. Padded requests in the last 23 sizes below 2^63, or past the end of size_t, for which malloc takes too small a chunk, are excluded.
- Allocator.Arena.Trim: pad and a minimum chunk together are a long; larger pads are read as negative ones.
- HeapRuns.Run: requests of 2 GiB less 8 KiB and more are not part of a run, unless malloc refuses them as negative.
- Allocator.Arena.CopyWords: MALLOC_COPY copies ascending words; memory that is given back is cleared in whole words.
- The order of independent writes inside one step of free and malloc.

Decimal conversion:

- Hardware floating point: the quick path of `dtoa`, the shortest-digits branch with `mlo` and `mhi`, and the correction loop of `strtod`.
- The free lists of `Balloc`: a bignum is fresh when it is allocated.
- HalfwayCompare.BigComp: starts after the scaling by powers of two and five, with operands that suit `quorem`.
- NumberText.Scan: hexadecimal numbers, infinities and NaN are recognised (`NumberSpellings.SpecialExactly`) and read elsewhere.
- NumberText.Format: the digits come from `dtoa`, whose choice of mode is not part of this model.

Logger:

- `rollfile`, file names, time, levels, output to the console, and the condition variable with its timeout: a wait is any number of appends before the worker's step.
- Flushing at shutdown: `running` can clear during a write.
- Logger.Log.Run: that lines reach the file is for a run without a drop; a round with one is Logger.Log.FlushDropping.
- Lines longer than a buffer; the callers limit a line to LOG_MAX.

Hash tables:

- NameTable.SpMap.Insert: for keys that are not there, as its callers guarantee.
- NameTable.SpMap.Query: for keys whose hash is not 0, the hash of a slot never used; the empty name is one that is.
- NameTable.SpMap.QueryInsert: the same.
- NameTable.SpMap.Next: the same.
- NameTable.SpMap.Walk: for maps without such names.
- FullTables.Build: the keys are different and there is at least one; of two equal keys it depends on the form of the table which entry is found, and a lookup in an empty one divides by its size.
- FullTables.SiMap.constructor: the same.
- FullTables.IpMap.constructor: the same, and pointers are not NULL, which marks an empty place in the array form.
- FullTables.Combine: the two maps share no key.
- `& (cap - 1)` is written as a remainder, the capacity being a power of two.

JSON:

- JsonParser.DecodeText: texts with a hexadecimal number, an infinity or NaN, which strictness refuses, are not modelled without it.
- `lua_array_length` and sparse arrays: a table arrives as a list or as members. Infinity and NaN in the encoder.
- The Lua stack and its limits; doubles: a number is the text that is printed or read, and `NumberText` says what that text denotes.
- Sizes beyond the C `int`; `strbuf_append_fmt`.

Protobuf:

- Floating-point fields, enumeration values given by name, groups, the query of a field by its key, and the extension of a message by unknown keys.
- Packed numbers of 32 bits, which are written with a stride of eight; `_open_packed_varint` and `_pbcC_open_packed`.
- WireReader.Context.Open: what `_pbcC_open` does after a field past the end of the buffer; the result only says that this happened.
- WireReader.UnpackVarints: the array pushed to is a sequence.
- WireWriter.WMessage.Finish: submessages are finished first and given as bytes; packed fields come in a given order, not in that of the slots of the map.
- WireMessage.RMessage.Load: fields that are repeated, packed or messages; a field is entered and found by its number instead of its name.
- WireMessage.RMessage.Integer: of two values of one field, which one is found depends on the table; WireMessage.NumberComesBack is for messages that write each field once.
- The high word that `_pbcV_dezigzag32` leaves.
- The string pool, heap and array helpers, and everything that registers the contents of a file.

Mersenne Twister:

- Seeding from the operating system, and the draws `genrand64_int64` makes when it seeds itself.
- The unit interval of `Lrandom`, which is closed; Twister32.ValueInRange: in exact arithmetic, the conversion to double not being modelled.

The Lua scripts, configuration, sockets and the bindings that only pass values on.
