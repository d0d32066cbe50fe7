# Verified models of the allocator, the Keccak code and the list sort

This project models three parts of the repository in Dafny and proves what they promise.

1. The allocator of `lib/malloc.c`: one contiguous main arena on 64-bit words, with fastbins, the unsorted
   queue, small bins, sorted large bins with their skip lists, the binmap, top and the system break. Memory is a
   sequence of words; a word address is a byte address divided by 8. The class `Arenas.Arena` holds the words and
   the fields of `malloc_state`; ghost fields hold the view the proofs speak about: the chunks, the contents of
   every list, and the blocks the client holds (`live`). `Arena.Valid()` is the invariant of `do_check_malloc_state`:
   the chunks tile the heap, every tag is right, every chunk is on the list its kind says, large bins are sorted, skip
   lists run through the first chunk of each size, and clear binmap bits mean empty bins. Each operation is a
   method that changes words and fields one by one, as the C code does, and is proved to keep the invariant and to leave
   every word of every other live block alone (`UserSame`). `malloc_printerr` conditions appear as assertions of
   their negation. The results over whole runs are `Runs.Run` and `Runs.NeverRefused`; `Mallocs.IntMalloc` says which
   gap between the live blocks a request gets.
2. The Keccak code of `lib/sha_three`. `KeccakP`, `Constants` and `Sponge` state FIPS 202 (sections 3.2, 3.3, 4
   and 5.1) on lanes and bit strings, for every lane width; `Fips202` states sections 3.1 to 3.3 a second time
   on single bits, with nothing but Boolean operators, and the two are proved to agree. The three `KeccakF`
   implementations are methods over an array of lanes, proved to compute that permutation; the streaming sponge,
   the hash interface over it, the duplex object, the queue-free hash and `crypto_hash` are proved against the
   sponge, for every message and every way of cutting it up. The code predates the domain suffix bits of FIPS
   202, and so does the model.
3. `slist_sort` of `lib/libltdl/slist.c`: the destructive merge sort on linked items, proved to relink the same
   items in the order of a functional merge sort, which is proved sorted and stable.

Modules follow the source: a layer of facts about words and sequences (`Chunks`, `Rings`, `Ladders`, `Bins`,
`BinOps`, `Binmaps`, `Sizes`), the arena, then one module for each routine.

## Findings

Properties that the code has only under a condition. Each is stated as an equivalence or with its exact condition,
and with one input that fails.

| property | where | condition | failing input |
|---|---|---|---|
| the aggregate chunk of iALLOc holds its elements and the table | `Aggregates.AggregateSound` | the sizes add up below 2^64, or the wrapped request is out of range | `Aggregates.AggregateShort`: one element of 2^64 - 20 bytes |
| request2size pads a request right | `Sizes.PaddedExactly` | the request is below 2^64 - 23 | every other request gets 32 bytes |
| the loop that rounds an alignment up ends | `Memaligns.RoundingEnds` | the alignment is at most 2^63 | `Memaligns.NeverRounded`: 2^63 + 1 |
| the padded request of memalign has room for the request | `Memaligns.MemalignRoom` | the sum does not wrap | `Memaligns.MemalignShort`: 2^63 bytes aligned to 2^63 |
| the int fields of mallinfo show bytes and numbers of chunks | `Accounts.MallInfo` | the bytes, or the number, are below 2^31 | `Runs.TwoGigabytes`: one block of 2^31 bytes, and uordblks is negative |
| trimming leaves top larger than the pad and MINSIZE | `System.TrimLeaves` | the pad does not wrap the 64-bit difference | `System.TrimTooMuch`: a pad of 2^63 more than top |
| Absorb moves what there is room for, and ends | `Streams.FitsExactly`, `Streams.FitsOrFails` | the low 32 bits of the length fit as `Fits` says | `Streams.StuckAtOnce`: 2^32 bits on a queue of one byte |
| the bound of a duplex input is two bits less than the rate | `Duplex.RhoMaxRight` | the rate is not 1 | `Duplex.RateOne` |

## Model

| member | source | states |
|---|---|---|
| `Sizes.PaddedSize` | lib/malloc.c:1948-1951 | Without wrap-around, request2size gives the smallest aligned size of at least MINSIZE that has room for the request and a size word; in range it stays MINSIZE below 2^64. |
| `Sizes.PaddedExactly` | lib/malloc.c:1942-1961 | In 64-bit arithmetic the macro gives that size exactly for requests below 2^64 - 23, and MINSIZE for all others; refused are those from 2^64 - 64 on. |
| `Sizes.PadUnpad` | lib/malloc.c:5290 | Asking for a padded size less the alignment mask gives that padded size back. |
| `Sizes.BinIndexMonotone` | lib/malloc.c:2167-2196 | A larger chunk never has a smaller bin index, over all slopes of the index. |
| `Sizes.BinIndexRange` | lib/malloc.c:2162-2196 | Sizes map to bins 2 to 126; below 64 exactly for small sizes, one size to a bin. |
| `Sizes.BinWidths` | lib/malloc.c:2145-2186 | A chunk is in a bin if and only if its size lies between the smallest sizes of that bin and of the next: widths 16, 64, 512, 4096, 32768 and 262144, the slop between them, and one bin for what is left. |
| `Chunks.FreeBefore` | lib/malloc.c:4960-4964 | A clear PREV_INUSE bit means that prev_size leads to the start of a free chunk of just that size. |
| `Rings.RingRemove` | lib/malloc.c:2118-2119 | The two stores of unlink take exactly one chunk out of the ring; the neighbours read from the chunk are the right ones. |
| `Rings.RingInsert` | lib/malloc.c:4505-4508 | The four stores put a chunk at the chosen place of the ring and leave the order of the rest. |
| `Ladders.InsertNew` | lib/malloc.c:4491-4497 | A chunk of a new size joins list and skip list at the place its size belongs, and both stay ordered. |
| `Ladders.InsertSame` | lib/malloc.c:4488-4490 | A chunk put behind one of its size leaves the skip list as it is, still through the first of each size. |
| `Ladders.RemoveFirst` | lib/malloc.c:2134-2137 | A chunk that is the only one of its size leaves the skip list with two stores. |
| `Ladders.ReplaceFirst` | lib/malloc.c:2124-2133 | When the next chunk has the same size it takes over the place on the skip list, alone or among others. |
| `Binmaps.MarkBits` | lib/malloc.c:2253-2256 | Marking a bin adds exactly that bin to the marked ones. |
| `Binmaps.UnmarkBits` | lib/malloc.c:4622 | Clearing a bit removes exactly that bin. |
| `Binmaps.NoneAbove` | lib/malloc.c:4600 | When the bit exceeds the word no bin from there to the end of the word is marked: the comparison skips nothing. |
| `Arenas.InitSound` | lib/malloc.c:2469-2492 | Empty bins that point to themselves, empty fastbins and one top chunk satisfy the invariant. |
| `Arenas.Arena.constructor` | lib/malloc.c:2469-2492 | A new arena satisfies the invariant and no block is in use. |
| `Arenas.Arena.Unlink` | lib/malloc.c:2112-2139 | unlink removes exactly its chunk from the list of its bin, repairs the skip list in all cases, keeps every bin in order, and its corruption checks cannot fire. |
| `Binning.BinSmall` | lib/malloc.c:4456-4460 | A small chunk becomes the first of its bin, and nothing else changes. |
| `Binning.BinLarge` | lib/malloc.c:4466-4499 | In a bin that is not empty a large chunk is inserted once, right behind the first of its size or where a new size belongs; the bin stays sorted, and the skip list runs through the first of each size; comparing sizes with the in-use bit set is right. |
| `Binning.JoinEmpty` | lib/malloc.c:4500-4501 | In an empty bin it is alone on the list and on the skip list. |
| `Binning.BinChunk` | lib/malloc.c:4454-4508 | The chunk lands in the bin of its size, marked in the binmap, and no other bin changes. |
| `Takes.HandOutSplit` | lib/malloc.c:4546-4571 | A free chunk is split: its front has the padded size and is the caller's, its rest is the newest unsorted chunk. |
| `Mallocs.FindBin` | lib/malloc.c:4591-4625 | The binmap scan finds the first non-empty bin from the start on, or that there is none; the bit search always ends inside the word; the marks of exactly the bins passed are cleared. |
| `Mallocs.SkipListBest` | lib/malloc.c:4527-4530 | The smallest size on the skip list that fits is the smallest in the whole bin. |
| `Mallocs.ChooseLarge` | lib/malloc.c:4520-4535 | The large-bin scan finds a smallest fitting chunk of the bin, the second of its size if there is one, or that none fits. |
| `Mallocs.BestInNextBin` | lib/malloc.c:4630-4631 | The last chunk of the first non-empty bin above the request's is the best fit of all bins. |
| `Mallocs.SearchBins` | lib/malloc.c:4520-4682 | The chunk handed out is a best fit: no binned chunk of at least the size is smaller; of equal ones it is the last of its bin; 0 only when none fits; the rest of a chunk split for a small request is the new last remainder. |
| `Mallocs.ProcessUnsorted` | lib/malloc.c:4391-4513 | Unsorted chunks are binned one by one from the old end, until the list is empty or 10000 shorter. The oldest of exactly the padded size is handed out if there is one, else the last remainder is split if it is all that is left and big enough for a small request, else nothing; other blocks stay. |
| `Mallocs.BestSorted` | lib/malloc.c:4400-4405 | A best fit over the regular bins is one over all chunks that were free before the unsorted ones were binned, but for those still unsorted. |
| `Mallocs.Serve` | lib/malloc.c:4389-4752 | The outer loop of _int_malloc is entered at most twice, the second time only for a small request after a consolidation; it fails only when the system does, and asks the system only when no gap between the live blocks has room. |
| `Mallocs.IntMalloc` | lib/malloc.c:4247-4753 | A new block of at least the padded size and less than MINSIZE more, apart from all live blocks and without touching them; newest first from a fastbin, oldest first from a small bin, then the oldest exact fit of the unsorted list, then the last remainder; else, as long as there are no more than 10000 gaps, a large request begins a smallest gap between the live blocks that fits, and the last gap only when no other does, and so does a small one when nothing is in a fastbin. Only then is the heap grown, by the request, the pad and a page at most; 0 when out of range, never when the system grants the memory. |
| `Mallocs.RemainderFirst` | lib/malloc.c:4400-4427 | A last remainder with no exact fit beside it on the unsorted list is what a small request gets, if it is larger than the request and MINSIZE. |
| `Mallocs.TwoInARow` | lib/malloc.c:4400-4427 | When a small request is split from a chunk that is big enough for the next small one too, and no free chunk has exactly that size, the two blocks are neighbours. |
| `Mallocs.FreeThenMalloc` | lib/malloc.c:4898-4899 | A freed chunk of fast size is the very block the next request of its size gets: malloc undoes free. |
| `Frees.FreeChecks` | lib/malloc.c:4780-4954 | For a live block none of the checks of _int_free can fire. |
| `Frees.Coalesce` | lib/malloc.c:4959-5017 | The chunk is merged with every free neighbour or with top; all tags and lists stay right. |
| `Frees.Consolidate` | lib/malloc.c:5089-5203 | All fastbins are emptied, every chunk in them merged; live blocks stay as they are. |
| `Frees.IntFree` | lib/malloc.c:4759-5072 | Exactly the block leaves the hands of the client, and no other block changes. One of fast size heads its fastbin, and nothing else happens. Another is merged with the binned chunk in front and the binned chunk or top behind it: when that makes 65536 bytes or more no fast chunk is left, and a top at the trim threshold loses its surplus pages; else the fastbins and the break stay, and the merged chunk is the newest unsorted one, or top. |
| `Frees.OneStretch` | lib/malloc.c:4959-5017 | There is one such merged stretch only. |
| `Gaps.NoneAdjacent` | lib/malloc.c:2070-2073 | No two binned chunks touch, and none borders top. |
| `Gaps.MaximalGaps` | lib/malloc.c:5089-5203 | With empty fastbins the binned chunks and top are exactly the maximal gaps between live blocks. |
| `Gaps.BestIsBest` | lib/malloc.c:4400-4405 | With empty fastbins a best fit over the free chunks is one over the gaps between the live blocks. |
| `Gaps.UnsortedFew` | lib/malloc.c:4391-4513 | No more chunks are unsorted than there are gaps. |
| `Gaps.ConsolidateFully` | lib/malloc.c:5089-5203 | After malloc_consolidate that is so, whatever order the chunks were processed in. |
| `System.SysMalloc` | lib/malloc.c:3164-3440 | Top grows by whole pages, and only when the system grants them, by no more than the request, the pad, MINSIZE and a page; after a granted growth top is left with the pad and MINSIZE, and less than a page more. When it fails memory and chunks are as before, but for a top that has grown after the size asked for wrapped around. |
| `System.TrimLeaves` | lib/malloc.c:3465-3471 | In wrapping arithmetic sYSTRIm asks back whole pages and leaves top larger than pad + MINSIZE, if and only if the pad does not wrap. |
| `System.TrimTooMuch` | lib/malloc.c:3465-3471 | A pad for which it asks back more than top has. |
| `System.ExtraIsSurplus` | lib/malloc.c:3468-3469 | Unless the pad wraps, the pages asked back are those by which top exceeds the pad, MINSIZE and a page, rounded up. |
| `System.SysTrim` | lib/malloc.c:3453-3515 | The result is 1 if and only if the system takes one of the surplus pages; exactly the pages it takes go back, and of a top with surplus all but pad + MINSIZE and at most a page when it takes all; no block changes. |
| `Reallocs.IntRealloc` | lib/malloc.c:5209-5375 | On every path the first min(old, new) words of the block are kept, the block has the padded size, all other blocks stay, and failure changes nothing. Whatever the system answers, a block that is long enough, or has room in top or in the binned chunk behind it, stays where it is and the heap does not grow; a new chunk right behind it is joined to it. |
| `Reallocs.RoomIsGap` | lib/malloc.c:5262-5285 | With empty fastbins there is such room if and only if the gap behind the block is long enough. |
| `Memaligns.PowerTest` | lib/malloc.c:5476 | `a & (a - 1)` is 0 exactly for powers of two. |
| `Memaligns.RoundingEnds` | lib/malloc.c:5476-5480 | The loop that rounds the alignment up ends if and only if the alignment is at most 2^63. |
| `Memaligns.NeverRounded` | lib/malloc.c:5476-5480 | For 2^63 + 1 no number of shifts is enough. |
| `Memaligns.RoundAlignment` | lib/malloc.c:5472-5480 | The alignment used is the least power of two that is at least the one asked for and MINSIZE. |
| `Memaligns.RoundedLeast` | lib/malloc.c:5472-5480 | That rounding is a power of two, a multiple of MINSIZE, and the least such. |
| `Memaligns.MemalignRoom` | lib/malloc.c:5492 | The worst-case request covers the padded size if and only if the sum does not wrap. |
| `Memaligns.MemalignShort` | lib/malloc.c:5492 | A request of 2^63 bytes, in range, aligned to 2^63 asks for a chunk of 64 bytes. |
| `Memaligns.AlignedSpot` | lib/malloc.c:5508-5514 | The aligned spot leaves a leader of at least MINSIZE and at most alignment + 16 bytes, and is aligned. |
| `Memaligns.IntMemalign` | lib/malloc.c:5453-5559 | A new block at a multiple of the alignment, of the padded size and at most MINSIZE more; leader and tail are given back and the heap stays in order. |
| `Aggregates.Product64` | lib/malloc.c:5708-5711 | The wrapped product of the all-same-size case is the wrapped sum. |
| `Aggregates.AggregateSound` | lib/malloc.c:5707-5720 | For all sizes and counts: the aggregate holds all elements and the table, or is refused, if and only if the sizes add up below 2^64 or the wrapped request is out of range. |
| `Aggregates.AggregateShort` | lib/malloc.c:5707-5720 | One element of 2^64 - 20 bytes in a caller's table gets a chunk of 32 bytes. |
| `Iallocs.IAlloc` | lib/malloc.c:5669-5786 | n adjacent blocks that fill one aggregate, each of exactly its padded size but the last, which takes the slop; the table behind them holds their addresses; other blocks stay. |
| `Accounts.Divided` | lib/malloc.c:5946-5960 | The words of live, fast and binned chunks and top add up to the heap. |
| `Accounts.Int32Exact` | lib/malloc.c:1033-1035 | An int field is right if and only if the value is below 2^31. |
| `Accounts.Int32Sum` | lib/malloc.c:5929-5953 | A counter that wraps at every step ends where the number itself would wrap to. |
| `Accounts.MallInfo` | lib/malloc.c:5915-5965 | uordblks is the bytes of the live blocks if and only if they are below 2^31, and else their low 32 bits; the same for the heap, its free bytes, those of the fastbins and of top, and the numbers of chunks; arena is uordblks + fordblks in int arithmetic, always. |
| `Runs.TwoGigabytes` | lib/malloc.c:5957-5965 | After one request of 2^31 bytes uordblks is negative. |
| `Trims.TrimBins` | lib/malloc.c:5844-5880 | Every whole page inside a binned chunk, behind its fields, is given back, and no other word changes; 0 if and only if there was none. |
| `Trims.TopIsGap` | lib/malloc.c:5837-5883 | After consolidation top begins behind the last live block, so the pad condition can be checked beforehand. |
| `Trims.MTrim` | lib/malloc.c:5831-5887 | malloc_trim keeps all blocks and the invariant; every page of a binned chunk and exactly the surplus pages of top that the system takes are given back, and the result is 0 if and only if there were none. |
| `Runs.AlwaysSeparate` | lib/malloc.c:2602-2640 | Live blocks never overlap. |
| `Runs.Perform` | lib/malloc.c:4247-5786 | Every legal call means on the client's store what it should: a block added, removed, replaced with its contents kept, n blocks and a table added, a word written, or nothing; a request in range is refused only when the system refuses, and the heap grows by no more than it may take. |
| `Runs.Run` | lib/malloc.c:4247-5786 | Any sequence of legal calls, with any behaviour of the system, means what the calls mean one after the other on a store of separate blocks, each request in range served when the system grants it. |
| `Runs.NeverRefused` | lib/malloc.c:3164-3440 | In any run, while all that has been asked for, with a pad and a page for each request, stays below 2^63, no request in range is refused that the system grants. |
| `Runs.Open` | lib/malloc.c:3164-3440 | The first request finds an arena in order, with the parameters given, no block, and room for the request in top; the break has moved by no more than the request, the pad and two pages. |
| `Constants.TableIsStandard` | lib/sha_three/Keccak-compact.c:118-150 | Each round constant is the one the LFSR of FIPS 202, algorithm 5, gives, for every lane width. |
| `KeccakP.OffsetsWalked` | lib/sha_three/Keccak-compact.c:152-155 | The rotation offsets are the triangle numbers along the walk of FIPS 202, algorithm 2. |
| `CompactRounds.SingleCycle` | lib/sha_three/Keccak-compact.c:157-160 | The PiLane table is one 24-cycle along that walk, and each step moves the lane that pi moves. |
| `CompactRounds.RhoPiStep` | lib/sha_three/Keccak-compact.c:209-216 | The in-place walk does rho and pi on all lanes at once. |
| `Fips202.ChiShows` | lib/sha_three/Keccak-compact.c:218-230 | Chi flips a bit if and only if the next one in its row is 0 and the one after that is 1. |
| `Fips202.PermutationShows` | lib/sha_three/Keccak-compact.c:168-237 | The permutation on lanes is, bit by bit and for every lane width of 2^l bits, 12 + 2 l rounds of the step mappings of FIPS 202, sections 3.2.1 to 3.2.5. |
| `Fips202.StringPermuted` | lib/sha_three/Keccak-compact.c:67-115 | On bit strings, with A[x, y, z] = S[w(5y + x) + z], it is what the sponge calls. |
| `CompactRounds.KeccakF` | lib/sha_three/Keccak-compact.c:168-237 | The table-driven form computes the permutation on the state with the input XORed in, for each lane width: the result has, bit by bit, what the step mappings of the standard make of state and input. |
| `Simples.KeccakF` | lib/sha_three/Keccak-simple.c:128-403 | The two-rounds-unrolled form computes the permutation, for each lane width: the result has, bit by bit, what the step mappings of the standard make of state and input. |
| `InPlace.FourAround` | lib/sha_three/Keccak-inplace.c:145-416 | The storage of the lanes is back in place after four rounds. |
| `InPlace.InOrder` | lib/sha_three/Keccak-inplace.c:145-416 | Before the first and after the fourth round the stored lanes are the state itself. |
| `InPlace.KeccakF` | lib/sha_three/Keccak-inplace.c:103-445 | The in-place form, with lanes stored rotated over four rounds, computes the permutation: the result has, bit by bit, what the step mappings of the standard make of state and input. |
| `Agreement.AllThree` | lib/sha_three/Keccak-inplace.c:103-445 | The three functions leave the same state on every 25-lane state and input. |
| `Streams.FitsExactly` | lib/sha_three/KeccakSponge.c:173-175 | The 32-bit arithmetic of Absorb gives what the queue has room for, if and only if `Fits` holds of the length. |
| `Streams.FitsOrFails` | lib/sha_three/KeccakSponge.c:173-175 | Otherwise Absorb overruns the queue, or comes to a round that moves nothing. |
| `Streams.Stuck` | lib/sha_three/KeccakSponge.c:91-190 | A rest that is a multiple of 2^32 moves no bit into a queue that is not empty. |
| `Streams.StuckAtOnce` | lib/sha_three/KeccakSponge.c:173-175 | One such length. |
| `Streams.SpongeState.InitSponge` | lib/sha_three/KeccakSponge.c:21-38 | Accepts exactly rates that are multiples of 64 below 1600 with the capacity that goes with them, and begins with no message. |
| `Streams.SpongeState.Absorb` | lib/sha_three/KeccakSponge.c:80-192 | The given bits are appended to the message and the loop ends; 1, and no change, after a partial byte or in the squeezing phase. |
| `Streams.SpongeState.PadAndSwitchToSqueezingPhase` | lib/sha_three/KeccakSponge.c:194-227 | The state is that after message and pad10*1, with one free bit left or more. |
| `Streams.SpongeState.Squeeze` | lib/sha_three/KeccakSponge.c:229-266 | The next bits of the sponge output of the message; 1 for a length that is no multiple of 8. |
| `StreamRuns.Stream` | lib/sha_three/KeccakSponge.c:80-266 | However the message is cut into Absorb calls and the output into Squeeze calls, the outputs make up the sponge of the whole message. |
| `NistInterface.Init` | lib/sha_three/KeccakNISTInterface.c:18-41 | The five output lengths get their rates; any other is refused. |
| `NistInterface.Update` | lib/sha_three/KeccakNISTInterface.c:43-58 | The input is appended to the message, the high bits of a last partial byte moved down. |
| `NistInterface.Hash` | lib/sha_three/KeccakNISTInterface.c:65-82 | The digest is the sponge of the input with a capacity of twice the output length. |
| `Duplex.RhoMaxRight` | lib/sha_three/KeccakDuplex.c:25-29 | The bound on inputs is the rate less two, if and only if the rate is not 1. |
| `Duplex.RateOne` | lib/sha_three/KeccakDuplex.c:25-29 | For rate 1 the bound wraps to 2^32 - 1. |
| `Duplex.DuplexState.InitDuplex` | lib/sha_three/KeccakDuplex.c:21-33 | Accepts exactly rates from 1 to 1600 with their capacity; the object is in order unless the rate is 1. |
| `Duplex.DuplexState.Duplexing` | lib/sha_three/KeccakDuplex.c:35-68 | The duplexing lemma: the output of a call is the sponge of all earlier inputs, each padded to a block, and this one, for every rate; refused calls change nothing. |
| `Casts.XorLanewise` | lib/sha_three/Keccak-compact.c:174-178 | XORing lanes is XORing the bits of the bytes they are cast from. |
| `CompactHash.HashState.Update` | lib/sha_three/Keccak-compact.c:249-287 | The input is appended to the message that has been XORed into the state; FAIL after Final or a partial byte. |
| `CompactHash.HashState.Final` | lib/sha_three/Keccak-compact.c:289-341 | The digest is the sponge of the message, for every output length and also with exactly one free bit before the padding; FAIL the second time. |
| `Digests.Digest` | lib/sha_three/Keccak-compact.c:240-341 | However the message is cut into Update calls, the digest is the sponge of the whole. |
| `Digests.CryptoHash` | lib/sha_three/Keccak-compact.c:67-115 | crypto_hash, with each of the three permutations, gives the sponge of the whole bytes of its input. |
| `Digests.SameDigest` | lib/sha_three/Keccak-compact.c:67-341 | On whole bytes Init, Update and Final agree with crypto_hash. |
| `Interleaving.Inverse` | lib/sha_three/KeccakF-1600-opt32.c:141-192 | fromInterleaving and toInterleaving are inverse to each other on every word. |
| `Interleaving.Placed` | lib/sha_three/KeccakF-1600-opt32.c:141-152 | Even bits go to the low word and odd bits to the high word, in order. |
| `Interleaving.Linear` | lib/sha_three/KeccakF-1600-opt32.c:141-192 | Both commute with XOR. |
| `Interleaving.TwoWords` | lib/sha_three/KeccakF-1600-opt32.c:112-133 | The little-endian two-word macro computes the two halves of toInterleaving. |
| `Interleaving.XorLanesIntoState` | lib/sha_three/KeccakF-1600-opt32.c:154-176 | XORing into interleaved words is XORing the lanes they stand for. |
| `Interleaving.XorInterleavedLE` | lib/sha_three/KeccakF-1600-opt32.c:112-133 | The same of the little-endian macro. |
| `Interleaving.ExtractLanes` | lib/sha_three/KeccakF-1600-opt32.c:181-218 | The lanes given out are those the words stand for. |
| `MergeSort.SortItems` | lib/libltdl/slist.c:306-336 | The sorted sequence has the same items, whatever the comparison answers. |
| `MergeSort.SortSorted` | lib/libltdl/slist.c:306-336 | It is in order whenever the comparison is a total preorder on the items. |
| `MergeSort.SortStable` | lib/libltdl/slist.c:306-336 | Items tied with each other keep their order. |
| `SLists.SlistSortMerge` | lib/libltdl/slist.c:272-297 | Two lists are relinked into one, in the order of the merge. |
| `SLists.Middle` | lib/libltdl/slist.c:321-330 | The two-speed walk ends at the last item of the first half; both halves have items. |
| `SLists.SlistSort` | lib/libltdl/slist.c:306-336 | The sort ends and relinks exactly the items of the list, in the order of the merge sort. |

## Left out

- mmapped chunks, arenas other than the main one and their heaps, locks, ATOMIC_FASTBINS, hooks and perturb bytes.
- malloc_init_state merged with the first request: the arena is created with its first top, `Runs.Open`.
- A foreign sbrk between two requests, and a break that is not a multiple of 16 at the first one.
- Zeroing in calloc and iALLOc, valloc and pvalloc, malloc_info and malloc_stats; hblks, hblkhd and usmblks of mallinfo.
- public_rEALLOc trying another arena when the first one fails.
- The page size is 4096, M_MXFAST and the thresholds are parameters of the arena.
- Independent stores may come in another order than in the source, and the split of the last remainder is a take and a put.
- Runs.Perform: Trim is legal below 2^63 for every heap; the exact condition on the pad, which depends on where top begins, is that of `Trims.MTrim`.
- Mallocs.IntMalloc: with more than 10000 chunks left unsorted, those that are left are not compared with, in the model as in the code (`BestServed`); no run that gets there is constructed. A small request that consolidates first is only known to get a block that fits.
- Iallocs.IAlloc: asks that the aggregate is sound as `Aggregates.AggregateSound` says, since the code does not check.
- Memaligns.IntMemalign: asks that the alignment is at most 2^63 and the padded sum does not wrap, the exact conditions of `Memaligns.RoundingEnds` and `Memaligns.MemalignRoom`.
- Streams.SpongeState.Absorb: asks for lengths as in `Streams.FitsExactly`; a state after a failed call is not modelled beyond it.
- CompactHash.HashState.Update: the rate is a whole number of lanes, as the casts take for granted.
- Digests.CryptoHash: the output buffer that serves as the last block, when it is as long as one, is a buffer of its own here.
- Duplex.DuplexState.Duplexing: rate 1 is not modelled beyond `Duplex.RateOne`.
- The rounds of KeccakF-1600-opt32.c and KeccakF-1600-opt64.c, lane complementing, and the interleave tables that the settings leave off.
- Big-endian branches, genKAT.c, and the fast variants for fixed rates, which differ in nothing but the rate.
- SLists.SlistSort: the two halves are sorted left first; C leaves the order open, and they share no item.
