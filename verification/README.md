# Verification of mongols' algorithmic core

mongols is a server library; the hard logic in it is in the algorithms it bundles. This project models eight
groups of them in Dafny and proves what they are for. Methods and classes follow the loops and fields of the
source; each is proved against functions on values, and the main results are lemmas about those functions.

- **Lock-free queue.** `DequeueTickets` is the ticket protocol of the dequeuers, `FreeList` the
  reference-counted free list and `Semaphore` the lightweight semaphore of the blocking queue. `BlockQueue` is an
  implicit sub-queue with its blocks, its producer and its dequeuers; `BlockIndexRing`, `BlockIndex` and
  `BlockLookup` treat the ring that leads to the blocks, `BlockCounters` the counters that say when a block is
  empty, `BlockContents` the elements, and `BlockRuns` states what holds in every run; `BlockProgress` says that
  dequeuers end, enqueues publish and blocks come back. `QueueRuns` puts tickets and blocks together. A state is changed by one atomic operation per event, so that a sequence of events is an
  interleaving of any number of threads; the theorems are about every state that such a sequence leads to.
  `CircularOrder` and `Masks` are the arithmetic of indices that wrap around, and `LookupInWord` computes the
  lookup of the block index on wrapped words.
- **Finite State Entropy** (section 4.1 of RFC 8878). `NCount` reads the header of counts, `FseWalk`,
  `FseRounds` and `FseTable` spread the symbols and number the states, `FseDecoder` shows that the table is an
  invertible automaton, `BitStream` writes and reads the backward bit stream, and `FseDState` puts table and stream
  together. `NCountPlain` is a reader of the same header bit by bit, as the independent definition;
  `NCountMisread` has an input on which the two differ, and the boundary between those that agree and those that
  need not. `NCountWriter` writes the header as section 4.1.1 of RFC 8878 says, and `FseDefault` compares the table
  builder with a table that the source holds as a literal. `Bits`, `BitStrings` and `Pigeonhole` hold the arithmetic.
- **json11.** `JsonValues` prints, `JsonGrammar` says what a text means, `JsonParsing`
  is the index-driven parser, `JsonRoundTrip`, `JsonDepth` and `JsonEscapes` relate them. `JsonSyntax` writes down the
  texts of RFC 8259 as trees, without regard to how they are recognised; `JsonAccepts` and `JsonExact` show that the
  parser accepts these and no others, and `JsonTables` has the tables of the printer, the code points and the maps.
- **Streaming parsers.** `WebSocket`, `WebSocketFrame` and `WebSocketRoundTrip` are the websocket parser, the
  masking and the frame builder (sections 5.2 and 5.3 of RFC 6455), `WebSocketWire` the layout of a frame bit by bit.
  `HttpBody` and `HttpChunks` are the body states of the HTTP parser (section 4.1 of RFC 7230), `HttpSplits` is about
  the splits into calls, and `HttpExact` about where a message ends.
- **xxHash.** `XxHash` is the one-shot and the buffered form over abstract rounds, `XxRounds` the rounds of
  XXH32 and XXH64, and `XxFormulas` these in arithmetic.
- **Job pool.** `JobPool` is zstd's circular job queue with its busy counter, resizing and shutdown; one
  critical section is one method.
- **Merge sort.** `SortOrder`, `SortMerge` and `SortList` are the comparison of cJSON_Utils, its merge sort as a
  function of the keys, and the sort in place; `SortCase` is about the case-sensitive mode.
- **LRU cache.** `LruCache` is the hash index over the recency list, `LruReference` a map of time stamps that it
  is compared with.

Some findings are worth a reader's attention:

- A header of counts with nothing behind it can be accepted with other counts than it spells; with one byte behind it
  or more, it cannot (`NCountMisread.OneByteBehind`).
- The table builder accepts counts whose symbols go round the table any whole number of times, such as twice 32 for 32
  cells, or none for a table of one cell of probability below one; such a table is wrong (`FseTable.DTable.BuildDTable`,
  `FseTable.AcceptedTwice`, `FseTable.AcceptedEmpty`).
- The websocket parser adds the length of a frame to an address without a check. Where the sum wraps, as for the
  input 82 7F FF FF FF FF FF FF FF FF and any byte, the application is told of data that are not there, and the parser
  moves back (`WebSocketRoundTrip.LongestLengthWraps`); everywhere else the split into calls does not matter
  (`WebSocket.ExecuteAll`).
- `POOL_tryAdd` reports success for a job that a pool being shut down drops (`JobPool.Pool.TryAdd`).
- When the byte behind the data of a chunk is wrong, the data that came in the same call are not delivered, while
  data that came earlier were (`HttpBody.LossDependsOnSplit`); this is the only way a split shows
  (`HttpSplits.SplitsAgreeExactly`).
- The case-sensitive mode of `sort_list` merges without regard to case. It sorts the lists with keys from a given set
  exactly if those keys stand in the same order without regard to case (`SortCase.SortsByCaseExactly`).
- The job queue of one slot can accept a job with no thread free, once the limit of threads is lowered below those that
  are busy (`JobPool.LowerTheLimit`).
- The lookup in the block index means to keep the sign of an offset, but divides by an unsigned number; in a ring whose
  blocks fit into a word it finds the same slot (`LookupInWord.EveryLookupInWords`).
- The comparison of wrapped indices fails at exactly half the word (`CircularOrder.CircularLessThanExact`).
- json11 reads exactly the texts of RFC 8259 with no more than 200 arrays and objects around a value, and its comments
  if they are allowed; the bytes of a string are taken as they are, UTF-8 or not (`JsonExact.ParsesExactly`).
- A chunked message may end with a line feed that has no carriage return before it (`HttpExact.EndsExactly`).
- The bulk enqueue takes back its insertions first to last while the tail moves back from the last, so that half
  of its lookups lie ahead of the tail; they land nevertheless (`BlockLookup.UndoFinds`).

`dafny verify dfyconfig.toml` checks the whole project.

## Model

| member | source | states |
|---|---|---|
| DequeueTickets.NeverPastTail | inc/mongols/lib/concurrentqueue.h:1873-1969 | for any interleaving of one producer and any number of single and bulk dequeuers, headIndex plus all claims granted but not yet applied never exceeds tailIndex |
| DequeueTickets.ClaimsAreDistinctAndPublished | inc/mongols/lib/concurrentqueue.h:2157-2248 | the ranges of indices handed out are disjoint, lie below tailIndex, and together are everything below headIndex |
| DequeueTickets.SnapshotWithinTicket | inc/mongols/lib/concurrentqueue.h:1897-1903 | the overcommit a dequeuer saw never exceeds the ticket it then draws |
| DequeueTickets.GrantsBefore | inc/mongols/lib/concurrentqueue.h:1896-1910 | what was granted to earlier tickets is at most the ticket's number less the overcommit it saw, the reason why the check against the tail suffices |
| DequeueTickets.GrantsPublished | inc/mongols/lib/concurrentqueue.h:1905-1920 | all grants up to any ticket together are at most the published tail |
| DequeueTickets.ClaimFits | inc/mongols/lib/concurrentqueue.h:1905-1920 | what a consumer is about to add to headIndex fits below tailIndex |
| DequeueTickets.QuiescentCounters | inc/mongols/lib/concurrentqueue.h:1873-1969 | with no dequeue in flight dequeueOptimisticCount is headIndex plus dequeueOvercommit |
| DequeueTickets.AloneTakesWhatIsThere | inc/mongols/lib/concurrentqueue.h:2157-2248 | a bulk dequeue that is alone takes exactly the smaller of what it asks for and what is there, and leaves the counters quiescent |
| DequeueTickets.StepInv | inc/mongols/lib/concurrentqueue.h:1873-1969 | every atomic operation keeps the ticket invariant |
| FreeList.ListIsAChain | inc/mongols/lib/concurrentqueue.h:1362-1441 | in every reachable state the next pointers from the head visit distinct nodes and end in null |
| FreeList.TakenByOne | inc/mongols/lib/concurrentqueue.h:1378-1417 | a node just taken off the list is owned by one taker, by no adder, is not linked, and has its should-be-on-list bit clear |
| FreeList.CountIsExact | inc/mongols/lib/concurrentqueue.h:1362-1441 | the low 31 bits of a node's word are its outstanding readers plus one if it is linked or being linked |
| FreeList.NextIsStable | inc/mongols/lib/concurrentqueue.h:1386-1402 | while a thread holds a reference to a node no step changes the node's next pointer, so that the compare-exchange on the head is safe |
| FreeList.HeldIsUnflagged | inc/mongols/lib/concurrentqueue.h:1362-1375 | a node in a caller's hands has its should-be-on-list bit clear, so that setting the bit by addition is right |
| FreeList.NothingIsLost | inc/mongols/lib/concurrentqueue.h:1362-1441 | when all threads are idle every node is with a caller and unreferenced or on the list with exactly the list's reference |
| FreeList.AloneGets | inc/mongols/lib/concurrentqueue.h:1378-1417 | from every reachable state a try_get that is not disturbed takes the first node of a list that is not empty, hands it to its caller, and changes nothing else |
| FreeList.AloneAdds | inc/mongols/lib/concurrentqueue.h:1362-1441 | from every reachable state an add that is not disturbed puts a node that nobody reads in front of the list, with the list's reference |
| FreeList.StepInv | inc/mongols/lib/concurrentqueue.h:1362-1441 | every atomic operation of any thread keeps the invariant |
| Semaphore.PermitsAreConserved | inc/mongols/lib/blockingconcurrentqueue.h:260-405 | for every interleaving of signals, waits, timed-out rollbacks and bulk waits, max(count, 0) plus kernel permits plus pending releases is initial plus signalled less acquired |
| Semaphore.NoLostWakeup | inc/mongols/lib/blockingconcurrentqueue.h:260-297 | a waiter sleeps with nothing posted or about to be posted only if every permit ever issued was taken |
| Semaphore.NoStrayPosts | inc/mongols/lib/blockingconcurrentqueue.h:280-297 | once nobody is inside a wait no kernel permit is left over, whatever timed out |
| Semaphore.HoldersAreServed | inc/mongols/lib/blockingconcurrentqueue.h:754-761 | in the blocking queue every holder of permits has that many elements left for it |
| Semaphore.QuietCountIsSize | inc/mongols/lib/blockingconcurrentqueue.h:519-526 | with nobody inside an operation the semaphore counts exactly the elements |
| Semaphore.AloneOwns | inc/mongols/lib/blockingconcurrentqueue.h:366-391 | a take that is not disturbed owns at once the smaller of what it asks for and a positive count, however patient it is; without waiting it gets nothing from a count that is not positive |
| Semaphore.AloneTakesWhatIsThere | inc/mongols/lib/blockingconcurrentqueue.h:721-761 | in the blocking queue such a take ends with exactly that many elements and permits gone |
| Semaphore.EnqueueWakes | inc/mongols/lib/blockingconcurrentqueue.h:396-405 | unless a post is still on its way, one element put in lets a thread that sleeps have its permit |
| BlockRuns.EveryLookupLands | inc/mongols/lib/concurrentqueue.h:2837-2860 | in every run a dequeuer stands right at every step of its lookup: the tail it loaded has a valid key and leads to its slot, the slot has the base of its block for a key and the block in use for a value, that block is what it reads, and the entry it clears is still that of its block; also through a header that was replaced meanwhile, and for the later blocks of a bulk dequeue |
| BlockLookup.UndoFinds | inc/mongols/lib/concurrentqueue.h:2574-2580 | taking back a bulk insertion, the producer finds the entry of each block it takes back, ahead of the tail or behind it |
| BlockLookup.GrowingMakesRoom | inc/mongols/lib/concurrentqueue.h:2805-2829 | where an insertion finds no room, the doubled ring has an entry without a key behind its tail, and the insertion goes on |
| BlockLookup.BaseIsNext | inc/mongols/lib/concurrentqueue.h:2549-2558 | the base that the producer computes from tailIndex and its loop is that of the next block number |
| BlockLookup.StepSound | inc/mongols/lib/concurrentqueue.h:2396-2904 | every atomic operation of the producer and of any dequeuer keeps the block index right |
| BlockCounters.CounterFull | inc/mongols/lib/concurrentqueue.h:1519-1536 | what a dequeuer adds to the counter of its block fits, and makes it the whole block if and only if all of the block was granted and no other dequeuer has some of it or is to free it |
| BlockCounters.FreerIsAlone | inc/mongols/lib/concurrentqueue.h:2510-2519 | while a dequeuer is to free a block, the counter is full and no other one has to do with the block |
| BlockCounters.StepCounted | inc/mongols/lib/concurrentqueue.h:2396-2773 | every atomic operation keeps the sum that the counters stand for |
| BlockRuns.CountersAreConserved | inc/mongols/lib/concurrentqueue.h:1500-1536 | in every run, of every block in use, the counter, the elements granted but not yet marked by any dequeuer and those not yet granted make up the block size |
| BlockRuns.EmptyMeansSpent | inc/mongols/lib/concurrentqueue.h:1500-1536 | in every run the counter of a block in use is full if and only if all of it was granted and nobody still has some of it, and if and only if some dequeuer is to free it |
| BlockRuns.FreedByOne | inc/mongols/lib/concurrentqueue.h:2761-2773 | in every run, while one dequeuer is to free a block, no other one is, nor has some of it |
| BlockRuns.CountersNeverOverflow | inc/mongols/lib/concurrentqueue.h:1510-1534 | in every run the assertions on the counter hold: it is below the block size before a dequeuer adds to it, and not above it afterwards |
| BlockRuns.BlocksAreDistinct | inc/mongols/lib/concurrentqueue.h:2417-2443 | in every run no block is in use for two numbers, nor to be had by others while in use |
| BlockRuns.TakenAsPutIn | inc/mongols/lib/concurrentqueue.h:2478-2520 | in every run what was taken for an index is the element put in at that index, and no index is taken twice |
| BlockRuns.EveryElementTaken | inc/mongols/lib/concurrentqueue.h:2683-2773 | once no dequeuer is at work, every element that was granted has been taken |
| BlockRuns.CapacitiesArePowers | inc/mongols/lib/concurrentqueue.h:2862-2904 | in every run each header has twice the capacity of the one before, a power of two |
| BlockRuns.InitInv | inc/mongols/lib/concurrentqueue.h:2332-2339 | a new sub-queue satisfies the invariant, whatever its uninitialised values are |
| BlockRuns.StepInv | inc/mongols/lib/concurrentqueue.h:2396-2904 | index, counters and contents are kept together by every operation |
| BlockContents.TakesItsElement | inc/mongols/lib/concurrentqueue.h:2478-2508 | the slot a dequeuer reads holds the element of its index |
| BlockContents.StepFilled | inc/mongols/lib/concurrentqueue.h:2453-2457 | every operation keeps the elements in their slots and the record of what was taken |
| BlockProgress.WaitFree | inc/mongols/lib/concurrentqueue.h:2683-2773 | a dequeuer is done once it had as many turns as it has work, whatever the producer and the other dequeuers do in between |
| BlockProgress.DequeueEnds | inc/mongols/lib/concurrentqueue.h:2683-2773 | that is at most four turns for each element granted and four more, from every reachable state |
| BlockProgress.EnqueuePublishes | inc/mongols/lib/concurrentqueue.h:2396-2459 | from every reachable state with the producer at rest an enqueue that is not disturbed publishes its element in at most six operations, growing the index where it has no room; dequeuers, head and what was taken stay as they are |
| BlockProgress.EnqueueNext | inc/mongols/lib/concurrentqueue.h:2400-2443 | at the start of a block it takes one block from those to be had and puts it into use for the next number |
| BlockProgress.StepBlocks | inc/mongols/lib/concurrentqueue.h:2417-2443 | no operation of the sub-queue loses a block: those in use and those to be had are together the same before and after |
| BlockProgress.SpentBlocksComeBack | inc/mongols/lib/concurrentqueue.h:2510-2519 | in every run, when no dequeuer is at work, no block is in use all of whose elements were granted |
| QueueRuns.ClaimIsGranted | inc/mongols/lib/concurrentqueue.h:2463-2476 | what a dequeuer adds to headIndex after its ticket is always below tailIndex, which is all that a grant of the blocks needs |
| QueueRuns.QueueDelivers | inc/mongols/lib/concurrentqueue.h:2461-2773 | for every interleaving of tickets, blocks and the producer, what was taken for an index is what was put in there, once, and with nobody at work all that was granted was taken |
| Masks.MaskIsRemainder | inc/mongols/lib/concurrentqueue.h:2808 | masking a wrapped index with a power of two less one is the remainder, also for an index that went below zero |
| Masks.ClearingIsMultiple | inc/mongols/lib/concurrentqueue.h:2849 | masking with the complement is the multiple at or below |
| BlockIndex.KeyStoredKeeps | inc/mongols/lib/concurrentqueue.h:2805-2816 | reusing a slot keeps the layout and the storage, even where it overwrites the oldest key |
| BlockIndex.NoRoom | inc/mongols/lib/concurrentqueue.h:2805-2822 | the slot behind the tail is taken only if the keys fill the ring and the lowest block is in use |
| BlockIndex.TailBackKeeps | inc/mongols/lib/concurrentqueue.h:2831-2835 | moving the tail back keeps the layout and the storage |
| BlockIndex.GrownKeeps | inc/mongols/lib/concurrentqueue.h:2862-2904 | doubling the ring takes over every entry, keeps layout and storage and all old headers right, and leaves an unused entry behind the tail |
| BlockIndex.GrownEntries | inc/mongols/lib/concurrentqueue.h:2878-2887 | the doubled ring leads from every number of the window to the entry it had |
| BlockIndexRing.CopyRing | inc/mongols/lib/concurrentqueue.h:2878-2887 | the copying loop gives the old slots in ring order, the tail last |
| CircularOrder.CircularLessThanExact | inc/mongols/lib/concurrentqueue.h:396-405 | the wrapped comparison agrees with that of the unbounded numbers if and only if their difference is above minus half the word and at most half the word |
| CircularOrder.UnsignedOffset | inc/mongols/lib/concurrentqueue.h:2854-2857 | the wrapped difference of two block bases, divided by the block size as unsigned numbers, is congruent to the difference of their numbers modulo every capacity whose blocks fill the word a whole number of times |
| CircularOrder.OffsetOfSmaller | inc/mongols/lib/concurrentqueue.h:2854-2856 | for a smaller number it is the number of blocks in a word less the difference, and no negative number |
| LookupInWord.FindsLocated | inc/mongols/lib/concurrentqueue.h:2845-2857 | with the index masked to its base, the difference divided, and the sum masked to the ring, all in words, the slot is the one that the unbounded numbers lead to |
| LookupInWord.EveryLookupInWords | inc/mongols/lib/concurrentqueue.h:2845-2860 | so every dequeuer finds the slot of its block in every run, as long as the blocks of its ring fit into a word |
| FseWalk.StepIsOdd | src/zstd/common/fse.h:700 | the stride is odd exactly for tables of other than 2 and 8 cells |
| FseWalk.WalkIsStuck | src/zstd/common/fse.h:700 | for those two the walk does not leave its first cell |
| FseWalk.WalkInjective | src/zstd/common/fse_decompress.c:125-136 | an odd stride over a table of a power of two meets no cell twice within a round |
| FseWalk.WalkCovers | src/zstd/common/fse_decompress.c:125-136 | and meets every cell |
| FseWalk.WalkReturns | src/zstd/common/fse_decompress.c:125-136 | and is back at 0 after it |
| FseDefault.SymbolLiesAt | src/zstd/common/fse_decompress.c:126-133 | for counts without -1 that fill a table of 16 cells or more, the k-th symbol placed lies in cell k * (5 * (size / 8) + 3) modulo the size |
| FseDefault.OffsetTable | src/zstd/decompress/zstd_decompress.c:737-756 | the table built from OF_defaultNorm is OF_defaultDTable, the literal table of the source, cell by cell: symbols, bits and next states |
| FseTable.WalkEnds | src/zstd/common/fse_decompress.c:125-136 | the walk is back at 0 exactly when no cell is unwritten, and that is after one full round |
| FseRounds.AtZeroExactly | src/zstd/common/fse_decompress.c:125-135 | however many rounds it goes, the walk is at 0 if and only if it has stopped outside the low-probability area a multiple of as many times as there are cells there |
| FseTable.FreshCell | src/zstd/common/fse_decompress.c:130-134 | while cells are left the walk stands at one that is unwritten or in the low-probability area |
| FseTable.SpreadComplete | src/zstd/common/fse_decompress.c:107-136 | a finished spread gives symbol s exactly as many cells as its count, every cell one symbol |
| FseTable.DTable.LayLowProbability | src/zstd/common/fse_decompress.c:107-122 | the low-probability symbols are laid from the top of the table, and fastMode is false exactly if a count reaches half the table |
| FseTable.DTable.SpreadSymbols | src/zstd/common/fse_decompress.c:124-136 | the loops end for all counts; the position is 0 if and only if the number of symbols placed is a multiple of the cells the walk stops at, and if the counts fill the table every cell holds its symbol |
| FseTable.DTable.NextPosition | src/zstd/common/fse_decompress.c:132-133 | the inner loop skips the low-probability area only |
| FseTable.DTable.BuildStates | src/zstd/common/fse_decompress.c:138-145 | over the right layout every cell gets the number of bits and the base of its next states from its rank among the cells of its symbol |
| FseTable.DTable.BuildDTable | src/zstd/common/fse_decompress.c:93-148 | the error for each bad argument; GENERIC exactly if the symbols do not go round a whole number of times; the table is built if the counts fill it, and not if they do not |
| FseTable.AcceptedTwice | src/zstd/common/fse_decompress.c:135 | counts of twice the table are accepted |
| FseTable.AcceptedEmpty | src/zstd/common/fse_decompress.c:135 | and so is a single cell of probability below one in a table of 32 |
| FseTable.NumberRange | src/zstd/common/fse_decompress.c:142 | the states of a symbol with c cells are numbered c to 2c - 1 |
| FseDecoder.HasPredecessor | src/zstd/common/fse_decompress.c:138-145 | for every present symbol and every next state some cell leads there |
| FseDecoder.OnePredecessor | src/zstd/common/fse_decompress.c:138-145 | and only one |
| FseDecoder.IntervalsPartition | src/zstd/common/fse_decompress.c:138-145 | the intervals of next states of one symbol's cells partition the table |
| FseDecoder.StaysInTable | src/zstd/common/fse.h:620-628 | a decoding step from any cell with any bits stays in the table |
| FseDecoder.SymbolIsPresent | src/zstd/common/fse.h:606-610 | what is decoded is a symbol with a count that is not zero |
| FseDecoder.EveryCellReads | src/zstd/common/fse_decompress.c:110-145 | every cell reads at least one bit if and only if no count exceeds half the table |
| FseDecoder.FastModeIsSafe | src/zstd/common/fse.h:630-642 | fastMode implies that every cell reads a bit, which the fast reader needs |
| FseDecoder.CanEncode | src/zstd/common/fse.h:620-628 | every sequence of present symbols can be decoded into any final state, from some state with some bits |
| FseDecoder.EncodingIsUnique | src/zstd/common/fse.h:620-628 | and from one state with one sequence of bits only |
| NCount.CountInRange | src/zstd/common/entropy_common.c:129-141 | whatever the bits, a count is at least -1 and leaves at least one of what remains |
| NCount.SymbolKeeps | src/zstd/common/entropy_common.c:100-158 | each turn keeps remaining >= 1 and the sum of what was read and what remains |
| NCount.ReadSymbolInto | src/zstd/common/entropy_common.c:100-158 | the turn over the loop's variables computes that, and keeps threshold <= remaining < 2 * threshold with threshold a power of two |
| NCount.CountsFillTable | src/zstd/common/entropy_common.c:61-165 | on success the absolute counts sum to exactly 2^tableLog, and the header lies inside the input |
| NCount.ReadCount | src/zstd/common/entropy_common.c:129-148 | the loop that narrows threshold and nbBits leaves them at the width of what remains |
| NCount.ReadZeros | src/zstd/common/entropy_common.c:101-128 | the run of zeros, its flags and its reload |
| NCount.Read | src/zstd/common/entropy_common.c:61-165 | the loops over variables and the output array compute the header's meaning, errors included, also for inputs shorter than four bytes |
| NCount.Prepare | src/zstd/common/fse_decompress.c:277-296 | reading the counts and building the table: building never fails after reading succeeded within maxLog |
| NCountWriter.CountReads | src/zstd/common/entropy_common.c:129-148 | the code that section 4.1.1 of RFC 8878 writes for a count is read as that count, in as many bits, whatever follows |
| NCountWriter.HeaderReadBack | src/zstd/common/entropy_common.c:61-165 | every list of counts that fills the table is read back, with its log and its length, from the header written for it, with a byte behind it |
| NCountWriter.ReadWritten | src/zstd/common/entropy_common.c:61-165 | the reader's loops do the same with the output array |
| NCountPlain.AgreesWithPlain | src/zstd/common/entropy_common.c:61-165 | with a byte behind the header the buffered reader and a reader bit by bit accept the same, with the same counts and length |
| NCountMisread.MisreadAtTheEnd | src/zstd/common/entropy_common.c:103-119 | an input of six bytes that is accepted with one zero too few |
| NCountMisread.OneByteBehind | src/zstd/common/entropy_common.c:61-165 | every header with k bytes behind it is read as it spells, if and only if k is at least 1 |
| BitStream.CStream.constructor | src/zstd/common/bitstream.h:199-210 | an empty stream over the buffer |
| BitStream.CStream.AddBits | src/zstd/common/bitstream.h:214-223 | the value joins the bits above those already there |
| BitStream.CStream.AddBitsFast | src/zstd/common/bitstream.h:227-233 | likewise for a value that fits |
| BitStream.CStream.FlushBits | src/zstd/common/bitstream.h:255-264 | flushing keeps the number that the stream stands for, and stays in the buffer |
| BitStream.CStream.Close | src/zstd/common/bitstream.h:269-275 | the buffer holds the bits and the end mark, or 0 says that it is too small, exactly when it is |
| BitStream.DStream.Init | src/zstd/common/bitstream.h:287-333 | the unread bits are those below the end mark, for short inputs too; a missing mark is an error |
| BitStream.DStream.LookBits | src/zstd/common/bitstream.h:367-374 | the topmost unread bits, 0 of them included |
| BitStream.DStream.LookBitsFast | src/zstd/common/bitstream.h:379-384 | likewise for at least one bit |
| BitStream.DStream.ReadBits | src/zstd/common/bitstream.h:395-400 | the topmost unread bits, which are then read |
| BitStream.DStream.Reload | src/zstd/common/bitstream.h:417-444 | reloading keeps the unread bits and makes room where bytes are left; the status says which |
| BitStream.DStream.EndOfDStream | src/zstd/common/bitstream.h:449-452 | true exactly when nothing is unread |
| BitStream.ReadsBack | src/zstd/common/bitstream.h:199-452 | reading the packed fields from the top gives them in reverse order |
| BitStream.Encode | src/zstd/common/bitstream.h:199-275 | any legal sequence of additions and flushes, closed, leaves the bytes of the packed fields with the end mark |
| BitStream.Decode | src/zstd/common/bitstream.h:287-452 | any legal sequence of reads and reloads gives the fields of the stream's number from the top, and ends where all is read |
| BitStream.RoundTrip | src/zstd/common/bitstream.h:199-452 | what was added is read back in reverse order, with any legal flushing and reloading, and the stream ends exactly then |
| BitStream.EachReloadedIsLegal | src/zstd/common/bitstream.h:417-444 | reading with a reload before each field of at most 57 bits is always legal |
| FseDState.DState.constructor | src/zstd/common/fse.h:597-604 | the first state is the topmost tableLog bits |
| FseDState.DState.DecodeSymbol | src/zstd/common/fse.h:620-628 | the symbol of the state, and the state its bits lead to |
| FseDState.DState.DecodeSymbolFast | src/zstd/common/fse.h:630-642 | the same for a cell that reads at least one bit |
| FseDState.DecodeRun | src/zstd/common/fse.h:597-647 | decoding a run, in the normal or the fast form, gives the symbols and the state that its bit fields stand for, and uses up the stream |
| FseDState.Decompress | src/zstd/common/fse.h:597-647 | opening a closed stream and decoding with the form the table chooses gives the encoded symbols and ends the stream |
| FseDState.EveryTextHasStream | src/zstd/common/fse.h:597-647 | for every sequence of symbols that are present there is a closed stream that stands for it |
| FseDState.DecompressText | src/zstd/common/fse.h:597-647 | and decoding that stream gives the sequence back |
| XxHash.OneShot | src/zstd/common/xxhash.c:344-398 | the one-shot loops compute the hash as it is defined over blocks and the rest |
| XxHash.HashState.Reset | src/zstd/common/xxhash.c:567-590 | a state that has seen nothing |
| XxHash.HashState.Update | src/zstd/common/xxhash.c:593-649 | the state stands for the input seen before and this one, whatever was buffered; large_len says whether a block was seen |
| XxHash.HashState.Digest | src/zstd/common/xxhash.c:663-696 | the hash of everything seen |
| XxHash.FoldAppend | src/zstd/common/xxhash.c:593-649 | the accumulators after two inputs are those after the rest of the first and the second |
| XxHash.Streamed | src/zstd/common/xxhash.c:713-829 | every way of cutting an input into updates gives the hash of the whole |
| XxRounds.BothSound | src/zstd/common/xxhash.c:344-510 | the rounds of XXH32 and XXH64 are such rounds |
| XxFormulas.RotlIs | src/zstd/common/xxhash.c:208-209 | a rotation puts the part that leaves at the top below the rest |
| XxFormulas.Mixing32Is | src/zstd/common/xxhash.c:336-388 | round, word and byte steps of XXH32 in arithmetic, with the primes in hexadecimal |
| XxFormulas.Merge32Is | src/zstd/common/xxhash.c:372 | the lanes turned by 1, 7, 12 and 18 bits and added up |
| XxFormulas.Avalanche32Is | src/zstd/common/xxhash.c:391-397 | three times the upper bits are added to the lower ones, at 15, 13 and 16 |
| XxFormulas.Mixing64Is | src/zstd/common/xxhash.c:428-500 | word, half-word and byte steps of XXH64 in arithmetic, with the primes in hexadecimal |
| XxFormulas.Avalanche64Is | src/zstd/common/xxhash.c:503-507 | likewise at 33, 29 and 32 |
| XxRounds.Forms32 | src/zstd/common/xxhash.c:401-436 | for XXH32 the streamed and the one-shot hash are equal for every seed and cutting |
| XxRounds.Forms64 | src/zstd/common/xxhash.c:513-537 | for XXH64 likewise, for inputs below 2^64 bytes |
| WebSocket.WsParser.Execute | src/lib/websocket_parser.c:53-171 | the loop leads to the state and the frames of reading the bytes one by one, with frame_offset kept as the distance into the data, and consumes all, if and only if no sum of an address and the rest of a body wraps |
| WebSocket.ExecuteAll | src/lib/websocket_parser.c:53-171 | a split of a stream into calls gives the frames of reading it byte by byte if and only if no sum wraps, and then the same final state |
| WebSocket.WholeFramesAreStraight | src/lib/websocket_parser.c:142-148 | none wraps in data that do not end within a body |
| WebSocket.ShortLengthsAreStraight | src/lib/websocket_parser.c:142-148 | nor for lengths of at most 2^63 in the lower half of the addresses |
| WebSocketRoundTrip.FrameIsStraight | src/lib/websocket_parser.c:101-148 | for a frame whose data have begun: none wraps if and only if the address at which it says to end is below 2^64 |
| WebSocketRoundTrip.LongestLengthWraps | src/lib/websocket_parser.c:101-148 | an input of eleven bytes for which it does, at every address |
| WebSocket.RunFits | src/lib/websocket_parser.c:143-164 | however a stream read byte by byte goes on, lengths stay below 2^64 and the pieces of each payload tile it: none is out of place |
| WebSocket.RunBody | src/lib/websocket_parser.c:143-164 | a piece of a body delivered in one go is that piece delivered byte by byte |
| WebSocketFrame.UnmaskPieces | src/lib/websocket_parser.c:173-189 | unmasking two pieces with the carried mask offset is unmasking them in one go |
| WebSocketFrame.UnmaskTwice | src/lib/websocket_parser.c:182-189 | masking undoes itself |
| WebSocketFrame.Decode | src/lib/websocket_parser.c:182-189 | the loop over the bytes unmasks, and gives the offset to carry |
| WebSocketFrame.ParserDecode | src/lib/websocket_parser.c:173-180 | the parser's form carries it in its field |
| WebSocketFrame.DecodePieces | src/lib/websocket_parser.c:173-180 | a payload decoded piece by piece is the payload decoded whole |
| WebSocketWire.UnmaskBits | src/lib/websocket_parser.c:182-189 | bit n of byte i is turned exactly where bit n of mask byte (i + offset) modulo 4 is set |
| WebSocketWire.MaskedHello | src/lib/websocket_parser.c:182-189 | the masked frame of section 5.7 of RFC 6455 says Hello |
| WebSocketFrame.SizeIsExact | src/lib/websocket_parser.c:191-205 | the computed size is the size of the built frame |
| WebSocketFrame.BuildFrame | src/lib/websocket_parser.c:207-249 | the builder writes exactly the frame, for all three encodings of the length, masked or not |
| WebSocketWire.BuiltIsWire | src/lib/websocket_parser.c:207-249 | a built frame is laid out byte by byte as section 5.2 of RFC 6455 says: FIN, opcode, mask bit, the three forms of the length with the high byte first, mask, payload |
| WebSocketWire.WireReads | src/lib/websocket_parser.c:53-171 | a frame laid out so is read as one frame with its opcode, FIN flag, mask and payload |
| WebSocketRoundTrip.ParsesBuilt | src/lib/websocket_parser.c:53-249 | parsing a built frame gives one frame with its opcode, FIN flag and mask flag, whose payload unmasked is the data, and ends in the start state |
| WebSocketRoundTrip.BuildAndParse | src/lib/websocket_parser.c:53-249 | the same of the methods, with the frame fed in two pieces cut anywhere |
| HttpBody.HttpParser.Execute | src/lib/http_parser.c:1837-2007 | one call leads to the state of reading the bytes one by one, and says how many it took and which body bytes it left undelivered |
| HttpBody.ExecuteAll | src/lib/http_parser.c:1837-2036 | every split of a body into calls leads to the same state, and what is delivered and what is lost make up the body; nothing is lost unless the byte behind a chunk's data was wrong |
| HttpSplits.SplitsAgreeExactly | src/lib/http_parser.c:1964-1993 | all splits of a stream deliver the same bytes, if and only if no chunk with data in the stream is followed by a byte other than CR |
| HttpSplits.WhatIsLost | src/lib/http_parser.c:1964-1993 | otherwise the bytes of that chunk are lost that came in the same call as the wrong byte, and no others |
| HttpBody.LossDependsOnSplit | src/lib/http_parser.c:1989-1999 | in that case what is delivered does depend on the split |
| HttpBody.StepInv | src/lib/http_parser.c:1889-2007 | the chunk size never wraps nor reaches ULLONG_MAX, and the asserts on nread and content_length hold |
| HttpBody.RunInv | src/lib/http_parser.c:1889-2007 | likewise after any bytes |
| HttpBody.RunData | src/lib/http_parser.c:1964-1985 | taking a piece of body data at once is taking it byte by byte |
| HttpChunks.DecodesChunks | src/lib/http_parser.c:1889-2007 | reading an encoded chunked body gives the payloads one after the other and ends the message |
| HttpChunks.ParseChunked | src/lib/http_parser.c:1889-2036 | the same of the parser, for every split, with the callbacks in their order |
| HttpChunks.ParseIdentity | src/lib/http_parser.c:1837-1871 | a body of known length is delivered as it is, for every split, and ends the message |
| HttpChunks.RunChunk | src/lib/http_parser.c:1889-2007 | one chunk, with size, extension, data and line break |
| HttpChunks.UnhexIs | src/lib/http_parser.c:220-230 | byte n of "0123456789abcdef" or "0123456789ABCDEF" has the value n, and every other byte -1 |
| HttpExact.EndsExactly | src/lib/http_parser.c:1889-2036 | a chunked message ends with a byte if and only if the bytes up to it are chunks with their sizes in hexadecimal and their extensions, a chunk of size zero, and an empty line, of which the carriage return may be missing |
| JsonValues.DumpTo | src/lib/json11.cpp:53-138 | the overloads of dump append the printed value |
| JsonValues.DumpTextTo | src/lib/json11.cpp:77-112 | the loop over a string escapes what must be, the two separators in UTF-8 included |
| JsonTables.DumpByteIs | src/lib/json11.cpp:77-97 | quote, backslash and the five control characters with a letter are printed with it, the other control characters by four hexadecimal digits, and every other byte as it is |
| JsonTables.SeparatorPrinted | src/lib/json11.cpp:98-105 | U+2028 and U+2029 are printed by their numbers |
| JsonTables.BytePrinted | src/lib/json11.cpp:98-108 | and nothing else is |
| JsonTables.DumpArrayIs | src/lib/json11.cpp:114-124 | one item more is a comma, a space and the item before the bracket |
| JsonTables.DumpObjectIs | src/lib/json11.cpp:126-138 | one field more likewise, with a colon and a space behind its key |
| JsonParsing.JsonParser.ParseString | src/lib/json11.cpp:480-566 | the loop over a string reads what the grammar says, or fails exactly when that says so |
| JsonParsing.JsonParser.ParseNumber | src/lib/json11.cpp:573-622 | likewise for a number |
| JsonParsing.JsonParser.ConsumeGarbage | src/lib/json11.cpp:377-440 | likewise for blanks and, if allowed, comments; which bytes these are is `JsonExact.GarbageIs` and `JsonAccepts.GapSkipped` |
| JsonParsing.JsonParser.ParseArray | src/lib/json11.cpp:703-725 | likewise for an array, also when it is called again after a failed token |
| JsonParsing.JsonParser.ParseObject | src/lib/json11.cpp:670-701 | likewise for an object, with a repeated key overwritten |
| JsonParsing.JsonParser.ParseJson | src/lib/json11.cpp:644-729 | likewise for any value, down to the depth limit |
| JsonParsing.Parse | src/lib/json11.cpp:732-744 | the parser as a whole gives what the grammar says: one value and nothing behind it; which texts these are is `JsonExact.ParsesExactly` |
| JsonExact.ParsesExactly | src/lib/json11.cpp:377-744 | a text is accepted with a value if and only if it is laid out as RFC 8259 says, with json11's comments between tokens if these are allowed, holds no more than 200 arrays and objects around a value, and says that value |
| JsonAccepts.TextRead | src/lib/json11.cpp:377-744 | one direction, and its limit: a text laid out so is accepted exactly when no more than 200 stand around a value |
| JsonExact.GarbageIs | src/lib/json11.cpp:377-380 | without comments just the bytes 32, 9, 10 and 13 are passed over, and all of them |
| JsonAccepts.GapSkipped | src/lib/json11.cpp:386-429 | any blanks and comments between tokens are passed over, line comments up to the line feed or the end and blocks up to their end |
| JsonAccepts.CharsRead | src/lib/json11.cpp:480-566 | raw bytes, the eight short escapes and hexadecimal escapes with digits of either case, in any order, come out as the string says, two halves of a surrogate pair as one code point |
| JsonAccepts.NumberRead | src/lib/json11.cpp:573-622 | every sign, whole part, fraction and exponent are read to their end; without fraction and exponent nine bytes are an int |
| JsonExact.DumpConforms | src/lib/json11.cpp:53-138 | what is printed is a text of RFC 8259 without comments that says an equal value |
| JsonTables.AssignIs | src/lib/json11.cpp:688 | an assignment keeps the entries in the order of their keys and changes what its key is mapped to and nothing else |
| JsonTables.MembersAreMap | src/lib/json11.cpp:670-701 | an object maps every key to the value of the last member that has it |
| JsonTables.BeforeIs | src/lib/json11.cpp:670 | keys are ordered by the first byte in which they differ, or the shorter one first |
| JsonParsing.ParseDumped | src/lib/json11.cpp:53-744 | printing and parsing: succeeds exactly when no node lies deeper than 200, and then gives an equal value |
| JsonRoundTrip.ParseOfDump | src/lib/json11.cpp:53-744 | parsing what is printed succeeds, uses up the text and gives an equal value, whether or not comments are allowed |
| JsonRoundTrip.ValueReads | src/lib/json11.cpp:644-729 | a printed value is read back wherever the text leads to it |
| JsonRoundTrip.BytesRead | src/lib/json11.cpp:480-566 | any bytes printed as a string are read back as those bytes |
| JsonRoundTrip.NumberReads | src/lib/json11.cpp:573-622 | every printed int is read back, those of more than nine characters by their literal |
| JsonRoundTrip.RereadEqual | src/lib/json11.cpp:162-188 | what is read back is equal to what was printed |
| JsonDepth.ParsesWithinDepth | src/lib/json11.cpp:644-647 | a printed value is read back if and only if no node is deeper than the limit |
| JsonEscapes.EscapesRead | src/lib/json11.cpp:455-566 | code points escaped in any order come out as their UTF-8, pairs joined and single ones let go in time |
| JsonTables.EncodeUtf8Is | src/lib/json11.cpp:455-474 | the number of bytes, the marks and the bits of a code point are those of section 3 of RFC 3629 |
| JobPool.Pool.Look | src/zstd/common/pool.c:67-92 | a worker gets the oldest waiting job, unless there is none or the limit of busy workers is reached, and returns once the pool is shut down and nothing is left for it |
| JobPool.Pool.AddInternal | src/zstd/common/pool.c:250-260 | the job is put behind those waiting, or dropped by a pool that is shut down |
| JobPool.Pool.Add | src/zstd/common/pool.c:262-273 | waits while the queue is full, and then adds |
| JobPool.Pool.TryAdd | src/zstd/common/pool.c:275-286 | adds unless the queue is full; success is reported also where the job is dropped |
| JobPool.Pool.Resize | src/zstd/common/pool.c:194-238 | threads are only added, the limit is changed, and nothing waiting is touched |
| JobPool.Pool.FullMeansNoRoom | src/zstd/common/pool.c:240-248 | a ring of more than one slot is full exactly if one slot is left; a ring of one slot, if its job waits or the number of busy threads equals the limit |
| JobPool.Pool.RoomMeansFreeThread | src/zstd/common/pool.c:236-248 | that there is a thread free where a ring of one slot is not full, holds if and only if no more threads are busy than the limit |
| JobPool.LowerTheLimit | src/zstd/common/pool.c:194-248 | lowering the limit leads to a state in which more are, and the queue is not full |
| JobPool.Pool.EmptyFlag | src/zstd/common/pool.c:70-90 | queueEmpty is true exactly when nothing waits, for every size |
| JobPool.Pool.FifoOnce | src/zstd/common/pool.c:67-106 | the jobs started are the first of those accepted, in order and once each, and the rest are exactly those waiting |
| JobPool.Pool.JoinedMeansDone | src/zstd/common/pool.c:157-170 | once shut down with all threads returned, every accepted job was started and nobody is counted busy |
| JobPool.Pool.Run | src/zstd/common/pool.c:67-286 | any schedule of workers, adders, resizers and the joining thread keeps the invariant, and accepts nothing after the shutdown |
| JobPool.NextIsRemainder | src/zstd/common/pool.c:83 | the next slot of the ring is the remainder by its size |
| SortOrder.CompareStrings | src/lib/cJSON_Utils.c:73-99 | the loop computes the difference of the first bytes that differ once lower-cased, and 1 where a key is missing |
| SortOrder.LowerIs | src/lib/cJSON_Utils.c:90-98 | byte n of "A..Z" becomes byte n of "a..z", and every other byte stays |
| SortOrder.DifferenceOrders | src/lib/cJSON_Utils.c:73-99 | its sign is the dictionary order, and 0 means equal |
| SortList.Sort | src/lib/cJSON_Utils.c:460-568 | relinks the nodes of the list, and no others, into the sorted chain, with next and prev right for every node but the head's prev; it ends |
| SortList.Merge | src/lib/cJSON_Utils.c:507-565 | merges two chains in place |
| SortList.FindMiddle | src/lib/cJSON_Utils.c:485-497 | the two walking pointers find the start of the second half |
| SortList.Split | src/lib/cJSON_Utils.c:498-502 | cutting before it leaves two lists |
| SortMerge.SortedKeeps | src/lib/cJSON_Utils.c:460-568 | the result consists of exactly the same nodes, in either mode, with or without keys |
| SortMerge.SortedInOrder | src/lib/cJSON_Utils.c:460-568 | without regard to case it is in the order of the lower-cased keys |
| SortCase.SortsByCaseExactly | src/lib/cJSON_Utils.c:460-568 | with regard to case every list with keys from a set comes out in order, if and only if of any two keys of the set the smaller is also the smaller without regard to case |
| SortCase.CaseSensitiveOrder | src/lib/cJSON_Utils.c:460-568 | for such keys both modes give the same |
| SortCase.CaseSensitiveOrderFails | src/lib/cJSON_Utils.c:513 | "a" and "B" are left in that order |
| LruCache.Cache.Insert | inc/mongols/lib/LRUCache11.hpp:115-127 | a new or updated entry comes first, the others keep their order, and what is beyond the bound is dropped |
| LruCache.Cache.TryGet | inc/mongols/lib/LRUCache11.hpp:128-137 | finds the entry and makes it the first |
| LruCache.Cache.Get | inc/mongols/lib/LRUCache11.hpp:142-150 | likewise, or reports that there is none |
| LruCache.Cache.Remove | inc/mongols/lib/LRUCache11.hpp:157-166 | removes the entry from index and list |
| LruCache.Cache.Contains | inc/mongols/lib/LRUCache11.hpp:167-170 | says whether there is an entry, and moves nothing |
| LruCache.Cache.Clear | inc/mongols/lib/LRUCache11.hpp:110-114 | leaves nothing |
| LruCache.Cache.Prune | inc/mongols/lib/LRUCache11.hpp:182-194 | from maxSize + elasticity on only the first maxSize entries stay; nothing is dropped below that or when maxSize is 0 |
| LruReference.RunsAgree | inc/mongols/lib/LRUCache11.hpp:110-194 | over every sequence of operations the list is the map of time stamps in the order of last use |
| LruReference.LookupsAgree | inc/mongols/lib/LRUCache11.hpp:128-150 | every lookup gives the value last stored that is still cached |
| LruReference.AgreesEvict | inc/mongols/lib/LRUCache11.hpp:182-194 | what is evicted are exactly the least recently used keys |
| LruReference.SizeIsBounded | inc/mongols/lib/LRUCache11.hpp:182-194 | a bounded cache holds at most maxSize keys, or maxSize + elasticity - 1 if elasticity is not 0 |

## Left out

- Sockets, epoll, redis, curl, shared-library modules, OpenSSL digests, regular expressions, URL and header parsing, file uploads: input, output and libraries that are not visible.
- Weak memory ordering: the lock-free protocols take sequentially consistent steps, in the order overcommit snapshot, ticket, tail reload.
- Index wrap-around in the queue: indices are unbounded; `CircularOrder` treats the comparison and `LookupInWord` the lookup on words.
- Allocation failure inside the lock-free protocols except where an insertion is given up or taken back, exceptions of element types, move and swap, and the recycling of producers.
- Passing a block to and from the free list is one step of the block queue; `FreeList` has the steps. Blocks that other producers take and return are events that take from and add to the blocks to be had.
- The chain of blocks by which the producer reaches the block of the index it constructs: the model gives it the block in use for that index. Moving one element out of its slot is one step.
- Bulk requests for no elements at all: a claim of nothing is not granted any blocks.
- The explicit producer's block list, the producer hash and the token rotation of the queue.
- What happens to the elements in the explicit producer's blocks; the contents are those of the implicit producer.
- The spinning phase of the semaphore's waits is a number of attempts; how long it spins and how long a timeout lasts is not modelled.
- FseTable.DTable.BuildDTable: asks for no more symbols of probability below one than cells, as the source writes outside the table otherwise, and for tableLog of at least 1. Where the table is wrong it may shift by more than the word, or use a cell that was never written; that is reported as undefined.
- Tables of more than 2^12 cells: the table builder rejects them.
- FSE_decompress_usingDTable, which interleaves two decoder states over one stream, and the raw and run-length tables; `FseDState` decodes with one state.
- The encoder's table: its builder is not part of this model; that encoding is possible and unique is stated on the decoding table.
- BitStream.CStream.FlushBits: the unchecked BIT_flushBitsFast is not modelled.
- XxHash.Streamed: for XXH64 the length counter has 64 bits, so inputs of 2^64 bytes and more are excluded; the endianness and alignment variants and null inputs are left out.
- Callbacks that return something other than 0 in the websocket and HTTP parsers. The HTTP parser takes at most what remains of the data, so that no sum wraps there.
- WebSocket.WsParser.Execute: where a sum wraps, the model ends with the call that tells of data that are not there, and with the position moved back; what is read again from there is not modelled.
- HttpBody.HttpParser.Execute: stops where a trailer with fields begins and at the end of a message; header states, pausing and upgrades are not modelled. An empty call means the end of the connection, so the pieces of a split are not empty; among header lines its effect is not specified. Strict parsing, the default, is modelled.
- HttpChunks.ParseIdentity: a body of length 0 has no body state in the source.
- Floating point in json11: a number the parser does not read as an int is kept as its literal, and a printed double is not modelled. Error messages, parse_multi and shape checks are left out.
- JSON Pointer, patches and the other uses of the sorted list in cJSON_Utils.
- SortList.Sort: the previous pointer of the head is not specified, since the split does not reset it; keys are constants of their nodes.
- That a waiting worker or adder of the job pool is woken: a wait is a method that may find its condition false and be called again, so fairness and signals of the condition variables are not modelled.
- The lock, the walk and the size accessors of the LRU cache, and exceptions of its key type.
