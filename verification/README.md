# LibMagelessChain: a verified model of its storage and block-building engine

The project models the stateful core of LibMagelessChain in Dafny and proves what holds of it over whole
runs: the segment catalog with its concurrent background writers and unlocked readers, the block journal in
epoch files, the block builder, and the frontend that moves transactions between them.
`dafny verify dfyconfig.toml` checks everything.

## How it is organised

| file | what it holds |
|---|---|
| `Words.dfy`, `BTree.dfy` | machine words; the ordered-tree contract (`findNext` yields the least record at or after the cursor) |
| `CatalogFile.dfy` | segment keys and their order, the cursor walk `forEachSegment`, `openEntry`'s page arithmetic |
| `CatalogWrites.dfy` | `createEntry` split at its lock boundaries, any number of calls and read sessions overlapping |
| `Toc.dfy` | rows of the table of contents, pruning, the `rangeScan` loop |
| `CatalogProtocol.dfy` | the whole catalog as a step system: one caller, any number of tasks, scans, readers, handles, and restarts |
| `CatalogInvariants.dfy` | the invariant of that system and its preservation by every step |
| `CatalogReads.dfy` | completeness and soundness of the read path over runs |
| `CatalogExclusive.dfy` | one writer per file: the exact condition over runs |
| `CatalogInstances.dfy` | catalog runs that break what the comments promise: an id given out twice, a recorded file not listed |
| `FileCache.dfy` | the cache of open files: one live accessor per path |
| `Codec.dfy` | transaction bytes and the type registry; the test design's transaction as a lawful instance |
| `EpochFile.dfy`, `Backend.dfy` | the journal as a refinement of a sequence of blocks |
| `SharedCursor.dfy` | appends and reads of one epoch file from several threads, through the one cursor they share |
| `Timestamps.dfy`, `Pacing.dfy` | the time-window index; acceptance rules and the block rate they imply |
| `Builder.dfy` | greedy selection, in-place index sort, shift removal |
| `Frontend.dfy`, `FrontendObject.dfy` | the frontend's lock sections as steps, and as methods refining those steps |
| `SumIndex.dfy` | the test design's index: totals built on totals, what stale ones lose, the reader's loop |
| `SumChain.dfy` | sealing and interleaved index reads as steps over the catalog, and their invariant |
| `SumAgreement.dfy` | what reads answer in any run, when that is the fold of the journal, and the account of everything sent |
| `SumInstances.dfy` | a run that seals on stale totals |

## What is assumed of code that is not part of this model

- Trees are finite maps; what inserting an existing key does is left open (kept or replaced, either way).
- A free region is disjoint from every region handed out before; nothing in the modelled code frees one.
- A mapped file is as large as it needs to be, and bytes never written read as zero.
- The clock never goes back and starts positive; transactions, their scores and their state are arbitrary
  functions; the journal and mempool results ask of a codec only that it reads back what it wrote.
- The committed state that a build, a submission or a rebuild starts from is a parameter of that call;
  `SumAgreement.SentIsCommittedPlusPending` joins frontend, journal and index for the test design.
- The committed state is the same throughout one build; in the source a score may read the catalog, and so see a
  segment that lands meanwhile.
- Signed 32-bit sums wrap around, which the source's language leaves undefined.
- Payloads are shorter than 2^32 bytes, and a chain has fewer than 2^64 - 1 blocks.

## Where code and comments differ

The model follows the code.

- `successor` at the greatest key does not return it unchanged: it restarts at the beginning of the last index
  (`CatalogFile.SuccessorIsNextKey`).  Stored generations fit 16 bits, so a walk never gets there.
- `forEachSegment` is documented to visit every intersecting segment; it misses exactly those that begin before
  the range (`CatalogFile.WalkMissesEarlierStarts`, with an instance in `CatalogFile.WideSegmentMissed`).
- `openEntry` does not seek when the entry lies in the file's first page, so the view then starts at byte 0
  (`CatalogFile.ViewStartsAtEntry`).
- File ids are documented as not duplicated; a third allocation within one millisecond repeats an id
  (`CatalogInstances.RepeatedIdIsReachable`).  In every run, the busy set stays exact and files keep to one writer if
  and only if no segment is submitted to a file with a task in flight (`CatalogExclusive.ExclusiveIffNoDouble`).  With
  new ids past those of earlier processes, the first such submission comes from a new file asked for while the clock
  was behind the last id and that id's task in flight, and exactly if a task is still there
  (`CatalogExclusive.DoublesIffCollided`).
- A scan lists a file with a recorded matching segment if and only if the clock had reached its id when the scan
  began (`CatalogReads.RecordedFileIsListedIff`; a run that omits one is `CatalogInstances.UnreachedFileIsOmitted`).
- A block is sealed on two separate reads of the index, one for the sum and one for the count, and either may miss
  segments that have not landed.  Its totals are then wrong unless what was missed is zero in 32 bits
  (`SumAgreement.NextSealIsRightIff`, over runs `SumAgreement.RunSealsRightIff`, a run that goes wrong
  `SumInstances.StaleSealIsReachable`).
- Rejected blocks go to the end of the mempool, which puts every transaction back into its own position if and only
  if the block was the mempool's tail in order (`Frontend.RejectionRestoresIff`, an instance in
  `Frontend.RejectionReorders`).
- Nothing checks that a block's offset fits 32 bits; blocks are written clear of the header and of each other if and
  only if all offsets do (`EpochFile.LayoutIsSafeIff`).  Chains that do not are accepted: an epoch of blocks of 1024
  transactions of 60 bytes (`Backend.OverflowIsReachable`).
- Appends and reads of an epoch file share one cursor and no lock.  Operations whose steps are in turn are right
  (`SharedCursor.ReadsInTurnAreRight`, `SharedCursor.AppendsInTurnAreStored`); a read that cuts in on an append
  always displaces it (`SharedCursor.AppendIsInPlaceIff`) and can overwrite an earlier block
  (`SharedCursor.CutInAppendOverwrites`).  The other journal results take operations one at a time.
- The 32-bit throughput target reaches the builder as a 16-bit limit, which is the target if and only if that is
  below 65536; a multiple of 65536 builds nothing (`FrontendObject.LimitIsTargetIff`).

## Model

| member | source | states |
|---|---|---|
| `CatalogFile.CompareIsRankOrder` | src/storage/CatalogFile.h:65-73 | the key comparison is the numeric order of a 112-bit rank, and distinct keys never compare equal |
| `CatalogFile.SuccessorIsNextKey` | src/storage/CatalogFile.h:86-93 | the successor is the very next key if and only if the key is not the greatest one |
| `CatalogFile.ForEachSegment` | src/storage/CatalogFile.cpp:56-70 | the cursor loop terminates and reports exactly the entries of the index that start in the range and end at or after its beginning, once each, in key order |
| `CatalogFile.WalkIsUnique` | src/storage/CatalogFile.cpp:56-70 | that description determines the result: any two walks agree entry by entry |
| `CatalogFile.WalkMissesEarlierStarts` | src/storage/CatalogFile.h:106-112 | of the entries that intersect the range, a walk reports exactly those that do not begin before it |
| `CatalogFile.OneBlockHitsAreOverlaps` | src/blockchain/BlockchainBackend.cpp:182-187 | for one-block segments a walk reports exactly the half-open overlaps |
| `CatalogFile.ViewStartsAtEntry` | src/storage/CatalogFile.cpp:48-54 | an entry view starts at the entry if and only if the entry is at offset 0 or past the first page |
| `CatalogWrites.StepKeepsInv` | src/storage/CatalogFile.cpp:81-116 | every phase of every overlapping createEntry keeps regions disjoint, written bytes in place and index entries backed by finished calls |
| `CatalogWrites.VisibleEntriesAreComplete` | src/storage/CatalogFile.cpp:96-115 | an entry visible in the index always points at the complete payload of a finished call with that key |
| `CatalogWrites.ReadersSeeAStableFile` | src/storage/CatalogFile.h:129-136 | while a read session is open no step changes the index or a byte it points at |
| `CatalogWrites.SoleWriterIsIndexed` | src/storage/CatalogFile.cpp:104-115 | a finished call whose key nobody else used is what the index holds |
| `CatalogWrites.StepsOnlyAdd` | src/storage/CatalogFile.cpp:81-116 | index keys and finished calls are never lost |
| `Toc.BloomBits` | src/storage/Catalog.cpp:32-42 | a hash sets at least one and only bits below 256 |
| `Toc.RangeScan` | src/storage/Catalog.cpp:130-145 | the scan loop terminates and lists, newest first and once each, exactly the files at or below the clock whose row has all the index's bloom bits and a block range that meets the query |
| `Toc.ScanEndsIff` | src/storage/Catalog.cpp:136-142 | the scan loop ends if and only if no file has id 0, below which the unsigned cursor wraps to the top |
| `CatalogInvariants.AbsorbExtendsSummary` | src/storage/Catalog.cpp:111-118 | one read-modify-write under the table lock extends a row's summary by exactly that write |
| `CatalogInvariants.RowsKept` | src/storage/Catalog.cpp:107-118 | each row stays exactly the least start, greatest end, union of bloom bits and count of its file's recorded writes, whatever stale copies tasks captured |
| `CatalogInvariants.TocWidens` | src/storage/Catalog.cpp:111-118 | rows are never removed and only widen |
| `CatalogInvariants.CacheKept` | src/storage/Catalog.cpp:96-127 | whoever holds an accessor holds the cached one of its file |
| `CatalogInvariants.ScanStepKeeps` | src/storage/Catalog.cpp:137-142 | one turn of an unlocked scan keeps what it listed right and lowers the cursor or ends |
| `CatalogInvariants.StepKeepsInv` | src/storage/Catalog.cpp:96-196 | every step of the catalog keeps the whole invariant |
| `CatalogInvariants.RunKeepsInv` | src/storage/Catalog.cpp:96-196 | every state of every run, across restarts, satisfies the invariant |
| `CatalogReads.RunGrows` | src/storage/Catalog.cpp:107-127 | over a run tasks, index keys and rows are only added, recorded stays recorded, rows widen |
| `CatalogReads.ScanIsCompleteAndSound` | src/storage/Catalog.cpp:130-145 | an unlocked scan among writers lists distinct files newest first; every file whose recorded writes gave no reason to prune it when it began, and only files whose recorded writes give none when it ends: a start at or before the range's end, an end at or after its beginning, and every bloom bit of the index; within clock + 1 turns |
| `CatalogReads.MatchesIffWorthwhile` | src/storage/Catalog.cpp:138-139 | pruning by the table's row is pruning by the file's recorded writes, in both directions |
| `CatalogReads.RecordedFileIsListedIff` | src/storage/Catalog.cpp:136 | of the files that hold a recorded segment meeting the query, a finished scan lists exactly those whose id the clock had reached |
| `CatalogReads.NewFileIsListed` | src/storage/Catalog.cpp:189-195 | a new file chosen while the clock is past the last id takes the clock as its id, and a scan begun once a matching segment is recorded there lists it |
| `CatalogReads.RecordedFilesMatch` | src/storage/Catalog.cpp:114-116 | bloom bits and block range never prune away a file that has a recorded segment answering the query |
| `CatalogReads.RecordedSegmentsAreRead` | src/storage/Catalog.cpp:96-145 | a segment recorded before a scan begins, in a file the clock has reached, is listed; its key is filed there and walked, and if written once under that key it is that very segment with its exact bytes |
| `CatalogReads.ReadsAreSound` | src/storage/CatalogFile.cpp:56-70 | whatever a walk reports was written to that file for that index, lies in range, and has the bytes written |
| `CatalogReads.SessionsSeeOneFile` | src/storage/CatalogFile.h:129-136 | from opening to closing a read session sees one unchanging index and payload |
| `CatalogExclusive.OneWriterPerFile` | src/storage/Catalog.cpp:96-127 | in paced runs the busy set is exactly the accessors with a task in flight, no file has two, and none has one when the caller chooses it |
| `CatalogExclusive.NewFileIsBusyIff` | src/storage/Catalog.cpp:189-193 | a new file is already being written if and only if the clock is behind the last id and that file's task is still in flight |
| `CatalogExclusive.StepKeepsExclusiveIff` | src/storage/Catalog.cpp:96-127 | a step keeps the busy set exact and files to one task if and only if it does not submit to a file that has one |
| `CatalogExclusive.ExclusiveIffNoDouble` | src/storage/Catalog.cpp:96-127 | for every run, the busy set is exact and no file has two tasks throughout if and only if no segment is submitted to a file that has one |
| `CatalogExclusive.DoublesIffCollided` | src/storage/Catalog.cpp:174-196 | as long as none has, a submission doubles if and only if its file was chosen while the clock was behind the last id with that id's task in flight, and a task is still there |
| `CatalogExclusive.ExclusiveIffNoCollision` | src/storage/Catalog.cpp:174-196 | from clock to choice: with new ids past those of earlier processes, one writer per file, counting the caller's chosen file as one more, holds throughout if and only if no choice collides |
| `CatalogInstances.RepeatedIdIsReachable` | src/storage/Catalog.cpp:189-195 | a run from the empty catalog in which two tasks write one file |
| `CatalogInstances.UnreachedFileIsOmitted` | src/storage/Catalog.cpp:136 | a run in which file 2 is recorded at clock 1 and a scan begun after that ends without listing it |
| `FileCache.FindVictim` | src/storage/CustomizableFileCache.h:91-108 | the loop picks the first dead descriptor, else the first least recently used idle entry, else none |
| `FileCache.Cache.AddRaw` | src/storage/CustomizableFileCache.h:84-121 | files the entry, evicts at most that victim and only when full, and grows only when everything is in use |
| `FileCache.Cache.Open` | src/storage/CustomizableFileCache.h:47-76 | refines the run's opening event: hit, miss and failed open with the whole new table, one reference more to the accessor handed out and to no other; one accessor per path survives exactly when nothing removed was in use |
| `FileCache.ReopenKeepsSole` | src/storage/CustomizableFileCache.h:60-75 | the exact condition for keeping one accessor per path, always met while descriptors stay live |
| `FileCache.InUseIffHeld` | src/storage/CustomizableFileCache.h:103-107 | an accessor counts as in use exactly while the opens that yielded it outnumber its drops |
| `FileCache.OneAccessorPerPath` | src/storage/CustomizableFileCache.h:47-76 | in every run of opens and drops with live descriptors, two opens of one path yielded the same accessor if clients have held both ever since, counting opens against drops |
| `FileCache.OpeningRefinesProtocol` | src/storage/CustomizableFileCache.h:47-121 | opening a path, hit or miss, is a step the catalog system's cache contract allows and leaves the table that contract says |
| `Codec.WordRoundTrip` | src/testutil/TestChainDesign.cpp:147-168 | little-endian words read back |
| `Codec.RunAt` | src/blockchain/TransactionTypeRegistry.cpp:25-32 | in a run of encoded transactions each read yields the next one and stops where it ended |
| `Codec.TestCodecIsLawful` | src/testutil/TestChainDesign.cpp:147-168 | the test transaction, read through its type byte, always reads back |
| `EpochFile.RegionsAreDisjoint` | src/storage/EpochFile.cpp:45-64 | blocks lie behind the 262160-byte header, in order, without overlap, each less than a page after the one before |
| `EpochFile.OffsetsAreAligned` | src/storage/EpochFile.cpp:59-63 | offsets are multiples of 4096, the first 266240, none below it |
| `EpochFile.SmallBlocksFit` | src/storage/EpochFile.h:31-42 | blocks of at most 61440 bytes never wrap a 32-bit offset over 65536 blocks |
| `EpochFile.TruncatedOffsetsCollide` | src/storage/EpochFile.cpp:59-63 | an offset that does not fit 32 bits is cut to one inside the header or inside an earlier block |
| `EpochFile.LayoutIsSafeIff` | src/storage/EpochFile.cpp:45-63 | the regions blocks are really written to are clear of the header and of each other if and only if all offsets fit 32 bits |
| `EpochFile.LargeBlocksOverflow` | src/storage/EpochFile.cpp:45-63 | a full epoch of blocks over 61440 bytes does not fit and overwrites its own header or blocks |
| `EpochFile.AppendKeepsIntact` | src/storage/EpochFile.cpp:45-64 | appending leaves every earlier block readable where it was and adds the new one |
| `EpochFile.EpochFile.AppendBlock` | src/storage/EpochFile.cpp:45-64 | the file holds one block more: at the offset the code records for it, truncated or not, and readable if offsets fit |
| `EpochFile.EpochFile.ReadBlock` | src/storage/EpochFile.cpp:66-79 | a stored block reads back exactly |
| `EpochFile.HeaderReadsBack` | src/storage/EpochFile.cpp:53-57 | a stored block's header gives its timestamp and its number of transactions, and the transactions follow it |
| `SharedCursor.RunKeepsInv` | src/storage/EpochFile.cpp:45-79 | over every interleaving of one append at a time with any number of reads: while appends are in turn the file holds the finished blocks and the written part of the next, and reads in turn have the right transactions so far |
| `SharedCursor.ReadsInTurnAreRight` | src/storage/EpochFile.cpp:66-79 | a read whose own steps were in turn returns its block, even if other reads were cut in on, as long as no append was |
| `SharedCursor.AppendsInTurnAreStored` | src/storage/EpochFile.cpp:45-64 | if no append was cut in on, every finished block is in place at every state, also during appends and reads |
| `SharedCursor.ReadingLeavesFile` | src/storage/EpochFile.cpp:66-79 | reads change no memory, offsets or blocks, in turn or not |
| `SharedCursor.AppendIsInPlaceIff` | src/storage/EpochFile.cpp:55-57 | an append's next step acts at its own place if and only if the append moved the cursor last, where the last mover was it or a good read |
| `SharedCursor.CutInAppendOverwrites` | src/storage/EpochFile.cpp:53-57 | a run in which a read between an append's seek and its write makes an earlier block read back as other transactions |
| `Backend.Backend.AddBlock` | src/blockchain/BlockchainBackend.cpp:109-168 | the chain grows by exactly this block or nothing changes; turned down if and only if it has other than 1024 transactions and is larger, or comes within 100 ms, or within ten minutes and sooner than throughput and block time allow, or after more than an hour with over 90 |
| `Backend.Backend.GetBlock` | src/blockchain/BlockchainBackend.cpp:192-202 | every block below the height reads back as accepted, across epochs; out of range if and only if not below it |
| `Backend.Backend.GetTransactionById` | src/blockchain/BlockchainFrontend.cpp:147-157 | the id of block n and position i resolves to that block's i-th transaction, or says that the block or the position does not exist |
| `Backend.Backend.GetTransactionsByTimeWindow` | src/blockchain/BlockchainBackend.cpp:204-217 | the transactions of exactly the blocks stamped within the window, in (timestamp, block) order, never out of range |
| `Backend.WindowIsFilteredChain` | src/blockchain/BlockchainBackend.cpp:204-217 | under a clock that never goes back this is the chain itself, filtered |
| `Backend.SmallBlocksFitTheirEpochs` | src/storage/EpochFile.cpp:45-64 | chains of blocks of at most 61440 bytes meet the journal's only size condition |
| `Backend.EpochFitsIff` | src/storage/EpochFile.cpp:45-63 | the size condition of read-back holds of an epoch if and only if its blocks were written apart |
| `Backend.FullChainsOverflow` | src/blockchain/BlockchainBackend.cpp:114-128 | chains of blocks of 1024 transactions of 60 bytes or more are accepted at any time, and no full epoch of them fits |
| `Backend.OverflowIsReachable` | src/storage/EpochFile.cpp:59-63 | one such transaction is enough for an accepted chain that overflows its epoch |
| `Backend.TestChainsFit` | src/testutil/TestChainDesign.cpp:147-156 | accepted chains of test transactions meet every condition of the journal results |
| `Timestamps.CompareIsOrder` | src/storage/BlockTimestampTracker.h:36-42 | stamps compare as 128-bit numbers |
| `Timestamps.SuccessorIsNext` | src/storage/BlockTimestampTracker.h:44-49 | the successor is the next stamp if and only if the stamp is not the greatest |
| `Timestamps.GetBlocksInWindow` | src/storage/BlockTimestampTracker.cpp:37-54 | the cursor loop terminates with exactly the stamps in the window, in order |
| `Pacing.SpacingIsBounded` | src/blockchain/BlockchainBackend.cpp:115-124 | the spacing never overflows, lies in [100, 600000] ms and does not increase with block size |
| `Pacing.AcceptsUnless` | src/blockchain/BlockchainBackend.cpp:109-128 | the acceptance rule written out in elapsed time, block size and configuration, also when the clock reading is behind the last block's |
| `Pacing.BlockRateIsBounded` | src/blockchain/BlockchainBackend.cpp:109-128 | a window of W ms holds at most W / 100 + 1 accepted blocks of other than 1024 transactions |
| `Pacing.AcceptedBlocksAreSmall` | src/blockchain/BlockchainBackend.cpp:125 | accepted blocks have at most 1024 transactions, so the 16-bit count is exact |
| `Builder.FindBest` | src/blockchain/MEVBuilder.cpp:38-55 | the inner loop finds the first highest-scoring unpicked transaction |
| `Builder.Select` | src/blockchain/MEVBuilder.cpp:32-66 | every pick is best and nonnegative against the state all earlier picks leave; short of the limit and of the pool, before the deadline, nothing left scores at least zero, and no pick follows a reading at or past the deadline |
| `Builder.GreedyIsDetermined` | src/blockchain/MEVBuilder.cpp:37-66 | of two greedy lists one continues the other |
| `Builder.SortDescending` | src/blockchain/MEVBuilder.cpp:78-91 | the in-place sort yields a descending permutation |
| `Builder.TxList.OrderedRemove` | src/blockchain/MEVBuilder.cpp:93-97 | shifting removes exactly one position |
| `Builder.TxList.RemoveAll` | src/blockchain/MEVBuilder.cpp:92-98 | removal in descending order leaves exactly the other elements in their order |
| `Builder.RemoveGreatest` | src/blockchain/MEVBuilder.cpp:75-77 | removing the greatest index first keeps the remaining indices valid |
| `Builder.PickingConserves` | src/blockchain/MEVBuilder.cpp:75-98 | what is kept and what was picked make up the original, with multiplicity |
| `Builder.TxList.BuildBlock` | src/blockchain/MEVBuilder.cpp:25-101 | the selection in execution order, the rest of the pool in its old order, nothing lost; before the deadline and short of the limit nothing worth taking stays in the pool, and no pick follows a reading at or past the deadline |
| `Frontend.LoadAfterSave` | src/blockchain/BlockchainFrontend.cpp:93-145 | saving and loading restores the mempool in order |
| `Frontend.ChunksLoad` | src/blockchain/BlockchainFrontend.cpp:133-144 | a file of encodings and unregistered type bytes loads exactly its transactions in order, and nothing if it is asked for more entries than it has |
| `Frontend.RunConserves` | src/blockchain/BlockchainFrontend.cpp:34-145 | in every run each sent transaction is, with multiplicity, in exactly one of mempool, in-flight list and journal, and the speculative state folds exactly mempool and in-flight |
| `Frontend.ReloadRestores` | src/blockchain/BlockchainFrontend.cpp:34-39 | a shutdown and reload brings back the mempool and refolds it in order |
| `Frontend.RejectionRestoresIff` | src/blockchain/BlockchainFrontend.cpp:75-82 | where each transaction of a rejected block goes, and that all return to their own positions if and only if the block was the mempool's tail, in order; if none is repeated, exactly then the mempool is as before |
| `Frontend.RejectionReorders` | src/blockchain/BlockchainFrontend.cpp:75-82 | a run in which two pending transactions change places when a block of the first is rejected |
| `Frontend.FoldIsExactAfterRebuild` | src/blockchain/BlockchainFrontend.cpp:47-55 | from a rebuild or reload to the next non-empty build the fold order is the mempool order |
| `Frontend.FoldOfPermutation` | src/blockchain/BlockchainFrontend.cpp:76-88 | for commuting transactions the fold does not depend on order |
| `Frontend.SpeculationIsMempoolFold` | src/blockchain/BlockchainFrontend.h:71-77 | for commuting transactions the speculative state is, at every state of every run, the mempool-order fold followed by the block in flight or just committed; without such a block, the mempool-order fold |
| `FrontendObject.SaveMempool` | src/blockchain/BlockchainFrontend.cpp:93-118 | the saving loop writes the count and the transactions in order |
| `FrontendObject.LoadMempool` | src/blockchain/BlockchainFrontend.cpp:120-145 | the loading loop reads them, skips unknown types, and fails when the data ends first |
| `FrontendObject.BlockchainFrontend.SendTransaction` | src/blockchain/BlockchainFrontend.cpp:41-45 | refines the send step |
| `FrontendObject.BlockchainFrontend.TakeBlock` | src/blockchain/BlockchainFrontend.cpp:65-71 | refines the build step with the builder's selection |
| `FrontendObject.LimitIsTargetIff` | src/blockchain/BlockchainFrontend.cpp:69 | the 16-bit limit is the target if and only if that is below 65536, never exceeds it, and builds nothing for multiples of 65536 |
| `FrontendObject.BlockchainFrontend.SubmitBlock` | src/blockchain/BlockchainFrontend.cpp:73-74 | refines the commit step exactly when the backend adds the block; frontend and backend agree on the journal |
| `FrontendObject.BlockchainFrontend.ReturnRejected` | src/blockchain/BlockchainFrontend.cpp:75-82 | refines the reject step |
| `FrontendObject.BlockchainFrontend.RebuildSpeculativeState` | src/blockchain/BlockchainFrontend.cpp:47-55 | refines the rebuild step: the state is the committed state with the mempool applied in order |
| `SumIndex.FoldIsSum` | src/testutil/TestChainDesign.cpp:121-127 | applying a block accumulates its sum and count: the signed 32-bit numbers that differ from them by multiples of 2^32 |
| `SumIndex.TestDesignCommutes` | src/testutil/TestChainDesign.cpp:121-127 | test transactions commute |
| `SumIndex.SealTells` | src/testutil/TestChainDesign.cpp:103-112 | what seal computes is what its block should get from the two reads it was made on |
| `SumIndex.RightIffNothingLost` | src/blockchain/BlockchainBackend.cpp:155-187 | a seal's number is the total in 32 bits if and only if everything passed over on the way to it is a multiple of 2^32 |
| `SumIndex.PayloadsAreRightIff` | src/blockchain/BlockchainBackend.cpp:155-187 | all payloads are the 32-bit totals if and only if no seal missed transactions whose sum or number is not a multiple of 2^32 |
| `SumIndex.ReadLatestSegment` | src/testutil/TestChainDesign.cpp:36-80 | of the entries of index 0 and version 1 with at least eight bytes, over the sessions it had, the reader's loop answers with one of the greatest end, then generation, or nothing if there is none |
| `SumChain.CandidatesAreBlocks` | src/testutil/TestChainDesign.cpp:54-72 | every entry a reader may consider is some block's own segment, with that block's payload |
| `SumChain.AnswerIsTold` | src/testutil/TestChainDesign.cpp:36-92 | a finished read answers with the payload of one seal, no older than any segment it was owed |
| `SumChain.ChainRunKeeps` | src/blockchain/BlockchainBackend.cpp:155-188 | over every run of seals, interleaved reads and background steps, each block has exactly the segment its two reads give it |
| `SumAgreement.ReadAnswersASeal` | src/testutil/TestChainDesign.cpp:36-92 | in any run a read, interleaved with writers and further blocks, answers with one seal's payload and misses no block recorded when it began |
| `SumAgreement.AnswerIsRightIff` | src/testutil/TestChainDesign.cpp:36-92 | that answer is the 32-bit total of the blocks it covers if and only if all its seal lost is a multiple of 2^32 |
| `SumAgreement.NextSealIsRightIff` | src/blockchain/BlockchainBackend.cpp:155-187 | on right payloads, the next one is right if and only if the blocks its reads had not seen sum, and number, to multiples of 2^32 |
| `SumAgreement.RunSealsRightIff` | src/blockchain/BlockchainBackend.cpp:155-187 | in every run all payloads are right if and only if no seal missed anything that is not zero in 32 bits |
| `SumAgreement.IndexAgreesWithJournal` | src/blockchain/BlockchainBackend.cpp:155-188 | if writes drain before each seal reads, every answer is the sum and number of the journal's transactions up to a block no older than any recorded when the read began: exactly while they fit 32 bits, and up to multiples of 2^32 always |
| `SumAgreement.LatestTotals` | src/testutil/TestChainDesign.cpp:82-92 | the reader's loop, run on the sessions of such a read, returns those totals |
| `SumAgreement.SentIsCommittedPlusPending` | src/blockchain/BlockchainFrontend.cpp:34-145 | what the index answers for the frontend's journal, plus the speculative changes, is the sum and number of everything clients ever sent: exactly while they fit 32 bits, and up to multiples of 2^32 always |
| `SumInstances.StaleSealIsReachable` | src/blockchain/BlockchainBackend.cpp:155-187 | a run that seals the second block before the first one's segment is recorded, with wrong totals |

## Left out

- The insides of the ordered tree, free-space file, hash map, shared pointers and thread pool: only their contracts above.
- The candidate score of `selectFileFor`, its limit of 16 candidates and the size cap: any file of the table that is not busy, or a new one, may be chosen.
- `deleteEntry`, compaction, tombstones and `mergeSegments`: nothing calls them.
- Failed file opens during `writeSegment` and the public `add` of the cache: the call throws, or nothing calls it.
- Checksums, syncing, crashes, directory creation, logging and sleeping; exceptions that escape the builder thread.
- The registries of indexes and overrides, and more than one index family when sealing: lookups by position.
- Mempool transactions in the frontend's time-window query.
- NaN scores: scores are real numbers.
- Epoch numbers beyond 2^32, which need 2^48 blocks.
- Backend.Backend.GetBlock: reading back asks that the blocks of the epoch fit 4 GiB, which the source does not check; EpochFitsIff says that is exactly when blocks do not overwrite each other, SmallBlocksFitTheirEpochs and TestChainsFit give chains that always do.  What a read returns after an overwrite is not modelled.
- SumAgreement.IndexAgreesWithJournal: asks, as all results over chain runs do, that entry views start at their entry, which openEntry misses inside a file's first page; where the free-space file places regions is not part of this model.
- FrontendObject.LoadMempool: a registered factory that returns nothing counts as a failed load, since how far it moved the cursor is not visible.
- CatalogReads.RecordedSegmentsAreRead: the bytes are claimed for keys written once per file, because the tree's behaviour on a repeated key is not visible; the backend seals each index once per block.
- FileCache.Cache.AddRaw: how far the hash map expands when full is not modelled, only that it does.
