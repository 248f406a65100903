# Frontier: a verified model of its indexes, block assembly and guards

Frontier runs Ethereum blocks inside Substrate blocks. This project models six of its components in Dafny and proves
properties of them over every input, every run or every reachable state. `dafny verify dfyconfig.toml` checks it all.

- **Digest logs and mapping sync** (`Consensus`, `HeaderTree`, `KvDb`, `MappingSync`, `RpcLookup`, `DigestToMapping`).
  Sync walks the block tree backwards from its leaves on a persisted stack of tips and fills the key-value mapping; RPC
  lookups read the mapping against whatever chain is best at that moment. Proved: the invariant of every run interleaved
  with imports, completion on a fixed chain exactly when no block is refused, the exact contents of the columns whatever
  commits fail or are cut off, exactly which blocks a crash between a call's two commits loses and which of them later
  imports recover, lookups that follow reorganisations without a write, and the path from the finalised (and sealed)
  digest to a lookup that names that very block.
- **Log filters** (`TopicFilter`, `Blooms`, `BloomFilter`, `SqlIndex`, `SqlQuery`). One topic filter is expanded to a
  cartesian product, matched directly, turned into blooms, and projected back to sets for a SQL query. Proved: exactly
  which filters the direct matcher and the SQL query get right, that the bloom prefilter never hides a log, that the
  canonical flags follow the best chain under any interleaving, and that an indexed query returns exactly a plain scan.
- **Block assembly** (`BlockAssembly`, `RevertData`): pending transactions, cumulative gas, block bloom, the block-hash
  window with its parent links, the digest log, and the event of each execution with its revert message.
- **Database migration** (`Migration`): the chunked rewrite from version 1 to 2, told apart by a SCALE decode. RocksDB
  resumes after any interruption; ParityDB does not, and the exact condition is proved.
- **Precompile nesting guard** (`PrecompileGuard`): recursion counters over every finite tree of nested calls.
- **Fees, validation, code cache** (`BaseFee`, `Validation`, `CodeCache`).

Storage, hashes and codecs are maps, identifiers and arbitrary functions passed as parameters: every statement holds for
any hash function, any choice of bloom bits and any client. Code that updates storage is a class whose methods are proved
against a function of the old contents; the properties of runs are lemmas about those functions. `Basics` holds shared
types and saturating arithmetic.

Where the code falls short of its own documentation the model follows the code, shows the failing family, and proves the
exact condition: `TopicFilter.FilterTopicsExact` (nested nulls are documented as supported), `SqlQuery.SqlTopicsExact`,
`SqlQuery.SqlAddressesExact`, `Migration.ParityResumesExactly`, `BlockAssembly.FinalDigestAccepted`,
`BaseFee.FloorReachedExactly`, `MappingSync.SyncCompletes`, `MappingSync.TornCallLoses`,
`PrecompileGuard.NestingBoundedExactly`, `DigestToMapping.SamePositionExactly`.

## Model

| member | source | states |
|---|---|---|
| `Consensus.FindLogWith` | primitives/consensus/src/lib.rs:94-110 | the loop returns the log exactly when the digest has one log of the wanted kind, and tells none from several |
| `Consensus.FindPreLog` | primitives/consensus/src/lib.rs:86-88 | the only pre log of the frontier engine, or none, or several |
| `Consensus.FindPostLog` | primitives/consensus/src/lib.rs:90-92 | the only post log of the frontier engine, or none, or several |
| `Consensus.FindLog` | primitives/consensus/src/lib.rs:112-132 | the only frontier log of either kind, in digest order, or none, or several |
| `Consensus.EnsureLog` | primitives/consensus/src/lib.rs:134-136 | accepts a digest exactly when it has one frontier log |
| `Consensus.FrontierLogsCount` | primitives/consensus/src/lib.rs:112-132 | no item is both kinds of log: the combined count is the sum of the two |
| `Consensus.OnlyLogExact` | primitives/consensus/src/lib.rs:112-132 | on the items themselves: the only frontier log is the one decodable item of the frontier engine, and there is none exactly when no item is one |
| `Consensus.OnlyPreLogExact` | primitives/consensus/src/lib.rs:86-88 | the same for pre logs alone |
| `Consensus.FromBlockInOrder` | primitives/consensus/src/lib.rs:67-78 | a block's hashes are its header's hash and one hash per transaction, in their order |
| `KvDb.Backend.WriteBlockHashes` | client/db/src/kv/mod.rs:313-367 | one transaction appends the block to its Ethereum hash (once), one entry per transaction to its list, and marks it synced |
| `KvDb.Backend.MetadataBatch` | client/db/src/kv/mod.rs:340-356 | every read sees the database before the transaction, so a repeated transaction hash keeps only its last index |
| `KvDb.Backend.WriteNoHashes` | client/db/src/kv/mod.rs:297-311 | only marks the block synced |
| `KvDb.Backend.WriteCurrentSyncingTips` | client/db/src/kv/mod.rs:203-215 | replaces the tips and nothing else |
| `KvDb.HoldsCommitted` | client/db/src/kv/mod.rs:313-367 | committing a block for the first time extends what the columns hold by exactly that block |
| `KvDb.BlocksForDistinct` | client/db/src/kv/mod.rs:318-332 | the list for an Ethereum block has no duplicates when every block is written once |
| `KvDb.BlocksForInOrder` | client/db/src/kv/mod.rs:318-332 | the list for an Ethereum block is in the order of the writes |
| `KvDb.MetaForOnePerBlock` | client/db/src/kv/mod.rs:340-356 | a transaction's list never names a block twice |
| `KvDb.MetaForInOrder` | client/db/src/kv/mod.rs:340-356 | so is the list for a transaction |
| `KvDb.WrittenAgain` | client/db/src/kv/mod.rs:318-356 | a block written twice is listed once for its Ethereum block, but twice for its transactions |
| `MappingSync.SyncBlock` | client/mapping-sync/src/kv/mod.rs:40-99 | commits what the only frontier log yields, checks a bare block hash against the state, and changes nothing on error or when the commit fails |
| `MappingSync.BlockWriteExact` | client/mapping-sync/src/kv/mod.rs:46-98 | what each kind and number of frontier logs makes a block commit: these hashes, the block's own in order, nothing, or an error |
| `MappingSync.SyncGenesisBlock` | client/mapping-sync/src/kv/mod.rs:101-145 | commits the genesis block the runtime API reports, without transactions, or fails without a write |
| `MappingSync.GenesisWriteExact` | client/mapping-sync/src/kv/mod.rs:110-144 | genesis commits the header hash of the block its runtime reports, by API version, and no transactions |
| `MappingSync.PopTips` | client/mapping-sync/src/kv/mod.rs:178-190 | pops tips to the first block that is neither synced nor below the floor, and keeps the tips below it |
| `MappingSync.OperateOnBlock` | client/mapping-sync/src/kv/mod.rs:199-217 | genesis or ordinary block, the parachain wait, and either commit failing, in the order of the source |
| `MappingSync.SyncOneBlock` | client/mapping-sync/src/kv/mod.rs:147-234 | commits that block, then the tips with its parent pushed; either commit may fail, and a failing tips commit leaves the block committed |
| `MappingSync.SyncBlocks` | client/mapping-sync/src/kv/mod.rs:236-272 | after the first success the remaining attempts do nothing, and the first error ends the call |
| `MappingSync.DiskExact` | client/mapping-sync/src/kv/mod.rs:192-217 | what a failing block or tips commit makes of a call, compared with a working disk |
| `MappingSync.ParachainWaits` | client/mapping-sync/src/kv/mod.rs:207-211 | under the parachain strategy a call on a block above the best one does nothing, and no such block is committed |
| `MappingSync.ScanTipsFacts` | client/mapping-sync/src/kv/mod.rs:178-198 | every popped tip is the operating block, synced or below the floor; known tips never miss a header |
| `MappingSync.ScanTipsFromTheEnd` | client/mapping-sync/src/kv/mod.rs:178-190 | tips are taken from the end, and what is left is the stack below the operating block |
| `MappingSync.RunSound` | client/mapping-sync/src/kv/mod.rs:165-217 | in every run of sync calls (either strategy, any commit failing or cut off) and imports, no block is committed twice or with anything but what it yields, and the columns hold exactly the commits |
| `MappingSync.RunInvariant` | client/mapping-sync/src/kv/mod.rs:165-217 | if no tips commit fails, also: a synced block's parent is synced, below the floor or in the tips |
| `MappingSync.SoundSync` | client/mapping-sync/src/kv/mod.rs:147-234 | one call, whatever its commits do, keeps the columns exact, and a missing header is never the reason it fails |
| `MappingSync.InvSync` | client/mapping-sync/src/kv/mod.rs:147-234 | one call whose tips commit does not fail keeps every synced block's parent accounted for |
| `MappingSync.SyncedAncestors` | client/mapping-sync/src/kv/mod.rs:165-217 | with no tips left the synced set is closed under ancestors down to the floor |
| `MappingSync.NothingLost` | client/mapping-sync/src/kv/mod.rs:165-217 | with every parent accounted for, some leaf or tip leads to each unsynced block through unsynced blocks |
| `MappingSync.CommitLosesNothing` | client/mapping-sync/src/kv/mod.rs:178-217 | a completed commit reaches a waiting block and neither loses nor recovers any other |
| `MappingSync.StepProgress` | client/mapping-sync/src/kv/mod.rs:165-234 | on a fixed chain a call uses up potential, or fails leaving everything, or only lost blocks are left |
| `MappingSync.SyncSettles` | client/mapping-sync/src/kv/mod.rs:165-234 | from any reachable state, crashes included, repeated calls end with exactly the lost blocks unsynced when no waiting block is refused, and otherwise fail for ever |
| `MappingSync.SyncCompletes` | client/mapping-sync/src/kv/mod.rs:165-234 | if no tips commit ever failed, repeated calls end with every block at or above the floor synced exactly when none of them is refused |
| `MappingSync.TornCallLoses` | client/mapping-sync/src/kv/mod.rs:212-217 | from any reachable state: after a call cut off between its two commits exactly the earlier lost blocks, and those below the committed block that nothing off its branch leads to, are lost; any are added exactly when its parent is |
| `MappingSync.TornLeafLosesItsParent` | client/mapping-sync/src/kv/mod.rs:212-217 | on a single branch without tips the unsynced parent of the leaf is lost |
| `MappingSync.ImportsRecover` | client/mapping-sync/src/kv/mod.rs:165-198 | imports lose no block, and of the lost ones exactly those recover to which unsynced blocks lead from the parent of an imported block |
| `MappingSync.SyncBlocksCommitsAtMostOne` | client/mapping-sync/src/kv/mod.rs:255-271 | a call never commits more than one block, and unless a tips commit failed it returns true exactly when it commits |
| `MappingSync.SyncBlocksTriesAgain` | client/mapping-sync/src/kv/mod.rs:255-271 | with two attempts a call reports no progress only if nothing was waiting; the first error or success ends it |
| `RpcLookup.BlockMappingExact` | client/db/src/kv/mod.rs:268-281 | in every reachable state, crashes included, the list for an Ethereum hash is exactly the synced blocks that yield it, each once, oldest first |
| `RpcLookup.TransactionMappingExact` | client/db/src/kv/mod.rs:283-295 | the entries for a transaction are exactly one per synced block that contains it, with its last index there |
| `RpcLookup.LoadHashFollowsBest` | client/rpc/src/lib.rs:222-257 | finds a block exactly when a synced block for the hash is on the current best chain, and returns such a block |
| `RpcLookup.FirstCanonIsFirst` | client/rpc/src/lib.rs:232-243 | the answer is the first canonical block of the list, and none exactly when no block of it is canonical |
| `RpcLookup.ReorgNeedsNoWrite` | client/rpc/src/lib.rs:222-257 | after any imports and best-block change the same columns answer for the new chain |
| `RpcLookup.CompletedLookup` | client/rpc/src/lib.rs:222-244 | after completion exactly the best chain's blocks at or above the floor can be looked up |
| `RpcLookup.LoadTransactionsFollowsBest` | client/rpc/src/lib.rs:259-290 | names a canonical inclusion whenever a synced one exists; otherwise none, or the inclusion synced first |
| `RpcLookup.FirstCanonMetaIsFirst` | client/rpc/src/lib.rs:268-280 | the same for the entries of a transaction |
| `RpcLookup.GenesisIsFound` | client/mapping-sync/src/kv/mod.rs:117-139 | once genesis is synced the block its runtime reports is found by its hash, and no transaction names genesis |
| `HeaderTree.OnChainUnfolds` | client/rpc/src/lib.rs:246-257 | the chain of a head is the head and the chain of its parent |
| `HeaderTree.CanonicalHashExact` | client/rpc/src/lib.rs:246-257 | the canonical hash at a height is the best chain's block with that number |
| `DigestToMapping.SealsAreSilent` | primitives/consensus/src/lib.rs:112-132 | any number of seals after the log holds no frontier log, so sealed headers are covered below |
| `DigestToMapping.OnlyPostLog` | client/mapping-sync/src/kv/mod.rs:46-60 | the only frontier log of a stored header, seals included, is the one that finalisation added |
| `DigestToMapping.KvCommitsFinalisedBlock` | client/mapping-sync/src/kv/mod.rs:60-96 | sync commits the finalised block's hashes, whatever seals follow the log, exactly when the digest carries them or the state still holds a block with the same hashes |
| `DigestToMapping.EitherEncodingSameHashes` | frame/ethereum/src/lib.rs:502-518 | both post-log encodings lead both indexes to the stored block's header hash and its transactions' hashes, one each, in order |
| `DigestToMapping.IndexesCommitAlike` | client/db/src/sql/mod.rs:278-308 | for any digest the SQL index commits hashes exactly when key-value sync does, and the same ones |
| `DigestToMapping.FinalisedBlockIsFound` | frame/ethereum/src/lib.rs:241-250 | once sync has completed, every finalised block on the best chain is found by its hash, and it is that block unless another of that chain yields the same hash |
| `DigestToMapping.FinalisedTransactionIsFound` | client/rpc/src/lib.rs:259-290 | each transaction of it is found by its own hash, with the block's hash and the last place of that hash in the block, unless another block of that chain has it too |
| `DigestToMapping.SamePositionExactly` | client/db/src/sql/mod.rs:401-422 | the two indexes give a transaction the same position exactly when its block has it once (last index against first) |
| `TopicFilter.Cartesian` | client/rpc-core/src/types/filter.rs:260-280 | the loops compute the product, last position fastest, and nothing for no lists |
| `TopicFilter.ExtendEach` | client/rpc-core/src/types/filter.rs:268-278 | the inner loops extend every prefix by every alternative, in order |
| `TopicFilter.ProductMember` | client/rpc-core/src/types/filter.rs:260-280 | the product holds every full-width choice and nothing else |
| `TopicFilter.ProductCount` | client/rpc-core/src/types/filter.rs:260-280 | it has as many combinations as the product of the list sizes |
| `TopicFilter.ChoicesPrefix` | client/rpc-core/src/types/filter.rs:268-278 | its order: all choices of the later positions come before the second choice of an earlier one |
| `TopicFilter.RunFlatten` | client/rpc-core/src/types/filter.rs:259-316 | a list of positions becomes its product, any other topic itself |
| `TopicFilter.PositionsMean` | client/rpc-core/src/types/filter.rs:284-316 | the positions a filter is split into say what the filter means as written |
| `TopicFilter.Replace` | client/rpc-core/src/types/filter.rs:319-340 | wildcards are replaced by the log's topic at the same position; it panics exactly on a wildcard beyond the log's topics |
| `TopicFilter.RunFilterTopics` | client/rpc-core/src/types/filter.rs:416-459 | the loop with its early exits decides as the scan over the flat topics does, and never panics |
| `TopicFilter.FilterTopicsExact` | client/rpc-core/src/types/filter.rs:416-459 | matching does what the filter means on every log exactly for the well-matched filters, for every topic |
| `TopicFilter.PlainFiltersWellMatched` | client/rpc-core/src/types/filter.rs:416-459 | positions that are wildcards or non-empty lists without wildcards are well matched |
| `TopicFilter.NestedNullRefused` | client/rpc-core/src/types/filter.rs:85-86 | the documented nested null refuses logs it should accept |
| `Blooms.AccrueLogs` | frame/ethereum/src/lib.rs:521-528 | adds the bits of every address and topic of the logs |
| `Blooms.LogsBloomExact` | frame/ethereum/src/lib.rs:521-528 | a bit is set exactly when some log's address or topic sets it |
| `BloomFilter.TopicsInBloom` | client/rpc-core/src/types/filter.rs:210-235 | some non-empty subset is contained as a whole, or there is no filter |
| `BloomFilter.AddressInBloom` | client/rpc-core/src/types/filter.rs:238-254 | some element is contained, or there is no filter |
| `BloomFilter.BlockRangeExact` | client/rpc-core/src/types/filter.rs:362-384 | a range takes the blocks from its lower to its upper number, and none up to "earliest" |
| `BloomFilter.NotFilteredExact` | client/rpc-core/src/types/filter.rs:342-414 | a well-matched filter accepts a log exactly when number, hash, address and meaning of the topics agree |
| `BloomFilter.InBloom` | client/rpc/src/eth/filter.rs:718-722 | both checks together |
| `BloomFilter.PrefilterExact` | client/rpc-core/src/types/filter.rs:92-146 | a block passes exactly when its bloom has the bits of a listed address (if any are listed) and of every topic named by some combination |
| `BloomFilter.NoFalseNegatives` | client/rpc-core/src/types/filter.rs:342-360 | a block whose bloom includes an accepted log passes both bloom checks, for any filter |
| `BloomFilter.AssembledBlockNotHidden` | frame/ethereum/src/lib.rs:454-500 | a log in a receipt of an assembled block that the filter accepts makes the header's bloom pass both checks |
| `SqlIndex.Backend.InsertBlockMetadata` | client/db/src/sql/mod.rs:355-431 | inserts the block with the flag read before the transaction, its transactions and its status together, or rolls everything back |
| `SqlIndex.FlagAsRead` | client/db/src/sql/mod.rs:313-326 | a flag read on an earlier chain is right for the best block of that time |
| `SqlIndex.Backend.IndexBlockLogs` | client/db/src/sql/mod.rs:434-546 | a pending block gets status 1 and a row per log of its receipts; any other block is left alone |
| `SqlIndex.Backend.Canonicalize` | client/db/src/sql/mod.rs:166-194 | clears the flag of retracted and sets the flag of enacted rows, and no other |
| `SqlIndex.Backend.SetBlockAsCanon` | client/db/src/sql/mod.rs:587-592 | the same as enacting a single block |
| `SqlIndex.WithTxsExact` | client/db/src/sql/mod.rs:401-422 | a block's transactions all have a row with their first index, and other blocks' rows are untouched |
| `SqlIndex.RouteApplied` | client/db/src/sql/mod.rs:166-194 | applying a tree route moves every flag from the old chain to the new one |
| `SqlIndex.InvMark` | client/mapping-sync/src/sql/mod.rs:339-357 | marking a block on the chain of a head that is still to be applied keeps the index exact |
| `SqlIndex.ExtensionNeedsNoRoute` | client/mapping-sync/src/sql/mod.rs:232-257 | where the best block moves to a child, marking the child alone does what its route would |
| `SqlIndex.RunInvariant` | client/db/src/sql/mod.rs:355-546 | every interleaving of imports, best-block moves, inserts (with a flag read before the last moves), log indexing, marking and canonicalization keeps rows, transactions, statuses, logs and flags exact |
| `SqlIndex.FlagsMatchBestChain` | client/db/src/sql/mod.rs:310-326 | once every reported route is applied, a row is canonical exactly when its block is on the best chain |
| `SqlIndex.TransactionRowsExact` | client/db/src/sql/mod.rs:788-818 | in every reachable state a transaction has one row per indexed block that contains it, with the low 32 bits of its first place and the block's Ethereum hash |
| `SqlQuery.UniqueTopics` | client/db/src/sql/mod.rs:856-872 | the non-null topics per position, refusing exactly the combinations longer than four |
| `SqlQuery.ProjectedProduct` | client/db/src/sql/mod.rs:862-872 | expanding and projecting back recovers each position's topics |
| `SqlQuery.SqlTopicsExact` | client/db/src/sql/mod.rs:984-1006 | the query's topic test means what the filter means exactly for plain filters |
| `SqlQuery.SqlAddressesExact` | client/rpc/src/eth/filter.rs:568-572 | the address list means what the filter means unless it was given as an empty list |
| `SqlQuery.IndexedQueryIsScan` | client/db/src/sql/mod.rs:947-1015 | any answer the database may give is the first 10001 rows of a scan of the canonical log-indexed blocks in range and below 2^31, in order, without duplicates |
| `SqlQuery.FilterLogsIsCanonicalScan` | client/db/src/sql/mod.rs:849-943 | over a range whose canonical blocks with logs are log-indexed (genesis and blocks without logs need not be), the answer is the scan of the canonical receipts with the address test and the direct matcher, up to height 2^31, where the number column turns negative |
| `BlockAssembly.Pallet.constructor` | frame/ethereum/src/lib.rs:382-391 | genesis stores an empty block 0 and leaves no log |
| `BlockAssembly.Pallet.ApplyValidatedTransaction` | frame/ethereum/src/lib.rs:613-737 | the pending map gets the next index, a status and a receipt with cumulative gas, and the event is deposited; a failed execution changes nothing |
| `BlockAssembly.AssembledExact` | frame/ethereum/src/lib.rs:619-727 | each transaction is in its place; its receipt has its kind, 1 for success and 0 otherwise, the capped gas total and its logs; its status has its place, hash, sender, target and created address |
| `BlockAssembly.EventExact` | frame/ethereum/src/lib.rs:729-737 | the event names sender, hash, outcome and the created or called address, with extra data only for a reverted call |
| `BlockAssembly.EventReportsMessage` | frame/ethereum/src/lib.rs:642-665 | a reverted call's message reaches the event, cut to the limit |
| `RevertData.MessageReported` | frame/ethereum/src/lib.rs:642-665 | the event's extra data is the revert message cut to the limit, unless nothing follows the length field |
| `RevertData.MalformedReportedWhole` | frame/ethereum/src/lib.rs:647-663 | data too short for a message, or announcing more than is there, comes back whole |
| `BlockAssembly.TakePending` | frame/ethereum/src/lib.rs:450-470 | takes every entry in order, leaving none, with the last gas total and the bloom of all logs |
| `BlockAssembly.Pallet.StoreBlock` | frame/ethereum/src/lib.rs:449-519 | stores the block, receipts and statuses of exactly the applied transactions, linked to the true hash of the preceding block |
| `BlockAssembly.Pallet.OnFinalize` | frame/ethereum/src/lib.rs:241-262 | keeps the hash window exact and every parent link true, empties the pending map, and adds a log unless one pre log is there |
| `BlockAssembly.CumulativeGasIsCappedTotal` | frame/ethereum/src/lib.rs:697-708 | each receipt's gas is the true total of its and all earlier transactions, capped at 256 bits |
| `BlockAssembly.BlockBloomIsUnion` | frame/ethereum/src/lib.rs:454-470 | the header bloom is the union of the receipts' blooms |
| `BlockAssembly.WindowMoves` | frame/ethereum/src/lib.rs:251-261 | inserting block n and removing one height moves the window, also where the removed height is clamped to 32 bits |
| `BlockAssembly.WindowBelowU32` | frame/ethereum/src/lib.rs:251-261 | below 2^32 the window is 0 and the heights from max(1, n - count) to n |
| `BlockAssembly.ParentKept` | frame/ethereum/src/lib.rs:477-481 | the parent's hash is always in the map, so the missing-key default is never read |
| `BlockAssembly.FinalDigestAccepted` | frame/ethereum/src/lib.rs:241-250 | a finalised header, sealed or not, passes the import check exactly when it had no post log and at most one pre log |
| `Migration.CompactRoundTrip` | client/db/src/kv/upgrade.rs:188-196 | every SCALE length prefix decodes to itself, whatever follows |
| `Migration.CompactCanonical` | client/db/src/kv/upgrade.rs:188-196 | only canonical length prefixes are read: they are written back as the same bytes |
| `Migration.CompactBytes` | client/db/src/kv/upgrade.rs:188-196 | the four forms of a length on the wire, at their bounds |
| `Migration.VecRoundTrip` | client/db/src/kv/upgrade.rs:188-196 | every version-2 value decodes to the list it was written from |
| `Migration.SingletonBytes` | client/db/src/kv/upgrade.rs:196-200 | a one-entry list is the byte 4 and the hash |
| `Migration.RawHashNeverDecodes` | client/db/src/kv/upgrade.rs:187-189 | a raw 32-byte value never decodes to a non-empty list |
| `Migration.Version1Rewritten` | client/db/src/kv/upgrade.rs:190-212 | a raw hash becomes the one-entry list of the canonical block at its number and a success; without a number or a canonical block it stays and is an error |
| `Migration.Version2Kept` | client/db/src/kv/upgrade.rs:202-207 | a version-2 value is kept; RocksDB counts it as a success, ParityDB as an error |
| `Migration.NewValueSettles` | client/db/src/kv/upgrade.rs:184-212 | an entry is rewritten to the canonical hash at its height; a second pass changes neither its value, nor whether it can be read, nor its RocksDB verdict |
| `Migration.Database.ProcessEntry` | client/db/src/kv/upgrade.rs:183-212 | one entry: its rewrite in the batch and its place in the report |
| `Migration.ReportExact` | client/db/src/kv/upgrade.rs:179-222 | every key is a success or an error, and the errors are the failing keys in order |
| `Migration.Database.ProcessChunk` | client/db/src/kv/upgrade.rs:179-222 | one batch migrates exactly the chunk's entries and reports each, a missing key as an error; a value too short to read panics before the commit |
| `Migration.Database.Migrate` | client/db/src/kv/upgrade.rs:233-246 | stopped before any chunk, or by the first chunk it cannot read, exactly the entries of the finished chunks are migrated and reported |
| `Migration.Database.UpgradeDb` | client/db/src/kv/upgrade.rs:94-125 | version 1 is migrated and becomes 2 unless an entry failed or could not be read; other versions are left alone or refused |
| `Migration.FullPassRewrites` | client/db/src/kv/upgrade.rs:233-246 | a whole pass over version-1 data, in terms of the client alone: which entries are rewritten to what, which stay and are reported |
| `Migration.RocksResumes` | client/db/src/kv/upgrade.rs:202-207 | after any interrupted passes a full pass panics exactly when the first would have, and leaves the same column and the same summary as one uninterrupted pass |
| `Migration.ParityAgreesOnVersion1` | client/db/src/kv/upgrade.rs:260-294 | on version-1 data ParityDB reports as RocksDB does |
| `Migration.ParityResumesExactly` | client/db/src/kv/upgrade.rs:271-289 | a ParityDB rerun is free of errors exactly when the interrupted pass reached nothing and every entry has a canonical block |
| `PrecompileGuard.PrecompileSetStartingWith.Execute` | precompiles/src/precompile_set.rs:677-736 | counters (16 bits, wrapping), events and verdict of a call tree with one counter per address |
| `PrecompileGuard.PrecompileAt.Execute` | precompiles/src/precompile_set.rs:553-608 | the same with a single address and counter |
| `PrecompileGuard.VerdictExact` | precompiles/src/precompile_set.rs:684-735 | a call is passed on, fails its checks before anything is counted, is refused as too deep, or has the precompile's own result, each exactly when |
| `PrecompileGuard.OnlyCheckedCallsRun` | precompiles/src/precompile_set.rs:685-688 | over every tree, frames and refusals of an address are at most the calls to it that their checks let through, and without a limit each of these runs |
| `PrecompileGuard.CountersRestored` | precompiles/src/precompile_set.rs:718-733 | every call returns with the counters it found and its frames left, even where a counter wrapped, and the missing-counter branch is never taken |
| `PrecompileGuard.GuardDecides` | precompiles/src/precompile_set.rs:690-707 | over every tree a frame is entered with at most limit frames of its address active, and refused only with more, for limits below 65535 |
| `PrecompileGuard.NestingBounded` | precompiles/src/precompile_set.rs:569-584 | at no moment are more than limit + 1 frames of an address active, for limits below 65535 |
| `PrecompileGuard.BoundReached` | precompiles/src/precompile_set.rs:569-584 | a deep enough chain of self-calls has exactly limit + 1 frames active |
| `PrecompileGuard.NestingBoundedExactly` | precompiles/src/precompile_set.rs:569-584 | nesting is bounded over every tree exactly when the limit is below 65535: at 65535 the counter wraps and nothing is refused |
| `PrecompileGuard.ShallowTreesBounded` | precompiles/src/precompile_set.rs:569-584 | for trees at most 65536 calls deep every limit bounds nesting, by limit + 1 and by the depth of the tree |
| `PrecompileGuard.NoSubcallsNoNesting` | precompiles/src/precompile_set.rs:413-431 | with subcalls disabled, over every tree, no two frames of any addresses are ever active together |
| `BaseFee.Pallet.OnFinalize` | frame/base-fee/src/lib.rs:131-203 | the stored fee becomes the next fee for the block's weight, and the event says exactly when the product overflowed |
| `BaseFee.UsageScale` | frame/base-fee/src/lib.rs:148-157 | usage never falls as weight grows, is nothing up to the lower threshold, and everything exactly from the upper one on |
| `BaseFee.UsageLinear` | frame/base-fee/src/lib.rs:148-157 | in between usage is linear: the place of the rounded fullness between the thresholds |
| `BaseFee.CoefficientScale` | frame/base-fee/src/lib.rs:139-163 | the elasticity is used in proportion to the distance from the ideal, and fully from half the scale on |
| `BaseFee.FloorValue` | frame/base-fee/src/lib.rs:186-192 | the lowest fee is the default scaled by the ideal, or a millionth of the default on overflow |
| `BaseFee.NextFeeRises` | frame/base-fee/src/lib.rs:159-174 | above the ideal the fee rises by exactly its share, rounded down; an overflowing product leaves it and is announced |
| `BaseFee.NextFeeFalls` | frame/base-fee/src/lib.rs:175-202 | below the ideal it falls by exactly its share, rounded down, or to the floor if that is nearer |
| `BaseFee.NextFeeStays` | frame/base-fee/src/lib.rs:159-202 | at the ideal it stays |
| `BaseFee.ZeroElasticity` | frame/base-fee/src/lib.rs:132-135 | without elasticity the fee is constant |
| `BaseFee.NextFeeKeepsFloor` | frame/base-fee/src/lib.rs:159-202 | from the floor up, a block keeps the fee there, moves it the right way and by at most the elasticity |
| `BaseFee.FloorHolds` | frame/base-fee/src/lib.rs:131-203 | over any sequence of blocks the fee stays at or above the floor |
| `BaseFee.RepeatedBlocks` | frame/base-fee/src/lib.rs:159-202 | equal blocks repeat one decrease or one increase |
| `BaseFee.EmptyBlocksSettle` | frame/base-fee/src/lib.rs:175-202 | repeated decreases end, and stay, at the larger of the floor and the point where rounding stops them |
| `BaseFee.Halves` | frame/base-fee/src/lib.rs:175-202 | the excess over the resting point at least halves in 2000000 / coefficient + 1 empty blocks |
| `BaseFee.SettlesSoon` | frame/base-fee/src/lib.rs:175-202 | so from any 256-bit fee whose product fits it is at rest after 256 times as many |
| `BaseFee.FloorReachedExactly` | frame/base-fee/src/lib.rs:175-202 | they reach the floor exactly when it is reached already or floor + 1 times the coefficient is at least a million |
| `BaseFee.FullBlocksTop` | frame/base-fee/src/lib.rs:159-174 | repeated increases grow the fee strictly until the product overflows (or the maximum is reached), then leave it |
| `BaseFee.SmallFeeStuck` | frame/base-fee/src/lib.rs:159-174 | a fee too small for an increase of one never grows |
| `BaseFee.OverflowFreezes` | frame/base-fee/src/lib.rs:165-173 | once the product overflows nothing moves the fee |
| `Validation.BalanceCheckExact` | primitives/evm/src/validation.rs:160-181 | below the maximal balance the saturating check is the exact inequality |
| `Validation.MaximalBalancePassesAnything` | primitives/evm/src/validation.rs:173-179 | at the maximal balance it accepts everything |
| `Validation.InBlockExactly` | primitives/evm/src/validation.rs:129-136 | in a block exactly the account's own nonce with enough gas and a fitting limit passes, and the error says on which side the nonce is |
| `Validation.PoolAcceptsExactly` | primitives/evm/src/validation.rs:122-220 | the pool accepts exactly when, in unbounded integers, nonce, chain id, gas, price and balance are right |
| `Validation.CallAcceptsExactly` | primitives/evm/src/validation.rs:148-220 | the same for a call that is not a transaction: no price needed, but a price that is given must be payable |
| `Validation.AcceptedIsSolvent` | primitives/evm/src/validation.rs:148-220 | an accepted transaction covers value and fee at any gas used, at a price between the base fee and its own maximum |
| `Validation.PriorityIsEffectiveTip` | frame/ethereum/src/lib.rs:575-595 | the priority is the effective tip capped to 64 bits, and the unreachable branch is unreachable |
| `Validation.NoncesAreConsecutive` | frame/ethereum/src/lib.rs:597-610 | any order that respects the tags has the nonces in sequence from the account's own |
| `Validation.TurnComes` | primitives/evm/src/validation.rs:129-136 | each of them passes the in-block nonce check when its turn comes |
| `CodeCache.Pallet.CreateAccount` | frame/evm/src/lib.rs:981-1008 | stores non-empty code with its metadata and counts the account once |
| `CodeCache.Pallet.RemoveAccount` | frame/evm/src/lib.rs:969-978 | removes code, metadata and storage cells and gives the count back |
| `CodeCache.Pallet.RemoveAccountIfEmpty` | frame/evm/src/lib.rs:950-966 | never removes code or metadata; storage cells go exactly when nonce, balance and code are empty |
| `CodeCache.Pallet.AccountCodeMetadata` | frame/evm/src/lib.rs:1012-1035 | answers for the stored code whether cached or not, and caches nothing for empty code |
| `CodeCache.CountedAdd` | frame/evm/src/lib.rs:997-1000 | counts stay one per address with code, for any address mapping |
| `CodeCache.CountedRemove` | frame/evm/src/lib.rs:969-973 | the same on removal, and a count is never taken below zero |
| `CodeCache.CountedOnce` | frame/evm/src/lib.rs:1322-1328 | with an injective mapping the count exceeds its base by one exactly when the address has code |

## Left out

- SyncOneBlock: a state that is pruned between two reads of the same block is not modelled.
- IndexedQueryIsScan: range ends are below 2^63, where the cast to a signed 64-bit number is the identity.
- StoreBlock: the counter of the pending map and block numbers are not bounded by u32 and u128; the trie root, author, timestamp and gas limit are one opaque header field.
- OnFinalize: on-initialize execution of a pre-logged block and weights are not modelled.
- UpgradeDb: the version file and directory handling are a single field; errors of the database itself are not modelled.
- Execute: the common checks on caller and selector are one input per call; gas of the address test is not modelled. A counter wraps as in a build without overflow checks; with them the call that would wrap panics.
- NestingBoundedExactly: its failing family has 65537 nested frames; the EVM executor's own limit on call depth (1024) is not part of the call trees, and `PrecompileGuard.ShallowTreesBounded` covers every tree that keeps to it.
- AcceptedIsSolvent: the proof-size and intrinsic-gas checks are one input; the authorization list and the signer-has-code check are not modelled.
- RemoveAccount: clearing stops at 2^32 - 1 storage cells in the source and never here.
- UsageScale: `Permill` fractions and products are taken to round down, and a fraction without a value to be one.
- The fees withdrawn, refunded and deposited by the EVM pallet: they rest on Substrate's imbalance types.
- The SQL indexing worker's own scheduling, genesis row, missing-block repair and storage-schema column: each reported best-block route is applied in order, however late.
- Receipt and log indexes in SQL are not bounded by 2^31; hashes are unbounded identifiers, so that one outside any filter exists.
- EVM execution, signatures, RLP and general SCALE codecs, futures, pub-sub, RPC types, node service and benchmarks.
