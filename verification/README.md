# Arkiv block store and query compiler: a verified model

Arkiv indexes blockchain entities. A block carries create, update, delete, extend, transfer and expire operations on
entities. The store keeps the same facts three times: entity records in a versioned trie with one root per block, one
bitmap of entity IDs per annotation pair (key, value) whose hash sits in a slot of the trie's system account, and flat
key-value caches (pointers to the current bitmaps, ID maps, block index, head record). Blocks are applied through a
per-block write buffer and can be reverted; the query side parses boolean expressions, normalises them to a
disjunction of conjunctions, evaluates them with bitmap operations, and returns results in pages.

The files follow that structure.

- `Bytes`, `Entities`: byte strings and their order, big-endian numbers, entities and the pairs they are indexed under.
- `Ledger`, `Chain`, `Machine`: the meaning of operations applied one at a time to a trie (write-through), of blocks
  and canonical chains, and of whole runs of commits, failed commits and reverts.
- `Sequences`, `Keys`, `Database`: joined sequences, the byte layout of the flat keys, batches, and the staging overlay.
- `CacheStore`, `Revert`, `Store`: the write buffer, the rebuild of the caches from an old trie, and the store object,
  as classes whose methods update their fields. `Disk` states what the database holds for a canonical chain and proves
  that commits and reverts keep it.
- `Reads`, `Scans`, `Glob`, `Bitmaps`: reads at a block, scans over ordered keys, the glob matcher, mutable ID sets.
- `Language`, `Normalize`, `Evaluate`, `Answers`, `Paging`: parsed queries, normalisation, evaluation, what the result
  means for live entities, and the paged endpoint.
- `Effects`, `Meanings`: what each operation writes, field by field and attribute by attribute, and in which order a
  block runs its operations; what each kind of leaf asks of a record. They are stated on the wire data and the records,
  without the functions that the methods are proved against.
- `Negation`, `History`, `Numbers`: exactly when an inverted range is a complement, when a query at an earlier block is
  answered for that block, and when a numeric leaf selects by numeric annotations only.

The main line of the argument: `CacheStores.CacheStore.ApplyOp` makes the write buffer refine the write-through
ledger; `Stores.Store.ProcessBlock` and the revert methods make the store object refine the machine of `Machine` while
keeping `Disk.DiskInv`; `Machine.RunLedgerInv` gives the index invariant in every reachable state;
`Reads.ReadAnnotBitmap` and the scans return sets fixed by the canonical chain; `Normalize.MeaningPreserved` and
`Answers.QueryExact` take an evaluated query back to the query as written; `Paging.PagesAnswerQuery` does the same for
the pages a client collects.

## Symbolic parts and inputs

Hashes are symbolic: a bitmap hash stands for the set it serialises and a state root for the trie it commits to, so
equal hashes mean equal contents and no hash is zero. Serialisation is a function of contents, as
`store/bitmap_test.go:9-26` argues. Well-formed input is what the node and the registry contract promise, and is
assumed on blocks and revert references only: a block's number is the head number plus one, its parent hash is the
head hash, its hash is new; an address is created at most once on a canonical chain and is neither zero nor the system address; fewer than 2^64
entities are ever created; user attribute names hold no NUL byte and do not start with `$`; revert references are the
last canonical blocks, newest first, or end with a block that is not canonical. The store is modelled on all reads,
unknown blocks included, and on blocks that fail at any operation.

## Where the code differs from its comments

- Range and glob terms scan the head pointers even when a query names an earlier block (`store/query.go:80`).
  `Evaluate.LeafSet` keeps this. `History.HistoricalScanWrong`, `History.HistoricalDeletedWrong` and, for a negated
  glob, `History.HistoricalNotGlobWrong` are chains on which the answer is wrong; `History.ExactOnChainsIff` says, on
  the text of the leaf, for which leaves it is right at every block of every canonical chain.
- A query at an earlier block reads entities of that block but resolves IDs through the current cache
  (`query/server.go:191-200`), so pages silently lose entities that were live there and deleted before the ancestor of
  a later revert. `Paging.PagesLoseEntity` is such a run; `Paging.PagesOnRuns` is the exact condition.
- Inverting a range swaps the operator instead of taking a set complement (`query/normalize.go:304-375`).
  `Negation.RangeGap` and `Negation.RangeOverlap` are chains on which the two differ;
  `Negation.RangeSetsComplementIff` says exactly when they agree for every bound, for both operator pairs and for
  text and number bounds.
- String and numeric annotations of one key share buckets (`store/ops.go:26-54`), so a string of eight bytes meets
  numeric leaves, and a number meets text ranges. `Answers.Satisfies` judges values as they are stored.
  `Numbers.RangesSelectByNumberIff` and `Numbers.NumericEqualityIff` say exactly when numeric leaves select by numeric
  annotations alone.
- `repopulateIDs` says entries of entities deleted before the ancestor stay (`store/revert.go:61-62`), but it removes
  them (`store/revert.go:72-85`). `Machine.IdCacheGap` is a run after which a live entity no longer resolves;
  `Machine.IdResolvesIff` is the exact condition.
- A reorg or a chain commit is atomic per block, not as a whole (`store/store.go:134-138`, `chain/server.go:23-30`).
  `Stores.Store.Reorg` states which prefix stays and with which error; `Stores.ReorgPartway` is a reorg that ends on
  neither chain.
- The system address is documented as the first twenty bytes of its hash (`store/system.go:12`); the code takes the
  last twenty (`store/system.go:13`), and so does `Entities.SYSTEM_ADDRESS`.
- Reverting every block leaves the first block's parent hash in the head record, not the zero hash of a new store
  (`store/store.go:285-297`). `Disk.HeadHashAlong` gives the head hash along every run, and `Disk.EmptiedHead` is a run that reaches any given one.

## Main results

- Store: `Machine.RunLedgerInv`, `Machine.IdResolvesIff`, `Machine.ClimbingRunsComplete`, `Machine.AllBitmapCounts`;
  `CacheStores.CacheStore.ApplyOp`, `Stores.Store.ProcessBlock`, `Stores.Store.RevertToAncestor`,
  `Stores.Store.Reorg`; `Effects.BlockOrder`, `Effects.BlockRuns`, `Effects.CreateWrites`, `Effects.UpdateWrites`,
  `Effects.ExtendWrites`, `Effects.TransferWrites`, `Effects.RemoveWrites`; `Disk.CommitKeepsDisk`, `Disk.RevertKeepsDisk`, `Disk.SameAsFreshStore`.
- Keys and reads: `Keys.EncodeInjective`, `Reads.BitmapIsScan`, `Reads.OldRootResolves`, `Reads.SameChainSameReads`.
- Scans: `Scans.IterateNumericAnnotBitmaps`, `Scans.PrefixSuccessor`, `Scans.FastPathExact`, `Glob.GlobMatch`.
- Queries: `Normalize.MeaningPreserved`, `Normalize.ParenRank`, `Answers.QueryExact`, `Meanings.LeafMeaning`,
  `Negation.PlainQueryExact`, `Negation.NotIsComplement`,
  `Negation.RangeSetsComplementIff`, `History.ExactOnChainsIff`, `Numbers.RangesSelectByNumberIff`.
- Pages: `Paging.PageIs`, `Paging.PagesPartition`, `Paging.PagesAnswerQuery`, `Paging.PagesOnRuns`.

## Model

| member | source | states |
|---|---|---|
| Bytes.BigEndianOrder | store/keys.go:72-76 | among byte strings of one length, lexicographic order is the order of the big-endian numbers they spell |
| Bytes.NumericOrder | store/keys.go:72-76 | the eight-byte encoding is an order isomorphism from uint64, and injective |
| Bytes.NumericVal | store/keys.go:72-76 | the encoding has eight bytes and its big-endian value is the number |
| Bytes.FromBESuffix | store/ops.go:309-313 | keeping the last eight bytes is reduction modulo 2^64 |
| Entities.AttrUint64 | store/ops.go:309-318 | the shift loop yields the big-endian value of the attribute modulo 2^64, for any length |
| Entities.ApplyAttributes | store/ops.go:293-305 | string, uint and entityKey attributes are appended in order as annotations of their kind; other types add nothing |
| Entities.LowerHexInjective | store/ops.go:32 | lower-case hexadecimal text determines the address or hash, so two owners never share a bucket |
| Entities.LowerHexIsLower | store/ops.go:32 | indexed hexadecimal text is already in the form queries are lowered to |
| Entities.AllAnnotations | store/ops.go:26-54 | an entity is indexed under its eight built-in pairs followed by its string and numeric annotations |
| Entities.BuiltinCarried | store/ops.go:26-37 | under each built-in key an entity carries exactly its own built-in value; no user attribute can add another |
| Entities.UserCarried | store/ops.go:40-54 | under a user key an entity carries its string values and the encodings of its numbers, and nothing else |
| Entities.AnnotPairSet | store/ops.go:57-63 | the loop collects exactly the pairs of the list |
| Ledger.CreateKeeps | store/ops.go:102-142 | a create keeps the index exact, gives an unused ID, and keeps ID slots and records in bijection |
| Ledger.CreateShape | store/ops.go:102-142 | a create takes the next ID, records it in the slot and the history, stores the entity, and adds the ID to exactly its buckets |
| Ledger.CreateIndex | store/ops.go:135-139 | after a create every bitmap is still the scan over live entities |
| Ledger.RemoveIndex | store/ops.go:201-226 | after a delete or expire every bitmap is still the scan over live entities |
| Ledger.RemoveKeeps | store/ops.go:201-226 | removing an entity keeps the whole ledger invariant |
| Ledger.UpdateKeeps | store/ops.go:146-194 | an update moves the ID between exactly the buckets that differ and keeps the whole ledger invariant |
| Ledger.ExtendKeeps | store/ops.go:229-252 | moving the ID between two expiration buckets keeps the whole ledger invariant |
| Ledger.TransferKeeps | store/ops.go:261-284 | moving the ID between two owner buckets keeps the whole ledger invariant |
| Ledger.OpKeeps | store/ops.go:68-85 | every operation keeps: bitmaps equal the scan over live entities, IDs and records in bijection, no ID given twice |
| Ledger.OpExtends | store/system.go:32-38 | the counter and the creation history only grow, and a removed ID never comes back |
| Effects.CreateWrites | store/ops.go:102-142 | the new record has the owner, payload, content type, expiry, key and operation index of the operation, the sender as creator, the transaction's index, the block as both block numbers, and its attributes; every other record stays |
| Effects.UpdateWrites | store/ops.go:159-192 | payload, content type and attributes are those of the operation and the block is the last modification; key, owner, creator, expiry, creation block and indexes, IDs and every other record stay |
| Effects.ExtendWrites | store/ops.go:229-252 | only the expiry of one record changes, and its ID is in the `$expiration` bucket of the new expiry and in no other |
| Effects.TransferWrites | store/ops.go:261-284 | only the owner of one record changes, and its ID is in the `$owner` bucket of the new owner and in no other |
| Effects.RemoveWrites | store/ops.go:197-226 | a delete or expire takes away one record and its ID slot, its ID is in no bucket afterwards, and every other record stays |
| Effects.OpFailsIff | store/ops.go:68-85 | an empty operation fails, a create never does, every other one fails exactly when no entity is at the first twenty bytes of its key |
| Effects.StoreRuns | store/ops.go:149-158 | the store refuses beyond that exactly the operations on entities whose ID is not cached, and a create caches its ID |
| Effects.AttributesHeld | store/ops.go:293-305 | each string attribute is stored trimmed of trailing NULs, each entity key as `0x` and the digits of its last 32 bytes, each number modulo 2^64, all in order and under their names |
| Effects.BuiltinBuckets | store/ops.go:26-37 | for each of the eight built-in keys: the one bucket that holds a live entity is that of the field it is named after |
| Effects.UserBuckets | store/ops.go:40-49 | under a user key a live entity is in the buckets of its strings and its encoded numbers and in no other |
| Effects.BlockOrder | store/store.go:156-164 | the operations run in list order, transaction after transaction, none left out; a create gets its transaction's sender and index and nothing else changes |
| Effects.OpsInOrder | store/store.go:156-170 | a list succeeds with m exactly when there is a chain of ledgers from the first operation to the last that ends in m |
| Effects.OpsFailFirst | store/store.go:165-168 | a list fails with e exactly when some operation fails with e and all before it succeed |
| Effects.BlockRuns | store/store.go:143-170 | a block runs its operations under its own number from the parent state with the system account in place |
| Effects.ChainInOrder | store/store.go:143-181 | the state of a canonical chain grows block by block, in order, from the empty state |
| Effects.SystemAccount | store/store.go:153 | the system account exists exactly from the first block on, an empty block included |
| Effects.EmptyBlock | store/store.go:153 | a block without operations adds the system account and changes nothing else |
| Chain.OpsKeep | store/store.go:156-168 | every successful operation list keeps the ledger invariant |
| Chain.CompleteExecOps | store/ops.go:154-158 | with all live IDs cached, the store accepts exactly the operation lists that the ledger accepts, and they stay cached |
| Chain.ExecOpsCache | store/ops.go:111-116 | a successful operation list adds to the ID cache exactly the IDs it assigns, changes no entry, and acts on the ledger as the write-through meaning does |
| Chain.SoundEntry | store/query.go:208-214 | a cached entry for a live ID is that entity's address |
| Chain.ReplayInv | store/store.go:143-181 | along every canonical chain the index equals the naive scan |
| Chain.ChainPrefix | store/system.go:32-38 | prefixes of a canonical chain are canonical, and their history extends to the whole chain |
| Machine.CommitFacts | store/store.go:143-181 | a successful block extends the chain by itself, the ledger by its replay, and the ID cache by exactly its new IDs |
| Machine.RevertFacts | store/store.go:244-299 | a revert keeps the invariant and leaves in the cache exactly the cached IDs that are live at the ancestor |
| Machine.StepKeeps | store/store.go:142-299 | every step of every kind keeps the machine invariant |
| Machine.RunLedgerInv | store/store.go:142-299 | in every state of every run, each bitmap is the scan over live entities and IDs are never reused |
| Machine.IdResolvesIff | store/revert.go:63-88 | an entity's ID is cached if and only if it was live at the ancestor of every revert since its block was last applied |
| Machine.IdCacheGap | store/revert.go:72-85 | a concrete run after which a live entity does not resolve and an operation on it that the ledger accepts is refused |
| Machine.ClimbingRunsComplete | store/revert.go:63-88 | if no revert goes below the ancestor of an earlier one, every live entity's ID is cached |
| Machine.CompleteCommit | store/store.go:143-181 | with a complete cache a block is accepted exactly when its replay succeeds, and the cache stays complete |
| Machine.FreshReplay | store/store.go:125-140 | feeding a canonical chain to an empty store reproduces the chain with every live ID resolving |
| Machine.SnapshotStable | store/query.go:28-46 | while the chain stays n blocks long, its first n blocks and their state do not change, whatever happens above |
| Machine.AllBitmapCounts | store/system.go:26-38 | in every reachable state the `$all` bitmap is the set of live IDs, and its size is creates minus deletes and expires on the canonical chain |
| Keys.EncodeInjective | store/keys.go:26-68 | distinct database keys of all kinds have distinct bytes, given NUL-free annotation keys and no bitmap hash collision |
| Keys.SplitRecovers | store/revert.go:36-41 | splitting a pair key at its first NUL returns key and value, even when the value holds NULs |
| Keys.IndexNul | store/revert.go:36 | the search returns the first NUL, or -1 exactly when there is none |
| Keys.AnnotScanExact | store/query.go:82-90 | a prefix scan meets exactly the pointers of one annotation key |
| Keys.AnnotScanOrder | store/query.go:82-90 | the scan meets them in the byte order of their values |
| Keys.PrefixScanExact | store/revert.go:32-64 | the prefix scans of a revert meet exactly the pair entries and exactly the ID entries, and the rest of each key is the pair or the number |
| Keys.SlotPreimagesDistinct | store/system.go:41-53 | count, annotation and ID slots of the system account never share a pre-image |
| Keys.HeadRoundTrip | store/keys.go:89-103 | decoding an encoded head record returns number, hash and root |
| Database.StagingDB.Get | store/staging.go:36-41 | an overlay read is a read of the database with the staged puts applied |
| Database.StagingDB.Has | store/staging.go:43-48 | a key is present in the overlay exactly when it is present in the combined view |
| Database.StagingDB.Put | store/staging.go:50-52 | a staged put changes the view and not the disk |
| Database.StagingDB.Delete | store/staging.go:54-56 | a delete drops the staged entry only: a reader then sees the disk entry of the key again, if there is one |
| Database.StagingDB.Commit | store/staging.go:71-81 | the disk becomes the overlay view, whatever order the staged entries are copied in |
| Database.StagingIsDirectIff | store/staging.go:68-81 | committing staged operations equals applying them directly if and only if no key on disk has a delete as its last operation |
| CacheStores.CacheStore.MutateBitmap | store/bitmap.go:29-50 | first touch loads the pointed bitmap, later touches use the cached one; a missing blob is an error that changes nothing |
| CacheStores.CacheStore.AddMissing | store/ops.go:184-190 | the ID is added to exactly the new pairs, in any iteration order |
| CacheStores.CacheStore.RemoveDropped | store/ops.go:177-183 | the ID is removed from exactly the dropped pairs, in any iteration order |
| CacheStores.CacheStore.GetEntity | store/staging.go:129-143 | the entity seen is that of the trie with the dirty entities on top, and reading does not change that view |
| CacheStores.CacheStore.ProcessCreate | store/ops.go:102-142 | the buffer after a create stands for the write-through result, whose fields, attributes and ID `Effects.CreateWrites` gives |
| CacheStores.CacheStore.ProcessUpdate | store/ops.go:146-194 | success refines the write-through update, whose fields and attributes `Effects.UpdateWrites` gives; failure leaves the buffer's meaning unchanged with the same error |
| CacheStores.CacheStore.DeleteEntity | store/ops.go:201-226 | success removes entity, slot and bucket entries; failure tells a missing entity from an unresolved ID |
| CacheStores.CacheStore.ProcessDelete | store/ops.go:197-199 | a delete refines its write-through meaning |
| CacheStores.CacheStore.ProcessExpire | store/ops.go:256-258 | an expire refines its write-through meaning |
| CacheStores.CacheStore.ProcessExtend | store/ops.go:229-252 | an extend refines its write-through meaning: the new expiry and the one expiration bucket of `Effects.ExtendWrites` |
| CacheStores.CacheStore.ProcessTransfer | store/ops.go:261-284 | a transfer refines its write-through meaning: the new owner and the one owner bucket of `Effects.TransferWrites` |
| CacheStores.CacheStore.ApplyOp | store/ops.go:68-85 | for every operation the write-back buffer refines the write-through ledger, errors included |
| CacheStores.CacheStore.FlushEntities | store/ops.go:89-98 | every dirty entity reaches its account once, in any order |
| CacheStores.CacheStore.FlushBitmaps | store/bitmap.go:55-80 | blobs, pointers, slots and pair entries end as the dirty bitmaps say, in any order |
| CacheStores.CacheStore.Commit | store/staging.go:154-207 | the root is that of the write-through trie, and every key on disk has its expected content after one atomic write |
| Revert.RepopulateAnnot | store/revert.go:31-56 | the batch rewrites the pointer of every pair ever indexed from its slot, deleting it exactly when the slot is zero |
| Revert.RepopulateIDs | store/revert.go:63-88 | the batch drops both entries of exactly the cached IDs whose slot is zero at the given trie |
| Disk.EmptyDisk | store/store.go:55-74 | an empty database satisfies the disk invariant of the empty chain |
| Disk.CommitKeepsDisk | store/staging.go:154-207 | after a commit, head, pointers, pair index, ID maps, block index and archived roots are those of the longer chain; the pair index grows by exactly the non-zero slots of the new trie |
| Disk.CommitPairs | store/bitmap.go:71-77 | the pairs on disk after a commit are those before it and the slots of the new trie, no more |
| Disk.CommitUsed | store/bitmap.go:71-77 | every pair in the index was non-zero at some committed root |
| Disk.RevertKeepsDisk | store/store.go:244-299 | after the revert batch, head, pointers, ID maps and block index are those of the ancestor, the pair index is unchanged, and nothing content-addressed is lost |
| Disk.RevertAnnot | store/revert.go:31-56 | after a revert each pointer equals the slot at the ancestor and is absent exactly when that slot is zero |
| Disk.ParentRoot | store/store.go:190-203 | the root found for a block's parent is the state before that block, the empty state for the first |
| Disk.SameChainSameIndex | store/store.go:125-181 | two stores on one canonical chain, empty or not, agree on pointers, block index, head number and root, whatever their histories, and on the head hash when the chain is not empty |
| Disk.SameAsFreshStore | store/store.go:118-140 | after any history the pointers, the block index and the head are those of an empty store fed the canonical chain, up to the head hash of the empty chain |
| Disk.EmptyChainAnyHash | store/store.go:285-297 | on the empty chain the disk invariant leaves the head hash open |
| Disk.HeadHashAlong | store/store.go:285-297 | along every run the head hash is that of the last block; on the empty chain it is zero if nothing was ever reverted, else the parent of the first block that the last revert removed |
| Disk.EmptiedHead | store/store.go:285-297 | commit one block and revert it: the state is that of a new store and the head hash is the block's parent, whatever that is |
| Stores.NewMemory | store/store.go:19-21 | a store on an empty database is valid and starts from the empty chain |
| Stores.Store.constructor | store/store.go:55-74 | a store opened on a database continues from the head record, or from the empty state |
| Stores.RunTxs | store/store.go:156-170 | the nested loops run the operations of the block in the order of `Effects.BlockOrder` and stop with the error of the first that fails (`Effects.OpsFailFirst`) |
| Stores.Store.NewBuffer | store/staging.go:106-125 | a block starts from a buffer that stands for the head state with the system account in place |
| Stores.Store.ProcessBlock | store/store.go:143-181 | a block commits exactly when its operations run, in the order of `Effects.BlockOrder`, from the head state with the system account; to the replayed root and with the pair index grown by its slots; a failure leaves database and head untouched |
| Stores.Store.FindAncestor | store/store.go:248-263 | the parent hash and root come from the block index, with the empty root when the parent has none |
| Stores.Store.RevertBlock | store/store.go:187-238 | reverting the head block gives the machine's one-block revert; an unknown block is an error that changes nothing |
| Stores.Store.RevertToAncestor | store/store.go:244-299 | reverting the last blocks at once gives the machine's revert to the ancestor; an unknown block changes nothing |
| Stores.Store.RevertBlocks | store/store.go:104-116 | an empty list returns the current root; otherwise the revert to the ancestor |
| Stores.Store.Reorg | store/store.go:125-140 | success ends on ancestor plus all new blocks; a failure at block i keeps the revert and the first i blocks with that block's error; an unknown block to revert changes nothing; no stored root is lost |
| Stores.Store.ApplyBlocks | store/store.go:134-138 | the loop over new blocks commits a prefix, and the length of the chain tells which block failed; a failure of the first changes nothing |
| Stores.ReorgPartway | store/store.go:134-138 | a concrete reorg, on a reachable state, whose first new block stays and whose second fails |
| Reads.StoredRootExact | store/query.go:28-46 | the block index leads every canonical number to that block's state and every other number to an error |
| Reads.OpenStateAt | store/query.go:28-46 | opening succeeds exactly for the head and for canonical numbers, with that block's state |
| Reads.ReadAnnotBitmap | store/query.go:52-70 | the bitmap read at block n is the one committed there; unknown numbers are errors |
| Reads.AllEntities | store/query.go:74-76 | the `$all` bitmap as committed at block n |
| Reads.BitmapIsScan | store/query.go:48-70 | at every canonical block the bitmap of a pair is exactly the set of entities live there that carry it, and `$all` the live IDs |
| Reads.OldRootResolves | store/query.go:48-51 | a reader holding any committed root finds the same bitmaps after any later commits, reverts and reorgs |
| Reads.SameChainSameReads | store/query.go:52-70 | two stores on one canonical chain answer every bitmap read alike, at the head and at every block, whatever their histories |
| Reads.GetEntity | store/query.go:180-190 | the entity live at that address at block n, with both error cases |
| Reads.IDToAddress | store/query.go:208-214 | an ID resolves exactly when the ID cache holds it |
| Glob.GlobMatch | store/query.go:261-288 | true if and only if the string splits into one segment per pattern byte, any for `*`, one byte for `?`, the byte itself otherwise |
| Glob.MatchStar | store/query.go:263-275 | a star matches exactly when some suffix matches the rest of the pattern |
| Glob.OneByte | store/query.go:257-260 | `*` alone matches everything, `?` alone one byte, any other byte itself |
| Glob.MatchConcat | store/query.go:261-288 | two patterns side by side match exactly the strings that split into a match of each |
| Glob.PrefixGlob | query/evaluate.go:52-61 | accepts exactly the patterns that are a wildcard-free prefix and one final star, and returns that prefix |
| Glob.PrefixGlobMatches | query/evaluate.go:50-61 | such a pattern matches exactly the strings that start with the prefix |
| Scans.PrefixSuccessor | store/query.go:245-255 | the least string above every extension of the prefix, none exactly when no such string exists; the extensions are the interval up to it |
| Scans.LoadBitmapFromPointer | store/query.go:226-240 | the stored bitmap behind a pointer, in a fresh object, or nothing |
| Scans.ByteRangeExact | store/query.go:216-222 | on the key bytes, a prefix scan from a starting suffix meets exactly the pointers of one annotation key from that value on |
| Scans.PointersClean | store/keys.go:30-35 | every pointer that mirrors a trie has a NUL-free annotation key, so the byte range misses none and meets no other |
| Scans.IterateNumericAnnotBitmaps | store/query.go:81-109 | start seek, length skip and early break together return the union of all buckets with an eight-byte value in [lo, hi] |
| Scans.IterateStringAnnotBitmaps | store/query.go:114-144 | the union of all buckets with a non-empty value within the optional bounds |
| Scans.IteratePrefixAnnotBitmaps | store/query.go:148-151 | the union of all buckets with a non-empty value that starts with the prefix, all-0xFF prefixes included |
| Scans.IterateGlobAnnotBitmaps | store/query.go:155-176 | the union of all buckets with a non-empty value that matches the pattern |
| Scans.FastPathExact | query/evaluate.go:193-199 | whenever the prefix fast path is taken it selects what the full glob scan would |
| Scans.ScanDone | store/query.go:89-108 | a scan that starts and stops where the test fails for everything left out has found every matching bucket |
| Normalize.NormalizeLeaf | query/normalize.go:188-222 | values of `$key`, `$owner` and `$creator` are lowered, other leaves stay; the inclusion loop keeps order and length |
| Normalize.InvertAnd | query/normalize.go:156-174 | the loop builds the inverted disjunction |
| Normalize.InvertOr | query/normalize.go:74-97 | the loop builds the inverted conjunction of parenthesised parts |
| Normalize.InvertedMeans | query/normalize.go:46-61 | the inverted expression means what the expression means under one more negation |
| Normalize.InvertedRank | query/normalize.go:46-97 | inverting may add a layer of parentheses but only plain ones, so the rank stays below that of the negated parentheses |
| Normalize.ParenRank | query/normalize.go:260-268 | what normalising parentheses recurses into ranks strictly below them, lexicographic in depth and negation |
| Normalize.NormalizeExpression | query/normalize.go:39-44 | terminates for every tree and returns the normal form |
| Normalize.NormalizeOr | query/normalize.go:63-72 | the loop appends the normal forms of all disjuncts |
| Normalize.NormalizeAnd | query/normalize.go:131-154 | the nested loops build the distribution of all conjuncts |
| Normalize.ConvertToTerms | query/normalize.go:116-129 | terms of a leaf, or of the normalised parentheses |
| Normalize.SatProduct | query/normalize.go:141-151 | the distributed product holds exactly when both factors hold |
| Normalize.MeaningPreserved | query/normalize.go:39-174 | for every tree and every interpretation of the leaves, the normal form holds exactly when the expression does, with negation carried to the leaves |
| Normalize.ExprNonEmpty | query/normalize.go:137-154 | no conjunction of a normal form is empty, so the empty-conjunction branch of evaluation is never taken |
| Evaluate.EvaluateLessThan | query/evaluate.go:132-141 | every entity with a value below the bound, exact for every number including 0 |
| Evaluate.EvaluateLessOrEqualThan | query/evaluate.go:144-149 | every entity with a value up to the bound |
| Evaluate.EvaluateGreaterThan | query/evaluate.go:152-161 | every entity with a value above the bound, exact for every number including 2^64-1 |
| Evaluate.EvaluateGreaterOrEqualThan | query/evaluate.go:164-169 | every entity with a value from the bound on |
| Evaluate.EvaluateEquality | query/evaluate.go:173-187 | the bucket of the value at the requested block, or its complement among the entities live there; unknown blocks are errors |
| Evaluate.EvaluateGlob | query/evaluate.go:193-209 | the matching buckets at the head by either scan, or their complement at the requested block |
| Evaluate.EvaluateInclusion | query/evaluate.go:212-242 | the union over all candidates, or its complement; which inputs fail on an unknown block |
| Evaluate.EvaluateAnd | query/evaluate.go:91-108 | the intersection of the terms in a bitmap nobody else holds |
| Evaluate.EvaluateOr | query/evaluate.go:78-88 | the union of the conjunctions in a bitmap nobody else holds |
| Evaluate.EvaluateAst | query/evaluate.go:66-75 | the selected set for every block number, failing exactly when a leaf reads an unknown block; the store is not changed |
| Answers.LeafExact | query/evaluate.go:110-242 | at the head a leaf selects exactly the live entities that meet it |
| Meanings.LeafMeaning | query/evaluate.go:35-48 | for each of the seven kinds of leaf, with text and with numbers: which values an entity must carry to meet it |
| Meanings.TextEqualityFinds | query/evaluate.go:43-48 | `name = "text"` over a user key finds exactly the live entities with that very text, or with a number stored as those bytes |
| Meanings.ContentTypeFinds | store/ops.go:35 | `$contentType = "text"` finds exactly the live entities whose record has that content type |
| Meanings.SpelledQueries | query/normalize.go:377-391 | `$owner`, `$creator` and `$key` with hexadecimal text in any case find exactly the entities with that owner, creator or key |
| Meanings.OtherLeavesStay | query/normalize.go:377-391 | leaves over all other keys are not changed by normalisation |
| Meanings.HexNumbersFindNothing | query/normalize.go:401-418 | numbers listed for a hexadecimal key are dropped, so the inclusion finds nothing |
| Answers.QueryExact | query/evaluate.go:63-129 | at the head, normalising and evaluating selects exactly the live entities that satisfy the query as written |
| Answers.HistoricalExact | query/evaluate.go:63-129 | a query of equalities and inclusions at an earlier block selects exactly the entities that satisfied it there, whatever the head holds |
| Answers.HexQuery | query/normalize.go:377-391 | an owner, creator or key query finds exactly the entities of that value, however the hexadecimal digits are capitalised |
| Answers.HexInclusion | query/normalize.go:401-418 | an inclusion over owners, creators or keys finds exactly the entities whose value is listed, in any capitalisation |
| Negation.NotIsComplement | query/normalize.go:46-61 | at any nesting, a negated expression selects AllEntities minus the expression when every live entity has one value of each key its ranges look at |
| Negation.MeansPlain | query/normalize.go:46-61 | where inverting negates every leaf, the polarity-aware meaning is that of the ordinary boolean formula |
| Negation.PlainQueryExact | query/evaluate.go:63-129 | at the head, a query whose ranges are decided selects exactly the live entities that satisfy it as an ordinary boolean formula |
| Negation.NotIsComplementBuiltin | query/normalize.go:46-61 | so it does in every ledger when the ranges are on `$expiration` and `$createdAtBlock` |
| Negation.RangesComplementIff | query/normalize.go:304-375 | for each operator pair and each kind of bound, an entity meets exactly one of a range and its inversion for every bound if and only if it has exactly one value that such a range looks at |
| Negation.RangeSetsComplementIff | query/normalize.go:304-375 | the selected sets are complements for every bound if and only if every live entity has exactly one such value; eight bytes for numbers, non-empty for text |
| Negation.RangeMeetsBoth | query/normalize.go:304-375 | an entity with two such values meets, for some bound, both the range and its inversion |
| Negation.RangeMeetsNeither | query/normalize.go:304-375 | an entity without such a value meets neither, for any bound |
| Negation.RangeGap | query/normalize.go:304-375 | a one-block chain on which a range over a user key and its inversion are both empty while an entity is live |
| Negation.RangeOverlap | query/normalize.go:304-375 | a one-block chain on which, for each pair and kind, some range and its inversion both select the entity |
| History.HistoricalQueryExact | query/evaluate.go:63-129 | a query whose leaves, and their inversions, answer every block exactly selects at any block of a canonical chain exactly the entities that satisfied it there |
| History.ExactOnChainsIff | query/evaluate.go:110-209 | for every leaf of the grammar: it answers every block of every canonical chain exactly if and only if it is an equality or inclusion, or its text alone rules out every value that an entity on a chain can carry |
| History.NothingHit | store/ops.go:293-305 | a leaf that hits no storable value selects nothing at any block of any chain; text never ends in NUL and creation blocks are positive |
| History.StorableStored | store/ops.go:102-142 | every storable value of a key is carried by an entity that some block creates |
| History.GlobSatisfiable | store/query.go:261-288 | a glob that some storable text matches passes the test on its text: it is not empty, and if it ends in NUL it fits eight bytes |
| History.RangeSatisfiable | query/evaluate.go:132-169 | a range that some storable value meets is met by the extreme value computed from the leaf |
| History.HistoricalScanWrong | store/query.go:78-81 | for every range or glob and every block from the second on: a chain whose last block creates an entity that the leaf hits, and the leaf, asked one block earlier, selects it although nothing was live there |
| History.HistoricalDeletedWrong | store/query.go:78-81 | create then delete: asked at the block of the create, a range or glob that the entity hits misses it, and a negated glob selects it |
| History.HistoricalNotGlobWrong | query/evaluate.go:193-209 | a two-block chain on which a negated glob, asked at the first block, selects an entity that carries the very text it excludes |
| History.HistoricalExpirationWrong | store/query.go:78-81 | `$expiration >= 0` is such a leaf, whatever is created |
| Numbers.NumericMeets | store/query.go:96-103 | a numeric range meets an entity through its numbers and through its strings of eight bytes, exactly |
| Numbers.NumbersDecideIff | store/query.go:96-103 | all numeric ranges over a key go by an entity's numeric annotations if and only if every eight-byte string of the key lies between two of them |
| Numbers.RangesSelectByNumberIff | query/evaluate.go:132-169 | on results: numeric ranges select exactly the live entities with a number in range if and only if all live entities are so |
| Numbers.NumericEqualityIff | query/evaluate.go:173-187 | numeric equalities go by numeric annotations if and only if every eight-byte string of the key is also a number of it |
| Numbers.LookAlikeMeets | store/query.go:96-103 | an entity without numeric annotations meets a numeric range through an eight-byte string, so its numbers do not decide |
| Numbers.LookAlikeStored | store/ops.go:293-305 | a one-block chain that stores such an entity, for every number whose last byte is not zero: the range selects it |
| Paging.Query | query/server.go:132-217 | the response holds, in order, the entities of the page that `IsPage` describes for answer, cursor and page size, with the next cursor; the error case |
| Paging.CollectPage | query/server.go:181-206 | the batched loops, with skipped IDs, yield the same page as taking IDs one at a time |
| Paging.NextBatch | query/server.go:182-189 | a batch is the next IDs up to its size or the end |
| Paging.ResultsPerPage | query/server.go:50-55 | a requested size of at most 200 is kept; without one, or above it, a page holds 200 |
| Paging.CursorCuts | query/server.go:160-165 | restricting to IDs below the cursor leaves exactly the rest of the list |
| Paging.PageIs | query/server.go:160-214 | a page holds the largest resolvable result IDs below the incoming cursor, as many as fit; it has a cursor, its last ID, exactly when it is full and result IDs are left |
| Paging.ApplyCursor | query/server.go:160-168 | the result keeps exactly the IDs strictly below the cursor |
| Paging.PageFits | query/server.go:180-206 | no page is over its limit, even when IDs are skipped |
| Paging.PagesPartition | query/server.go:160-214 | following cursors ends, the joined pages are the resolvable result IDs in strictly descending order, each once, and every page but the last is full |
| Paging.EmptyPage | query/server.go:180-214 | a page size of zero gives an empty page and no cursor |
| Paging.PagesAnswerQuery | query/server.go:132-217 | at the head, when live IDs resolve, the joined pages are exactly the live entities that satisfy the query as written |
| Paging.PagesAnswerAt | query/server.go:132-217 | at any canonical block, for queries whose leaves answer it exactly, the joined pages are the entities that satisfied the query there and whose IDs are still cached |
| Paging.PagesOnRuns | query/server.go:191-200 | along every run such a page holds an entity if and only if it satisfied the query there and was live at the ancestor of every revert since its block was last applied |
| Paging.PagesLoseEntity | query/server.go:191-200 | a run with one revert after which the answer at block 1 is one entity and its page is empty without a cursor |
| CacheStores.StateDB.IncrementEntityCount | store/system.go:32-38 | the next ID is the count plus one modulo 2^64 and only the count changes |
| CacheStores.StateDB.SetIDSlot | store/system.go:59-63 | the slot of the ID holds the address; the zero address is a zero slot |
| CacheStores.StateDB.ClearIDSlot | store/system.go:65-67 | the slot of the ID becomes zero |
| CacheStores.StateDB.InitSystemAccount | store/system.go:19-24 | the system account exists afterwards and nothing else changes |

## Left out

- go-ethereum's trie, keccak, RLP and roaring serialisation: tries are immutable values behind symbolic roots and bitmaps are finite sets, so collisions and decoding errors do not occur.
- Trie-node keys are not part of the byte layout in `Keys.Encode`; they are raw 32-byte hashes chosen by the trie database.
- Empty-account pruning by the trie at commit: an account without code is simply absent.
- Creates at the zero address or the system address: the registry contract does not emit them, and blocks that hold them are not modelled.
- More than 2^64 - 1 creates on one chain: the ID counter would wrap; `CacheStores.StateDB.IncrementEntityCount` models the wrap, the chain-level lemmas assume it is not reached.
- Sharing of entity and bitmap objects inside the write buffer: the dirty maps hold values that are reassigned, so changing an object through a second reference is not captured. Query bitmaps are objects.
- Locks and concurrent readers: each method is one step, and no snapshot across several leaves of one query is claimed under concurrent writes.
- A crash in the middle of a batch write: a batch is one atomic step.
- Go map iteration order is a free choice in the loops over maps and sets; key-value iterators are modelled by their keys, in byte order for annotation scans.
- Query keys that hold a NUL byte: identifiers cannot contain one, so scans are modelled on clean keys.
- `strings.ToLower` outside ASCII: only ASCII letters are lowered.
- A number compared with `$key`, `$owner` or `$creator` makes the code dereference a nil pointer; parsed leaves are assumed to hold text there.
- Lexer and parser, JSON-RPC and HTTP servers, configuration, logging, the choice of returned fields and the textual form of cursors.
- Scans.IterateStringAnnotBitmaps: states the result for non-empty values only, because the scan skips an entry with an empty value; the prefix and glob scans do the same.
- `CommitChain` in `chain/server.go:21-32`: the loop of `Stores.Store.ApplyBlocks`; its zero root in answer to an empty list is not modelled.
- GetEntityBytes, GetEntityCount and GetEntityByAddress: single calls of reads that are modelled.
