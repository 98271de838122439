# A verified model of an authenticated archive store

This project models, in Dafny, the four storage components of the crate whose
properties are hardest to see from the code, and proves what they promise.

**The authenticated Patricia trie** (`Bit*`, `Key*`, `Prefix*`, `Content*`,
`Patricia*`). `PatriciaTree` is the trie as a value over bit strings; its central
lemma is that a well-formed tree is determined by the map it stores, so point
updates, the bulk merge and the builder agree as soon as they agree on maps.
`PatriciaNodes` to `PatriciaVisit` are the traversals of stored and staged nodes,
as functions of any store whatsoever and as the loops that compute them.
`PatriciaSink`, `PatriciaPublication` and `PatriciaConstruction` are construction
mode: staging, the sorted merge into a sink, publication child before parent under
failures, and a driver over whole runs.

**Packed storage** (`Pack*`). `PackCodec` is the file format; `PackTiers`,
`PackGrowth` and `PackPlan` the size tiers, their compaction and its cost;
`PackStream` the streaming compaction; `PackAppend` an append to a catalog;
`PackRefusal` an append that the guard refuses;
`PackedProtocol` a state machine of readers, a publisher, a reclaimer and crashes
over one directory.

**The local journal** (`BinaryLayout`, `Journal*`, `FrontierCodec`). The frame and
frontier codecs, version 1 recovery by scanning, and version 2 as a class over a
disk with synced and unsynced parts, appended to, crashed and reopened in any order.

**The scratch index** (`Scratch*`, with `SortedRecords` and `KeyOrder`). The
append buffer, the 32-level index as a binary counter, its read paths, and the
session cache.

The hypotheses are explicit in the `requires` clauses, and speak only of what is in
play: for the trie, the nodes of well-formed trees over the records that the index
ever holds (`PatriciaNodes.Fit`). `PatriciaNodes.Faithful` says that no two such nodes
collide, that each is restored from its bytes, that its bytes are within the size bound,
and that none has the digest of the empty root; `PatriciaNodes.Own` says that stored
bytes collide with none of them. `PatriciaWitness.HypothesesHold` gives a serialiser
and a 32-byte hash that meet all this, with a leaf for each of two records and a branch
over both. `PackedProtocol.CollisionFree` speaks of the contents ever published, and
`PackedProtocol.ReclaimUnderUnsettledHead` shows a codec that meets it. The journal and
the scratch index ask that their serialisers have a left inverse, and the journal that
digests have 32 bytes and are not all zero.

## What the proofs found

- A lookup or removal of an absent key is refused as malformed exactly when stored
  keys extend the key on both sides (`ForksAt`); every other absent key is answered.
- A version 1 append torn after at least 52 bytes makes every later open refuse:
  recovery cuts off only what is too short for any frame (`JournalV1.TornAppend`).
- Reopening a version 2 segment does not sync the directory. What it replays
  survives a further crash if and only if the frontier it read was already durable
  (`JournalV2.SurvivesWhenSynced`). Confirmed appends always survive.
- Reclamation reads the head through the running system, and on Unix its preflight
  does nothing. If the last head transition was installed but its barrier failed, a
  crash may bring back the earlier head after its files were removed. The exact
  condition is `PackedProtocol.ReclaimIsSafe`; a head whose last barrier succeeded
  meets it. File systems that order the renames of one directory exclude the case.
- The lifetime factor on bytes selected for compaction is at most 20, the number of
  tiers, where the constant in the source is 160 (`src/packed_patricia.rs:99-103`).
- The entry-count bound of packs can never bite before the byte bound.
- Above 16 MiB of pack bytes a carry may be cut into several packs, and the last of them
  may fall into a lower tier and come back up. The guard behind compaction then refuses
  appends to tier-bounded catalogs within all limits. `PackRefusal.GuardRefuses` is one:
  packs of 64, 66, 66, 66 and of 14, 14, 14, 14 entries of 128 KiB, to which 191 more are
  appended. Carrying tier 18 leaves a rest of eight entries, which overfills tier 15, and
  the carry of that fills tier 18 up again. No append is refused that a caller can see to
  have room: one pack that fits into one pack together with the packs of all full tiers from
  its own tier up (`PackGrowth.HasRoom`). All appends within 16 MiB have room, and so have
  packs of tier 15 or below while none of the four highest tiers is full. The factor of
  twenty holds for every history of appends with room.
- A scratch flush that fails after writing a part keeps its buffer and writes all of it
  again, behind that part. Offsets handed out for buffered records are right after the
  repetition if and only if no byte of the failed write arrived (`ScratchLog.RetriedFlush`,
  `src/scratch.rs:509-522`).

## Model

| member | source | states |
|---|---|---|
| PrefixBytes.KeyBitIs | src/authenticated_patricia.rs:2717-2722 | testing a byte against a shifted mask reads bit `bit` of the key, most significant bit first |
| PrefixBytes.CommonPrefixBitsIs | src/authenticated_patricia.rs:2704-2709 | the counted common bits are the longest common prefix of the two bit strings, cut at the limit |
| PrefixBytes.MaskedPrefixIs | src/authenticated_patricia.rs:2745-2754 | masking keeps exactly the requested bits and clears the rest of the last byte |
| PrefixBytes.CanonicalPrefix | src/authenticated_patricia.rs:2633-2666 | the node check on a branch prefix accepts exactly the packed form of its own bits |
| KeyBits.PrefixIsBytePrefix | src/authenticated_patricia.rs:2711-2715 | between whole keys, bit prefix and byte prefix are the same relation |
| KeyBits.LessIsBitLess | src/authenticated_patricia.rs:844-894 | byte order of keys is the bit order in which the trie stores them |
| PatriciaTree.Canonical | src/authenticated_patricia.rs:2633-2688 | two trees whose nodes pass the node and path checks and that store the same map are the same tree, node for node |
| PatriciaTree.ContentsPrefixFree | src/authenticated_patricia.rs:1815-1840 | no tree holds a key beside a proper extension of it |
| PatriciaTree.PathIsLongest | src/authenticated_patricia.rs:2668-2688 | a branch path is the longest prefix common to all keys below it |
| PatriciaPoint.InsertSpec | src/authenticated_patricia.rs:1719-1840 | an insert succeeds if and only if the keys stay prefix-free, and then the tree stores the old map with that one key overridden |
| PatriciaPoint.LookupFinds | src/authenticated_patricia.rs:760-801 | every stored key is found with its value |
| PatriciaPoint.LookupOfAbsent | src/authenticated_patricia.rs:788-791 | an absent key is answered "absent", except that it is refused exactly when stored keys extend it on both sides |
| PatriciaPoint.RemoveDrops | src/authenticated_patricia.rs:1416-1495 | removing a stored key succeeds and leaves a well-formed tree of the map without it |
| PatriciaPoint.RemoveOfAbsent | src/authenticated_patricia.rs:1367-1370 | removing an absent key changes nothing, or is refused in exactly the cases in which its lookup is |
| PatriciaPoint.RemoveUndoesInsert | src/authenticated_patricia.rs:1336-1414 | removing a key that an insert added gives back the earlier tree itself |
| PatriciaPoint.RunSpec | src/authenticated_patricia.rs:1336-1813 | over prefix-free keys no operation of any run is refused and the tree stores the map the run computes |
| PatriciaPoint.HistoryIndependent | src/authenticated_patricia.rs:1719-1813 | two runs of inserts and removals that end in the same map end in the same tree, wherever they began |
| PatriciaBulk.RunIsDerived | src/authenticated_patricia.rs:920-938 | after any run of inserts and removals the tree is the one derived from nothing but the records of the resulting map |
| PatriciaBulk.BuildSpec | src/authenticated_patricia.rs:1497-1529 | building a sorted batch succeeds if and only if it is prefix-free, and the tree then holds exactly the batch |
| PatriciaBulk.MergeSpec | src/authenticated_patricia.rs:1560-1700 | merging a sorted batch into a tree succeeds if and only if the union of keys is prefix-free, and then overrides the map |
| PatriciaBulk.ThreeWaysAgree | src/authenticated_patricia.rs:1170-1263 | folding single inserts, merging in bulk and building the overridden map from nothing succeed on the same batches with the same tree |
| PatriciaNodes.TreeDigestInjective | src/authenticated_patricia.rs:380-395 | equal digests of well-formed trees mean equal trees, all the way down |
| PatriciaNodes.RootDigestInjective | src/authenticated_patricia.rs:254-278 | equal roots mean equal indexes, the empty root included |
| PatriciaNodes.NodeOfIsValid | src/authenticated_patricia.rs:2633-2666 | every node of a well-formed tree passes the node check |
| PatriciaNodes.StoredNodeReads | src/authenticated_patricia.rs:2479-2507 | bytes stored under the digest of a node in play, loose or packed or both, are read as that node |
| PatriciaLookup.BudgetSuffices | src/authenticated_patricia.rs:2728-2739 | in any store at all, malformed or not, a lookup never spends its node budget and reads at most one node per remaining prefix bit, and one more |
| PatriciaLookup.LookupIsBounded | src/authenticated_patricia.rs:760-801 | every lookup in every store reads at most eight nodes per key byte, and one more |
| PatriciaLookup.LookupAnswersMap | src/authenticated_patricia.rs:760-801 | over readable nodes the stored lookup answers as the map does, with the one refused family named exactly |
| PatriciaLookup.LookupKey | src/authenticated_patricia.rs:760-801 | the lookup loop computes the specified traversal of any store, errors included |
| PatriciaWitness.LookupRefused | src/authenticated_patricia.rs:788-791 | a concrete store with the keys [1, 0] and [1, 128], in which the lookup of the absent key [1] is refused as malformed |
| PatriciaInsert.InsertAtStaged | src/authenticated_patricia.rs:1719-1813 | the insert loop leaves the outcome and the staged nodes of the specified insertion into any store |
| PatriciaInsert.StageTree | src/authenticated_patricia.rs:380-395 | staging the node of a tree whose children are readable returns its digest and makes the tree readable, adding at most that node and disturbing none |
| PatriciaInsert.InsertRootIndex | src/authenticated_patricia.rs:1702-1813 | over a readable root the stored insertion succeeds when the tree insertion does, with its root digest, every new node readable and no staged node disturbed |
| PatriciaInsert.InsertIsBounded | src/authenticated_patricia.rs:1719-1794 | no insertion into any store runs out of its node budget |
| PatriciaInsert.ReadableGrows | src/authenticated_patricia.rs:1842-1851 | a readable tree stays readable, node for node, whatever is staged later |
| PatriciaRemove.RemoveConstructed | src/authenticated_patricia.rs:1416-1495 | the removal loop leaves the outcome and staged nodes of the specified removal from any store |
| PatriciaRemove.RemoveRootIndex | src/authenticated_patricia.rs:1416-1495 | over a readable root the stored removal does what the tree removal does, and stages only readable nodes |
| PatriciaRemove.RemoveIsBounded | src/authenticated_patricia.rs:1416-1480 | no removal from any store, malformed or not, runs out of its node budget |
| PatriciaVisit.CollectPrefix | src/authenticated_patricia.rs:2389-2459 | the stack loop of the prefix visit returns what the recursive visit of any store returns |
| PatriciaVisit.CollectAnswersMap | src/authenticated_patricia.rs:829-842 | a limited prefix lookup returns exactly the first `limit` records of the map whose key starts with the prefix, in key order |
| PatriciaVisit.VisitAllAnswersMap | src/authenticated_patricia.rs:844-894 | the full visit yields every record of the map once, in strictly ascending key order |
| PatriciaVisit.CollectIsBounded | src/authenticated_patricia.rs:2389-2459 | no path of a visit of any store, whose staged nodes passed the node check, exhausts its node budget |
| PatriciaVisit.CollectInOrder | src/authenticated_patricia.rs:2668-2688 | in any store, well-formed or not, a visit yields strictly ascending keys: the path checks keep subtrees apart |
| PatriciaSink.SinkRecordsTree | src/authenticated_patricia.rs:1497-1529 | building a batch into the sink gives the digest of the built tree, every sunk node after its children; the only other answer is a sink with no room left for some node |
| PatriciaSink.SinkMergeTree | src/authenticated_patricia.rs:1560-1700 | over a stored tree, sinking the merge gives the digest of the merged tree, with every node of it on disk once the sink is, children first; the only other answer is a sink with no room left for some node |
| PatriciaSink.DeriveRecordsTree | src/authenticated_patricia.rs:1531-1558 | the complete-root derivation is the digest of the tree the builder makes |
| PatriciaSink.SinkBulkInsertAt | src/authenticated_patricia.rs:1560-1700 | the recursive merge leaves result and sink as specified, for any store and any batch |
| PatriciaSink.SinkBulkRecords | src/authenticated_patricia.rs:1497-1529 | the recursive builder leaves result and sink as specified |
| PatriciaSink.BulkPartition | src/authenticated_patricia.rs:2549-2560 | the partition point is the number of leading zero bits, and a batch that mixes sides or ends early is refused |
| PatriciaSink.SinkTree | src/packed_patricia.rs:937-1000 | a node taken after its children gets its digest, the sink order stays child before parent, and lack of room is the only refusal |
| PatriciaPublication.WritingAdvances | src/authenticated_patricia.rs:2054-2057 | writing a node whose children are stored leaves the disk closed under children, whether the staged copy is dropped or not |
| PatriciaPublication.AdvancesKeeps | src/authenticated_patricia.rs:1842-1877 | moving nodes from memory to disk loses no readable tree |
| PatriciaPublication.StagedOrStored | src/authenticated_patricia.rs:1985-2069 | a readable tree whose top is not staged is on disk down to its leaves, so the walk may skip it |
| PatriciaPublication.UpToSound | src/authenticated_patricia.rs:2071-2153 | any beginning of the sink order may reach the disk and leave it closed |
| PatriciaPublication.PublishRootLoose | src/authenticated_patricia.rs:1985-2069 | publishing below one root keeps the store sound after every single write, confirmed or not, loses no tree, and on success the root is stored whole |
| PatriciaPublication.PublishSink | src/authenticated_patricia.rs:2071-2153 | a sink is published packed or loose, possibly failing at any point, and the store stays sound; on success everything sunk is stored |
| PatriciaPublication.PublishRoots | src/authenticated_patricia.rs:1879-1983 | publishing several roots, with fallback from packed to loose, keeps every tree and on success stores every root |
| PatriciaConstruction.BulkIsMany | src/authenticated_patricia.rs:1170-1263 | the merge and the fold accept the same batches and agree, so falling back changes no root |
| PatriciaConstruction.Construction.Checkpoint | src/authenticated_patricia.rs:564-575 | from then on every node below the checkpointed roots is staged or stored, through all later calls |
| PatriciaConstruction.Construction.SetLiveRoots | src/authenticated_patricia.rs:580-586 | replaces the live set without losing a promised root; the new live roots that can be read stay readable through all calls until the next replacement |
| PatriciaConstruction.Construction.PrepareMutation | src/authenticated_patricia.rs:601-646 | a budget flush, whether it succeeds or fails, keeps the in-progress root and all held roots readable |
| PatriciaConstruction.Construction.PersistInProgressRoot | src/authenticated_patricia.rs:648-668 | on success the root of the coming merge is on disk; on failure nothing is lost |
| PatriciaConstruction.Construction.InsertMany | src/authenticated_patricia.rs:1142-1163 | the answer is the root digest of the tree insertion of the batch, or a failure that loses nothing |
| PatriciaConstruction.Construction.RemoveMany | src/authenticated_patricia.rs:1265-1284 | the answer is the root digest of the index that `RemoveSortedSpec` describes, a refusal exactly when that lemma says so, or a failure with an excuse; whichever it is, no held root is lost |
| PatriciaConstruction.RemoveSortedSpec | src/authenticated_patricia.rs:1265-1284 | removing a batch is refused exactly when two keys are out of order, a key is invalid, or a key is absent where stored keys extend it on both sides once the keys before it are gone; otherwise what is left is the map without the keys |
| PatriciaConstruction.StoredAreRemoved | src/authenticated_patricia.rs:1265-1284 | strictly ascending valid keys that are all stored are never refused and are all removed |
| PatriciaConstruction.Construction.InsertManyBulk | src/authenticated_patricia.rs:1170-1263 | whether it merges, falls back or flushes half-way, the answer is the root that inserting one by one gives |
| PatriciaConstruction.Construction.Finish | src/authenticated_patricia.rs:1286-1318 | on success nothing is staged and every held root is stored; on failure all stay readable and it can be retried |
| PatriciaConstruction.Drive | src/authenticated_patricia.rs:564-1318 | over any run of batches, removals, live-root replacements and finishes, failed or retried at any point, the disk is closed throughout and every root that was ever current or last declared live stays readable; when no publication fails and the memory budget refuses nothing, every request that is not refused takes effect and a finish leaves nothing staged |
| PackCodec.DecodeBuilt | src/packed_patricia.rs:264-335 | every valid pack of own digests is built, and decoding it under its digest gives its entries back |
| PackCodec.BuildDecoded | src/packed_patricia.rs:434-508 | accepted schema-2 bytes are exactly what building their entries produces |
| PackCodec.BuildIs | src/packed_patricia.rs:264-335 | building succeeds exactly on valid packs of entries under their own digests |
| PackCodec.DecodeIs | src/packed_patricia.rs:434-508 | decoding succeeds exactly on the bytes of valid packs of own digests, of schema 2 or of the legacy schema with at most 4096 entries, under the digest of those bytes, and gives those entries |
| PackCodec.Find | src/packed_patricia.rs:510-543 | binary search over the index bytes of anything that decodes, legacy packs included, equals lookup in the entry map |
| PackTiers.PartitionSpec | src/packed_patricia.rs:3089-3121 | the cut covers all entries in order and every part is a valid pack within the byte bound, full when closed |
| PackTiers.GreedyIsUnique | src/packed_patricia.rs:3089-3121 | any two greedy cuts of the same entries are the same cut |
| PackTiers.CountBoundIsImplied | src/packed_patricia.rs:82-90 | within the byte bound the entry-count bound holds by itself |
| PackTiers.GetFinds | src/packed_patricia.rs:1515-1526 | lookup finds a value if and only if some layer holds it |
| PackTiers.SameAnswers | src/packed_patricia.rs:1515-1526 | consistent layouts that hold the same answer every digest alike, whatever the order of layers |
| PackTiers.CarryMeansTheSame | src/packed_patricia.rs:2887-3031 | a carry over any consistent layout keeps every digest and its bytes, or gives up on size |
| PackTiers.CarryIs | src/packed_patricia.rs:2887-3031 | a carry replaces the first five packs of the tier by the greedy cut of all they hold, and gives up exactly when that is five parts or more, all of that tier again |
| PackTiers.CompactMeansTheSame | src/packed_patricia.rs:2887-3031 | compaction of any consistent layout, however overfull, answers every digest as before, and size is its only refusal |
| PackTiers.CompactionIsShort | src/packed_patricia.rs:2887-3031 | a compaction carries at most twenty times, each tier at most once, and selects exactly five packs in each carry |
| PackGrowth.TierBounds | src/packed_patricia.rs:3083-3087 | the tier of a pack is one of the twenty and gives its size up to a factor of two |
| PackGrowth.CarryLandsHigher | src/packed_patricia.rs:91-103 | five packs of a tier merged into one land in a strictly higher tier, and the byte potential pays for reading them |
| PackGrowth.CompactWithRoom | src/packed_patricia.rs:2887-3031 | where the overfull tier and the full tiers above it fit into one pack, compaction succeeds, ends with at most four packs in every tier, and its selected bytes are paid for by the potential |
| PackGrowth.AppendInBounds | src/packed_patricia.rs:1636-1839 | an append within bounds succeeds: compaction ends with all tiers bounded, and neither the limits of the catalog nor the guard behind it refuse |
| PackGrowth.AppendWithRoom | src/packed_patricia.rs:1743-1770 | for duplicate-free tier-bounded catalogs of any size up to 64 MiB: an append of one pack that fits into one pack together with the full tiers from its own up succeeds and leaves all tiers bounded, so neither the catalog limits nor the guard refuse it |
| PackGrowth.SmallDeltaHasRoom | src/packed_patricia.rs:1743-1770 | a pack of tier 15 or below has that room whenever none of the four highest tiers is full |
| PackGrowth.RoomyHistoryIsAmortised | src/packed_patricia.rs:91-103 | over any history whose appends have room, up to 64 MiB, the layout holds exactly the deltas and the bytes ever selected are at most twenty times the delta bytes |
| PackRefusal.GuardRefuses | src/packed_patricia.rs:1764-1770 | a concrete tier-bounded catalog and delta for which compaction ends within the limits of a catalog and the append is refused all the same, because tier 18 holds five packs again after it was carried |
| PackRefusal.HistoryEndsRefused | src/packed_patricia.rs:1764-1770 | eight admitted appends of one pack each lead from the empty catalog to that layout, and the ninth append is the refused one |
| PackRefusal.AppendEntriesRefused | src/packed_patricia.rs:1636-1770 | the refused delta consists of new entries under their own digests |
| PackGrowth.HistoryIsAmortised | src/packed_patricia.rs:91-103 | over any history within bounds all appends succeed, the layout holds exactly the deltas, and the bytes ever selected are at most twenty times the delta bytes |
| PackStream.ShapesCut | src/packed_patricia.rs:1842-1880 | planning by shapes and cutting by ordinals is the greedy cut, sizes included |
| PackStream.StreamIsMerge | src/packed_patricia.rs:2325-2427 | where duplicates agree, the heap merge yields the entries of the in-memory merge in the same order |
| PackStream.StreamedCompaction | src/packed_patricia.rs:2668-2753 | on every consistent layout the streaming compaction gives the same packs in the same order as the in-memory one, or fails alike |
| PackStream.FiveWayMerge.NextUnique | src/packed_patricia.rs:2387-2417 | one call yields the next entry of the stream, moves every cursor at its digest on, and refuses unequal duplicates |
| PackStream.PlanMergedStream | src/packed_patricia.rs:2429-2500 | one pass over the heap gives the shapes of the greedy cut, or the stream error |
| PackPlan.PartitionPublications | src/packed_patricia.rs:3089-3121 | the loop cuts as the greedy cut does and refuses an empty map |
| PackPlan.CompactSizeTiers | src/packed_patricia.rs:2887-3031 | the compaction loop computes the specified layout and counts exactly the bytes of the packs it selects |
| PackPlan.CompactLabelled | src/packed_patricia.rs:2887-3031 | kept packs stay named by their catalog position, in catalog order and without repetition |
| PackPlan.Finish | src/packed_patricia.rs:1066-1089 | each kept pack is taken from the old catalog exactly once, and the installed packs are the planned ones |
| PackAppend.AppendAnswers | src/packed_patricia.rs:1636-1839 | after a successful append, lookups give the appended bytes for appended digests and what they gave before for all others; when it succeeds is said by the next four rows |
| PackAppend.FirstOffenceDecides | src/packed_patricia.rs:1664-1696 | the first entry of a bad size, not under its digest, or held with other bytes decides the error: its size first, and its digest else |
| PackAppend.AppendOutcome | src/packed_patricia.rs:1656-1703 | where no entry offends, the answer is "nothing new" exactly when every digest is held already, "empty" exactly for no entries, and the only other refusal is for size |
| PackAppend.AppendSucceeds | src/packed_patricia.rs:1636-1839 | new entries that fit into one pack with the full tiers from their own tier up, or with everything there, are published, and the tiers stay bounded |
| PackAppend.AppendBeside | src/packed_patricia.rs:1636-1839 | new entries whose greedy cut overfills no tier are published as those packs, beside all that was there |
| PackedProtocol.StepKeeps | src/packed_patricia.rs:1159-1279 | every step of readers, publisher, reclaimer or crash keeps every possible head complete and settled, and only a moved head or a crash changes what discovery finds |
| PackedProtocol.EveryRun | src/packed_patricia.rs:1346-1378 | with crashes anywhere and reclaimers that start under the condition of `ReclaimIsSafe`: discovery never fails and opens bytes that hash to their names, readers still find what they opened, and one more step shows the old or the new catalog |
| PackedProtocol.EveryRunWhilePowered | src/packed_patricia.rs:1196-1378 | the same of every interleaving until power is first lost, whenever reclaimers start |
| PackedProtocol.MoveKeeps | src/filesystem.rs:1265-1314 | a head transition, installed or not and synced or not, keeps every possible head complete and shows the earlier discovery or the replacement; when there is one is `MoveEnabled` |
| PackedProtocol.MoveEnabled | src/filesystem.rs:1265-1314 | a publisher can move the head exactly when the proved catalog has the length the head says and names only proved or remembered packs, and the present head is the replacement or the expected one; without a fault the replacement is then durably the head |
| PackedProtocol.PublicationSucceeds | src/packed_patricia.rs:1159-1194 | between operations in any state of any run, publishing any packs, a catalog over them and the remembered ones, and its head goes through when nothing fails; discovery then finds that head, catalog and all its packs, byte for byte, with nothing left to a crash |
| PackedProtocol.FirstPublication | src/packed_patricia.rs:1159-1194 | a concrete run from the empty directory publishes one pack, a catalog naming it and the head, and discovery finds all three |
| PackedProtocol.NeverRefused | src/packed_patricia.rs:222-240 | in any state of any run readers, publications and reclaimers wait for the operation lock only: discovery never fails a reader and no present file refuses a publication |
| PackedProtocol.BackedIsFirm | src/packed_patricia.rs:1636-1839 | proved publications together with the packs remembered from the expected head make the new head complete and crash-proof |
| PackedProtocol.CrashKeeps | src/filesystem.rs:1265-1314 | after a crash discovery finds, byte for byte, what some possible head named |
| PackedProtocol.PublishKeeps | src/filesystem.rs:1061-1105 | an exact publication, failed or not, leaves all heads, readers and discovery as they were |
| PackedProtocol.RemovalIsSafe | src/packed_patricia.rs:1196-1279 | removing a file keeps every crash readable if and only if no head that a crash may leave needs it |
| PackedProtocol.ReclaimIsSafe | src/packed_patricia.rs:1196-1279 | all removals that reclamation allows are safe if and only if every head a crash may leave needs only live names |
| PackedProtocol.ReclaimSucceeds | src/packed_patricia.rs:1196-1279 | with the head settled and nobody else at work, reclamation removes all dead packs, catalogs and temporary files, in any order, and no other file; discovery finds what it found, durably |
| PackedProtocol.ReclaimUnderUnsettledHead | src/packed_patricia.rs:1205-1223 | a concrete run in which reclaiming after an unsynced head transition leaves a crash that discovery cannot open |
| PackedProtocol.RetrySucceeds | src/filesystem.rs:1258-1279 | a transition that was installed but not synced may be retried after any other steps; it changes no file and settles the head |
| JournalFrame.DecodeEncoded | src/local_journal.rs:300-427 | decoding an encoded frame gives the frame back |
| JournalFrame.EncodeDecoded | src/local_journal.rs:300-345 | bytes that decode are exactly what encoding their frame produces |
| JournalFrame.EncodedSize | src/local_journal.rs:389-427 | a frame is encoded unless its header exceeds 4 KiB or the whole 64 MiB, and then has exactly its declared length |
| JournalV1.ScanAdopts | src/local_journal.rs:747-799 | scanning consecutive frames and a tail below the minimum frame adopts exactly those frames |
| JournalV1.ScanFindsFrames | src/local_journal.rs:747-799 | whatever a scan accepts is consecutive frames from the base and a tail below the minimum frame |
| JournalV1.TornAppend | src/local_journal.rs:695-745 | a torn append is recovered from if and only if fewer bytes than the minimum frame arrived; any longer torn frame is refused by every open |
| JournalV1.InspectIsScanWithoutTail | src/local_journal_v2.rs:748-809 | the inspection succeeds exactly when the scan does with no tail, and with the same result |
| JournalV1.ScanSegment | src/local_journal.rs:747-799 | the scan loop computes the specified scan, size limit included |
| JournalV1.Segment.Append | src/local_journal.rs:585-628 | an append is refused, and changes nothing, exactly for a poisoned segment, a header over 4 KiB, a frame over 64 MiB, a segment over 4 GiB or an exhausted sequence; otherwise it extends the committed frames by one unless an operation fails, which poisons |
| JournalV1.Open | src/local_journal.rs:508-553 | opening succeeds whenever the scan does and no operation fails, adopts the scanned frames and cuts off less than a minimum frame; a refused scan is the answer and leaves the file unchanged |
| FrontierCodec.HeaderRoundTrip | src/local_journal_v2.rs:162-206 | decoding an encoded header gives it back, at its fixed length |
| FrontierCodec.HeaderRestored | src/local_journal_v2.rs:175-206 | accepted header bytes are exactly the encoding of what they decode to |
| FrontierCodec.FrontierRoundTrip | src/local_journal_v2.rs:263-344 | decoding an encoded frontier gives it back, at its fixed length |
| FrontierCodec.FrontierRestored | src/local_journal_v2.rs:285-344 | accepted frontier bytes are exactly the encoding of what they decode to |
| JournalV2.FrontierSays | src/local_journal_v2.rs:226-261 | the frontier after any committed frames records their next sequence, extent and terminal frame, and fits its fields |
| JournalV2.FrontierSelects | src/local_journal_v2.rs:668-746 | the frontier after some frames selects exactly those, whatever follows them in the file |
| JournalV2.Accounted | src/local_journal_v2.rs:464-534 | frames on disk can be assigned to attempts one to one and in order; confirmed attempts all have one, refused attempts none |
| JournalV2.KeptIsReplayed | src/local_journal_v2.rs:464-534 | a confirmed append is replayed at its own sequence with its own payload |
| JournalV2.NeverRejected | src/local_journal_v2.rs:389-446 | whatever the protocol and crashes leave behind is accepted on open, and selects the committed frames |
| JournalV2.Crashed | src/local_journal_v2.rs:965-996 | a crash leaves a prefix of the committed frames that includes every durable one |
| JournalV2.SurvivesWhenSynced | src/local_journal_v2.rs:389-446 | what a reopening replays survives every further crash if and only if no other frontier still waits for the directory barrier |
| JournalV2.ReplayedThenLost | src/local_journal_v2.rs:965-996 | after a first append cut short between the replacement of the frontier and its barrier, a reopening replays the frame and a crash then loses it |
| JournalV2.SegmentV2.Append | src/local_journal_v2.rs:464-534 | the answer "appended" is kept for good; "definitely not" touches nothing and comes exactly from a poisoned handle, a header over 4 KiB, a frame over 64 MiB, a base with all committed frames and this one reaching 2^64, or a segment over 4 GiB; "unknown" comes only from a failed operation, and then the frame is committed at most once and the handle poisoned |
| JournalV2.RefusalIs | src/local_journal_v2.rs:237-261 | what the encoder and the frontier refuse after any committed frames is exactly that, in byte lengths and frame counts |
| JournalV2.SegmentV2.PublishFrontier | src/local_journal_v2.rs:965-996 | replacing, syncing and reading back the frontier, interrupted at any step, keeps the disk meaningful |
| JournalV2.ScanV2Prefix | src/local_journal_v2.rs:668-746 | the scan loop computes the frames the frontier selects, or its error |
| JournalV2.OpenSelected | src/local_journal_v2.rs:389-446 | opening replays the selected frames and cuts off the rest; a refused selection changes nothing |
| JournalV2.Run | src/local_journal_v2.rs:389-534 | every event of a run is answered: an append with an open handle makes exactly one attempt with its kind and payload and is refused exactly when the handle is poisoned or the frame cannot be encoded or committed; every opening replays all frames confirmed before it, no refused one, and each unconfirmed one at most once; openings fail and appends stay unsure only when a disk operation fails |
| ScratchLog.AppendLog.Append | src/scratch.rs:483-507 | a record is appended at the end of the flat log, however much of it was buffered, unless a write fails; while the buffer has room nothing is written |
| ScratchLog.AppendLog.ReadExact | src/scratch.rs:970-1014 | a read sees the flat log and changes nothing of it, and fails only with a file operation |
| ScratchLog.AppendLog.Flush | src/scratch.rs:509-522 | a flush moves the buffer into the file, or fails leaving all of it in memory and some first part of it in the file |
| ScratchLog.RetriedFlush | src/scratch.rs:509-522 | repeating a failed flush leaves the flat log as it was if and only if no byte of the failed one arrived; otherwise every buffered record is that many bytes behind its offset |
| ScratchLog.RecordLost | src/scratch.rs:509-522 | a concrete buffer for which the repeated flush makes an offset read another record |
| ScratchLsm.InsertRepresents | src/scratch.rs:1016-1076 | inserting into a root that represents some batches represents one more; the capacity error comes exactly at batch 2^32, and the only other error is the page size of `InsertWrites` |
| ScratchLsm.InsertWrites | src/scratch.rs:921-968 | an insertion is refused for its page exactly when it is not the 2^32nd and the encoded page of the segment due, the ascending one of the last 2^t batches where t is the number of trailing one-bits of the earlier count, exceeds 256 MiB; otherwise exactly that page is appended |
| ScratchLsm.InsertAllRepresents | src/scratch.rs:1016-1076 | every root reachable from the default one represents its batches |
| ScratchLsm.InsertAllSucceeds | src/scratch.rs:1016-1076 | a run of insertions succeeds if and only if it has fewer than 2^32 batches and every page due fits 256 MiB |
| ScratchLsm.LevelIs | src/scratch.rs:1016-1076 | level i is occupied exactly when bit i of the batch count is set, with the generation and the batches a binary counter gives it |
| ScratchLsm.GenerationsFall | src/scratch.rs:1016-1076 | generations strictly decrease as levels rise |
| ScratchLsm.ReadsAreTrailingOnes | src/scratch.rs:1037-1043 | an insertion reads as many segments as the batch count has trailing one-bits |
| ScratchLsm.RunReadsAre | src/scratch.rs:1016-1076 | a run of n insertions reads n minus the one-bits of n segments in all |
| ScratchRead.LookupAnswers | src/scratch.rs:1107-1146 | point lookup in a reachable root answers as the folded batches do |
| ScratchRead.LookupManyAnswers | src/scratch.rs:1176-1231 | batched lookup answers every key, repeated ones and tombstones included, as the folded batches do |
| ScratchRead.ScanAnswers | src/scratch.rs:1300-1332 | a prefix scan returns in key order exactly the live records under the prefix |
| ScratchRead.MaterializeAnswers | src/scratch.rs:1334-1343 | materialising returns in key order exactly the live records |
| ScratchRun.Run.Insert | src/scratch.rs:1016-1076 | the carry loop gives the root and the log of the specified insertion and reads exactly the full levels below the first free one, or an I/O error if and only if a file operation failed |
| ScratchRun.Run.LookupOne | src/scratch.rs:1107-1146 | the lookup loop gives the specified answer, or an I/O error if and only if a file operation failed |
| ScratchRun.Run.LookupBatch | src/scratch.rs:1176-1231 | the batched loop gives the specified answers, or an I/O error if and only if a file operation failed |
| ScratchRun.Run.Scan | src/scratch.rs:1300-1332 | the scan loop gives the specified records, or an I/O error if and only if a file operation failed |
| ScratchSession.SlotIsFree | src/scratch.rs:1372-1431 | when a segment of the root is not cached some slot is free, so eviction for want of slots is never needed |
| ScratchSession.Session.MakeRoom | src/scratch.rs:1372-1431 | evicting ends with room for the charge, keeping resident bytes equal to the sum of charges and within the budget |
| ScratchSession.Session.EvictLru | src/scratch.rs:348-364 | the slot used longest ago is emptied and its charge given back |
| ScratchSession.Session.Read | src/scratch.rs:1372-1431 | a read through the session gives what reading the page gives, from the cache alone if it is there; afterwards it is cached as last used unless it exceeds the budget by itself, and nothing is evicted while the budget has room |
| ScratchSession.Session.LookupBatch | src/scratch.rs:1236-1298 | session lookups answer exactly as uncached ones and keep the cache within its budget, also after failed I/O; a call for another run, root or kind is refused and changes nothing |
| ScratchSession.ValidAfterInsert | src/scratch.rs:1016-1076 | an insertion into the run between two session lookups leaves the session valid |

## Left out

- SHA-256, postcard, JSON and UUIDs: abstract functions under the hypotheses above.
- Digest comparisons that can only fail for colliding nodes: when the publication walk finds a staged node whose bytes do not have its digest the source refuses; the model proves that this does not happen for nodes in play.
- Real file handles, locks, Windows write-through and Android fallbacks: the directory is a map with explicit crash steps; a publication fails before or after its rename.
- Temporary files of a publication: only those that a stopped publication leaves behind appear (`LeaveTemp`); the write and sync before a rename are one step with it.
- Lengths inside error values: errors that only differ in wording or in a carried length or path are one constructor.
- Statistics, residency and allocator accounting: whether a mutation must first flush, and whether the sink is out of room, are arbitrary choices (`Policy`, `PrepareMutation`), and a budget may refuse wherever the source asks it (`Budget`), so every outcome of the real accounting is covered, but not which one occurs. Each refusal is counted, and no request fails without one or a failed publication.
- Saturating and overflowing `usize` arithmetic: lengths are unbounded except where the source compares them with a constant.
- PatriciaBulk.ThreeWaysAgree: speaks of trees; digests enter through `PatriciaSink.SinkMergeTree`, `PatriciaSink.DeriveRecordsTree` and `PatriciaConstruction.Construction.InsertManyBulk`.
- PatriciaVisit.VisitAllAnswersMap: the visitor is a limit that is not reached; a visitor that stops early or fails is the limited visit.
- PatriciaPublication.PublishRoots: a packed publication adds all its nodes at once; the steps inside it are those of `PackedProtocol`.
- The plain `insert_many` writes its loose nodes parent before child (`src/authenticated_patricia.rs:2155-2216`), so one that fails may leave a disk that is not closed under children; `PatriciaConstruction.Drive` starts from a disk that is.
- The plain `remove` publishes loose nodes without the packed lock (`src/authenticated_patricia.rs:2461-2477`): node publication in `PackedProtocol` waits for a reclaimer, and nothing is claimed for the unlocked case.
- PackedProtocol.EveryRun: one publisher at a time, as the external writer lease demands; a publisher may hold an outdated view of the head. A reclaimer starts only when the condition of `ReclaimIsSafe` holds (`Careful`); without it the claim is false after a crash, and `EveryRunWhilePowered` says what remains.
- PackedProtocol.BackedIsFirm: pack contents are opaque to the protocol; that a pack holds the nodes it should is `PackAppend.AppendAnswers` and `PackCodec.DecodeBuilt`.
- PackAppend.AppendSucceeds: one way only, as `PackGrowth.AppendWithRoom`.
- PackGrowth.AppendWithRoom: for duplicate-free catalogs, as appends build them, and one way only. An append without room may still be admitted: where the rest of a cut carry falls depends on the sizes of the single entries, and no condition short of planning the compaction is given for these.
- PackStream.StreamedCompaction: payload bytes are values; reading them in buffers, and hashing them while writing, are not modelled.
- PackPlan.Finish: moving an open pack out of the old catalog is taking a value out of a slot.
- Catalog and head encodings: fixed little-endian records of the same shape as pack headers; `PackedProtocol` takes them as functions.
- JournalV2.Disk.Crash: the tail left after the synced part is arbitrary but keeps the file within the segment size limit; a longer file would be refused by its length alone.
- JournalV2.Disk.TruncateSegment: truncation takes effect at once, also on the part that a crash keeps.
- JournalV2.SegmentV2.PublishFrontier: the Unix and the fallback variant; the temporary file is part of the replacing step.
- Replay of a journal to a callback, locking of segments, and segment creation (`prepare`): a run starts from a generation whose two files are durable.
- ScratchRun.Run.Insert: an envelope around a page and its payload are one encoding with one digest.
- Blobs, markers, leases, adoption and cleanup of scratch runs: file-system plumbing.
- ScratchSession.Session.Read: the access clock does not saturate, and a charge is an arbitrary function of the segment.
- `src/durable_batch.rs`, `src/digest_sealed.rs`, `src/content_digest.rs`, `src/formats.rs`, `src/api_surface.rs`: smaller codecs and inventories that would add only easy members.
