# Verified model of destor

destor is a deduplicating backup system. Files are cut into chunks, chunks are looked up in an index, new
chunks go into containers, a recipe records the order, and a restore reads it all back. This project models
the parts of it that are hard to get right, in the form the C code has (loops over arrays, objects updated in
place, threads as atomic steps under their locks), and proves what the code promises.

`dafny verify dfyconfig.toml` checks the whole project.

## What is modelled

**Chunking** (`Gf2`, `Words`, `RabinPoly`, `Rolling`, `Cutters`, `ChunkPhase`). Polynomials over GF(2) are sets
of exponents, 64-bit words are naturals below 2^64 with xor, masks and shifts defined on them. The table-driven
rolling fingerprint equals the residue, by long division, of the last 48 bytes. Each cut-point search is proved
against a relation that speaks of the slow fingerprints only and has exactly one solution, and so the chunk
stream depends on the files' contents alone, not on the blocks they arrive in.

**Index, filter and deletion** (`DedupSpec`, `DedupSafety`, `FilterSafety`, `Backups`, `Sampling`, `Decisions`,
`RunHistory`, `HarRuns`, `DedupPhase`, `KvStore`). Dedup runs ahead of filter; chunks in flight may still carry
TEMPORARY_ID, and the queues of the index buffer are patched when their segment leaves. `DedupSpec` has one
function per loop body; a step whose C assert would fail, or that would follow a NULL, has no result. A run is any
sequence of starting a backup with sparse containers inherited from the one before, deduplicating a segment,
marking chunks in flight as any rewriting algorithm may, filtering the oldest segment (HAR's marks are complete by
then), ending a backup and deleting a backup. `Backups.EveryRun` shows that no step of any run fails and that one
invariant holds throughout; exact deduplication, the manifest and the absence of dangling references follow.
Deletions are taken to be clean, a condition on the index just before each of them that
`Backups.DanglesExactlyWhen` shows to be exact. `Decisions` says on the state's fields when a chunk is found,
rewritten or stored; `RunHistory` says over whole runs which container the index names for a key, when a chunk is
a duplicate, and what the simulated restore cache holds; `HarRuns` that with HAR a backup refers to no container
that the previous one listed as sparse. `DedupPhase.Pipeline` is the imperative code on mutable fields. Its loops
report exactly when an assert fires; its phases have the invariant as `Valid()`, show that none does, and take the
state where the step function takes it.

**Storage** (`Bytes`, `ContainerStore`, `SyncQueue`, `AppendThread`, `RecipeStore`, `Restore`, `Sizes`, `RoundTrip`).
Containers are serialised into a 4 MB array and written into a pool file, recipes into a recipe file and a record
file, byte by byte. Both read back exactly. `AppendThread` interleaves filter, append and dedup around the container
queue. `Sizes` shows that what any run seals fits its container, and `RoundTrip` puts the halves together: after any
run with clean deletions, every container is filled and written, the recipe is framed in any segmentation and read
back, and the restore of any live backup gives the stream that was fed to dedup, byte for byte, with the LRU cache of any
size and with the optimal cache.

**Restore algorithms** (`Lru`, `Belady`, `OptimalRestore`, `Assembly`). The LRU stack theorem with inclusion and
monotone misses; Belady's theorem by an exchange argument, and the code's windowed victim choice as an instance
of it, farthest within at least half a window; forward assembly, each container read once where the area allows it.
The LRU restore reads what the stack theorem counts.

**Selection and text** (`Similarity`, `Capping`, `Har`, `Sds`, with `GSequence` for sorted sequences). Greedy
selection of similar segments with its (1 - 1/k)^j bound, the rewrite buffer and capping, HAR trimming as an
optimum, and the quoting and splitting of command lines as inverses, in each quoting style.

## What the proofs take for granted

- Two chunks with the same fingerprint are the same chunk.
- GLib hash tables are maps whose iteration order is arbitrary; a GSequence is a sequence kept sorted by its
  comparison; a double is a real number. Container ids are unbounded integers; where a comparator truncates
  an id to `int`, ids are below 2^31.
- Each thread's work under `index_lock` is one atomic step, and so is each call on a synchronised queue; a
  call that has to wait says so and is resumed by a later step.

## Where the code falls short of its documentation

- `sampling_method.c` inserts a constant key when nothing was sampled. With random sampling that key need not
  belong to the container, and then `do_delete` leaves it in the index with the id of a reclaimed container:
  `Sampling.FallbackDangles` is such a run. `Backups.DanglesExactlyWhen` says exactly which deletion does so.
  With uniform sampling every deletion is clean (`Sampling.UniformIsSafe`, `Backups.AlwaysClean`), and with random
  sampling every deletion of a run in which each container has a sampled chunk (`Sampling.RandomRunIsSafe`).
- The assert in `kvstore_htable_delete` holds exactly when the id is the oldest one left in its value
  (`KvStore.DeleteAssertIff`, `KvStore.OutOfOrderDeleteFails`). `do_delete` walks a hash table, so its order is
  arbitrary: it is safe in every order exactly when no value has a reclaimed id besides its oldest
  (`KvStore.AnyOrderIff`). With values of length one that is always so (`KvStore.LengthOneNeverAsserts`); the
  configuration allows longer ones, for which the oldest-first order of `KvStore.FifoNeverAsserts` is not shown.
- The final flush of `cap_rewrite` marks unique chunks as well as duplicates; filtering ignores the mark, and the
  model keeps it.
- A push that has waited for room does not look at `term` again (`SyncQueue.SyncQueue.Resume`).
- A segment id keeps 16 bits of the size, 32 of the offset and 16, signed, of the backup number. It round-trips
  exactly for sizes below 2^16, offsets below 2^32 and backup numbers below 2^15 (`RecipeStore.SegmentIdRoundTrip`);
  `RecipeStore.SegmentIdLosesBackup` shows what later backups read back.

## Model

| member | source | states |
|---|---|---|
| `RabinPoly.Fls64Degree` | destor-master/src/chunking/rabin_chunking.c:59-78 | fls64 of a non-zero word is one more than the degree of the polynomial it spells |
| `RabinPoly.Polymult` | destor-master/src/chunking/rabin_chunking.c:124-156 | the pair of words is the exact 128-bit carry-less product |
| `RabinPoly.Polymod` | destor-master/src/chunking/rabin_chunking.c:80-122 | for every non-zero d, whatever its degree, and every nh, nl: the result has degree below deg d and is congruent to (nh,nl) modulo d |
| `RabinPoly.ResidueWordUnique` | destor-master/src/chunking/rabin_chunking.c:80-122 | no other word is such a residue, so the two facts about polymod determine it |
| `RabinPoly.Polymmult` | destor-master/src/chunking/rabin_chunking.c:172-179 | the residue of the carry-less product |
| `Gf2.ResidueUnique` | destor-master/src/chunking/rabin_chunking.c:80-122 | two polynomials below the degree of d that are congruent modulo d are equal |
| `Gf2.Remainder` | destor-master/src/chunking/rabin_chunking.c:80-122 | the reference definition, long division one exponent at a time: the result is below the degree and congruent to the dividend |
| `Rolling.CalcT` | destor-master/src/chunking/rabin_chunking.c:181-208 | every entry of T cancels the overflow of its byte: adding it clears the bits from the degree up and keeps the residue class |
| `Rolling.SizeShift` | destor-master/src/chunking/rabin_chunking.c:215-222 | 47 appends of a zero byte to 1 give the residue of x^376 |
| `Rolling.WindowInit` | destor-master/src/chunking/rabin_chunking.c:215-229 | every entry of U is the residue of its byte at the far end of the window, besides what calcT promises of T |
| `Rolling.Tables.Append8` | destor-master/src/chunking/rabin_chunking.c:158-160 | from a residue p, the residue of p * x^8 + m |
| `Rolling.SlideCorrect` | destor-master/src/chunking/rabin_chunking.c:9-21 | taking U of the outgoing byte out leaves the residue of the other 47 bytes, and append8 then gives the residue of the new window |
| `Rolling.RingStep` | destor-master/src/chunking/rabin_chunking.c:9-21 | the ring position that SLIDE overwrites holds the oldest byte, and the window afterwards is the old one without it and with m behind |
| `Rolling.Slide` | destor-master/src/chunking/rabin_chunking.c:9-21 | the SLIDE macro on the ring in place: the window moves by one byte and fp stays the residue of the window |
| `Rolling.FingerprintStart` | destor-master/src/chunking/rabin_chunking.c:231-247 | fp = 0 is the fingerprint of the zeroed ring |
| `Rolling.SpellPadded` | destor-master/src/chunking/rabin_chunking.c:231-247 | zero bytes in front do not change the polynomial, so the zeroed ring stands for the empty string |
| `Rolling.SlideOver` | destor-master/src/chunking/rabin_chunking.c:9-21 | one SLIDE keeps the claim that fp is the fingerprint of the last 48 bytes of everything taken in |
| `Rolling.RollAll` | destor-master/src/chunking/rabin_chunking.c:9-21 | rolling equals direct: after any number of SLIDE steps from 0 and a zeroed ring, fp is the residue, by long division, of the last 48 bytes, zero padded |
| `Rolling.FingerprintResidue` | destor-master/src/chunking/rabin_chunking.c:158-170 | the slow fingerprint is below the degree of the modulus (2^63 for FINGERPRINT_PT) and congruent to the polynomial that the window spells |
| `Cutters.ChunkAlgInit` | destor-master/src/chunking/rabin_chunking.c:239-247 | the tables are ready for the modulus FINGERPRINT_PT |
| `Cutters.BreakTest` | destor-master/src/chunking/rabin_chunking.c:271-274 | the break test on a fingerprint and a mask |
| `Cutters.RabinChunkData` | destor-master/src/chunking/rabin_chunking.c:249-276 | the cut is the first break position from the minimum size on, or the end of the buffer or of the maximum size when there is none; fingerprints are the slow ones |
| `Cutters.NormalizedRabinChunkData` | destor-master/src/chunking/rabin_chunking.c:283-320 | the same search with the small mask before the average size and the large one from there on |
| `Cutters.TttdChunkData` | destor-master/src/chunking/rabin_chunking.c:327-362 | the first true match; without one before the maximum, the last backup match; without either, the end |
| `Cutters.FixedChunkData` | destor-master/src/chunk_phase.c:12-14 | the cut is the average size, or all that is left, whatever the minimum size |
| `Cutters.Chunking` | destor-master/src/chunk_phase.c:114-184 | whatever algorithm start_chunk_phase chose, the call returns the cut that the search relation of that algorithm defines |
| `Cutters.FirstMarkCutIs` | destor-master/src/chunking/rabin_chunking.c:249-320 | on the bytes and the configured sizes alone: Rabin and normalized Rabin cut at a position if and only if no earlier one is marked and it is marked, or is the end of the buffer or of the maximum size |
| `Cutters.TttdCutIs` | destor-master/src/chunking/rabin_chunking.c:327-362 | likewise TTTD: the first position marked under both masks, or else the last one marked under the looser mask, or else exactly the end of the buffer or of the maximum size |
| `Cutters.CutUnique` | destor-master/src/chunking/rabin_chunking.c:249-362 | for each of the four algorithms there is exactly one such cut |
| `Cutters.CutBounds` | destor-master/src/chunking/rabin_chunking.c:249-362 | a cut is positive, within the buffer and the maximum size, and only a cut at the end of the buffer is below the minimum (fixed chunking: below the average, its minimum is not looked at) |
| `Cutters.CutPrefix` | destor-master/src/chunking/rabin_chunking.c:249-362 | a cut does not look past the first max bytes: buffers that agree there are cut alike |
| `Cutters.NormalizedAgainstRabin` | destor-master/src/chunking/rabin_chunking.c:249-320 | on one buffer, with avg a power of two >= 256: where plain Rabin cuts at or past avg, normalized cuts between avg and there; where it cuts before avg, normalized cuts at or after it |
| `Cutters.TttdAgainstRabin` | destor-master/src/chunking/rabin_chunking.c:249-362 | TTTD cuts at every true match of plain Rabin, otherwise at the last backup match or at the end |
| `ChunkPhase.Refill` | destor-master/src/chunk_phase.c:54-64 | the refill loop ends with max bytes or the end of the file, leftoff + leftlen never leaves the buffer, and no byte is lost or reordered |
| `ChunkPhase.Take` | destor-master/src/chunk_phase.c:57-61 | the leftover moves to the front and the new block stands behind it |
| `ChunkPhase.FirstBlock` | destor-master/src/chunk_phase.c:45-51 | the first block of a file, or its end mark for an empty file |
| `ChunkPhase.CutBuffered` | destor-master/src/chunk_phase.c:75-81 | the buffered bytes are cut as the whole rest of the file would be |
| `ChunkPhase.CutOne` | destor-master/src/chunk_phase.c:67-93 | one turn of the cutting loop takes a non-empty chunk off the front, cut as the rest of the whole file would be cut |
| `ChunkPhase.ChunkFile` | destor-master/src/chunk_phase.c:44-96 | the chunks of one file are the chunking of its whole contents, and the loop ends |
| `ChunkPhase.ChunkThread` | destor-master/src/chunk_phase.c:20-110 | for any files in blocks of at most DEFAULT_BLOCK_SIZE: file marks and the chunkings of the whole files, in order |
| `ChunkPhase.ChunkingUnique` | destor-master/src/chunk_phase.c:44-96 | there is one chunking of a string, and it concatenates to the string |
| `ChunkPhase.ChunkSizes` | destor-master/src/chunk_phase.c:44-96 | no chunk is empty or above max; only the last one of a file may be below the least size (min, for fixed chunking avg) |
| `ChunkPhase.BlockIndependence` | destor-master/src/chunk_phase.c:20-110 | two splits of the same files into blocks give the same packets |
| `Lru.LruCache.Lookup` | destor-master/src/utils/lru_cache.c:39-55 | the first hit moves to the front and is returned; the hit or the miss is counted |
| `Lru.LruCache.LookupWithoutUpdate` | destor-master/src/utils/lru_cache.c:57-69 | the first hit is returned and nothing moves |
| `Lru.LruCache.Hits` | destor-master/src/utils/lru_cache.c:73-88 | the first hit moves to the front and is returned; nothing is counted |
| `Lru.LruCache.Insert` | destor-master/src/utils/lru_cache.c:93-111 | the new element comes first; a full cache of positive size loses its oldest |
| `Lru.LruCache.Kicks` | destor-master/src/utils/lru_cache.c:114-128 | the oldest element that satisfies the condition leaves, and no other |
| `Lru.LruCache.IsFull` | destor-master/src/utils/lru_cache.c:130-134 | true exactly when the list itself is as long as a non-negative maximum, which the separate size field stands for |
| `Lru.StackTheorem` | destor-master/src/utils/lru_cache.c:39-111 | after any trace the list is exactly the max_size most recent distinct ids, newest first, where recency is defined on the trace alone |
| `Lru.Inclusion` | destor-master/src/utils/lru_cache.c:93-111 | a smaller cache holds a prefix of what a larger one holds |
| `Lru.MissesMonotone` | destor-master/src/restore_aware.c:45-60 | the miss count never grows with the cache size |
| `Lru.RestoreAware.Update` | destor-master/src/restore_aware.c:45-60 | the access extends the trace; cache, miss count, optimal count and level stay functions of the trace and the bytes |
| `Lru.RestoreAware.Contains` | destor-master/src/restore_aware.c:62-64 | true exactly for one of the max_size most recent distinct ids |
| `DedupSafety.OfPlace` | destor-master/src/index/index.c:377-413 | the place of a chunk in its fingerprint's queue is the number of earlier chunks in flight with that fingerprint |
| `DedupSafety.IdentifySound` | destor-master/src/index/index.c:145-313 | the lookup neither peeks an empty queue nor fetches a container that is gone; a duplicate gets an id that holds its fingerprint, or TEMPORARY_ID behind a unique copy in flight; with the exact index a chunk left unique is stored nowhere |
| `DedupSafety.ExactKeyHolds` | destor-master/src/index/index.c:231-239 | with whole digests as keys, the container that an entry names holds exactly that fingerprint |
| `DedupSafety.DedupChunkKeeps` | destor-master/src/index/index.c:145-313 | one turn of the lookup loop keeps the invariant of queues, chunks in flight, containers and index |
| `DedupSafety.MarkJoins` | destor-master/src/index/index.c:145-313 | with rewrite algorithm NO the lookup keeps: once this backup has written a fingerprint the head of its queue says so, and until then every chunk of it in flight has the id at the head or none |
| `DedupSafety.DedupSegmentKeeps` | destor-master/src/index/index.c:330-353 | looking up a segment never fails, keeps the invariant, and hands on every chunk in order |
| `Decisions.LookupFinds` | destor-master/src/index/index.c:145-313 | for every configuration: after the lookup a chunk is a duplicate if and only if it is in the open container, in the index buffer, in a cached container, or in the container that the store names for its key |
| `Decisions.LookupNames` | destor-master/src/index/index.c:145-313 | the id comes from the first of these that has the chunk, the most recent one in the cache; only a chunk of the open container may not be rewritten |
| `Decisions.LookupFetches` | destor-master/src/index/fingerprint_cache.c:41-90 | a container fetched through the store is the most recent one in the fingerprint cache, in place of the oldest one of a full cache |
| `Decisions.LookupTouches` | destor-master/src/index/fingerprint_cache.c:41-64 | a cached container that serves a lookup becomes the most recent one |
| `Decisions.HarMarksExactly` | destor-master/src/har_rewrite.c:170-180 | exactly the duplicates in inherited sparse containers are marked |
| `Decisions.CheckTakesNewer` | destor-master/src/index/index.c:377-413 | a fragmented chunk and a temporary duplicate never leave with an id older than the head of their queue, and a rewrite request is denied exactly when the head is newer |
| `Decisions.ResolvedId` | destor-master/src/filter_phase.c:110-119 | the id with which the loop goes on is that of the rewritten copy, or else of the unique copy |
| `Decisions.RewrittenExactlyWhen` | destor-master/src/filter_phase.c:88-194 | a unique chunk, and exactly those duplicates that are not denied and sparse, or out of order with the switch on and not cached, leave in the open container; every other one keeps its id and nothing is stored |
| `Decisions.LaterCopiesFollow` | destor-master/src/filter_phase.c:110-187 | later copies in the segment take the id of the copy that was written, and are not rewritten again |
| `Decisions.SealedExactlyWhenFull` | destor-master/src/storage/containerstore.c:448-457 | a container is sealed exactly when the next chunk would exceed its data area or its metadata area |
| `Decisions.WrittenOnce` | destor-master/src/storage/containerstore.c:464-488 | a chunk goes behind the others of its container, once |
| `FilterSafety.RoomKeeps` | destor-master/src/filter_phase.c:132-156 | sealing a full container and creating the next one loses no chunk and leaves room for the chunk |
| `FilterSafety.FilterOneStores` | destor-master/src/filter_phase.c:110-204 | one turn of the loop: every assert of it holds (cached chunks have an id, a temporary duplicate has its unique copy, an exact index with rewrite algorithm NO writes nothing twice, HAR on or off), the chunk's id names a container that holds it, stored chunks stay stored |
| `FilterSafety.FilterOne` | destor-master/src/filter_phase.c:78-207 | one turn keeps what the rest of the segment needs: every later temporary duplicate still finds its unique copy |
| `FilterSafety.CheckedSettled` | destor-master/src/index/index.c:377-413 | after har_check and index_check_buffer, with rewrite algorithm NO, a chunk that is sparse and not denied has an inherited sparse container at the head of its queue: no earlier segment of this backup has written it |
| `FilterSafety.SettledShrinks` | destor-master/src/filter_phase.c:121-187 | one turn keeps that for the rest of the segment: after the first sparse copy is rewritten the others are denied |
| `FilterSafety.FilterAllKeeps` | destor-master/src/filter_phase.c:78-207 | the loop over a segment, for any choice of the cfl switch and any marks that rewriting set |
| `FilterSafety.MarkLeaves` | destor-master/src/index/index.c:415-451 | when the segment has left, the patched queue heads still say so to the segments behind it |
| `FilterSafety.PlaceInSegment` | destor-master/src/index/index.c:377-413 | in the oldest segment a unique chunk is the first of its fingerprint and is stored nowhere yet in the open container; a temporary duplicate follows its unique copy |
| `FilterSafety.SegmentPending` | destor-master/src/index/index.c:377-413 | index_check_buffer never meets a missing queue, and what it returns is ready for the loop |
| `FilterSafety.PopAllKeeps` | destor-master/src/index/index.c:415-451 | index_update_buffer finds a queue element for every chunk, and patches the queues of later ones |
| `FilterSafety.QueueLeaves` | destor-master/src/index/index.c:415-451 | after the segment has left, each queue has one element per chunk still in flight, and the known ids in it are right |
| `FilterSafety.FilterSegmentKeeps` | destor-master/src/filter_phase.c:41-247 | a filter step never fails, keeps the invariant, and the recipe grows by exactly the segment's chunks, each with the id of a container that holds it |
| `HarRuns.CheckedMoves` | destor-master/src/index/index.c:377-413 | after har_check and index_check_buffer a chunk of an inherited sparse container is marked and not denied, unless it has an id of this backup |
| `HarRuns.TurnMoves` | destor-master/src/filter_phase.c:88-207 | one turn of the loop, for any flags: the chunk leaves with the id it came with or one of this backup, never with that of an inherited sparse container |
| `HarRuns.LeavesOld` | destor-master/src/index/index.c:415-451 | index_update_buffer hands on an id under which the chunks behind agree |
| `HarRuns.HarAvoidsSparse` | destor-master/src/har_rewrite.c:17-180 | over whole runs: with HAR, whatever other rewriting there is, a backup refers to no container that the previous backup listed as sparse |
| `RunHistory.AwareIsRecent` | destor-master/src/restore_aware.c:45-64 | over whole runs the simulated restore cache holds exactly the most recent distinct containers of the recipe so far, as many as it has room for |
| `RunHistory.IndexNamesLast` | destor-master/src/index/index.c:361-370 | over whole runs with clean deletions the index names for each key the last container sealed with it among its features, as long as that one is live, and nothing otherwise |
| `RunHistory.DuplicateExactlyWhen` | destor-master/src/index/index.c:145-313 | in every reachable state, exact index or not, a new chunk is a duplicate if and only if it is in the open container, in flight, in a cached container, or in the last container sealed with its key |
| `Backups.FlagKeeps` | destor-master/src/rewrite_phase.c:110-127 | marking any chunks in flight as fragmented, as a rewriting step may, keeps the invariant |
| `Backups.EndKeeps` | destor-master/src/filter_phase.c:308-323 | sealing the last container and updating the manifest keeps the invariant, and the recipe lists exactly what was fed to dedup |
| `Backups.NewReference` | destor-master/src/cma.c:17-75 | update_manifest makes the time of each container its last reference, the new backup included |
| `Backups.ReclaimsExactly` | destor-master/src/cma.c:83-139 | the containers reclaimed are exactly the live ones that no backup after the deleted one refers to |
| `Backups.CleanIndex` | destor-master/src/do_delete.c:31-48 | deletion leaves no entry naming a reclaimed container if and only if the key of every such entry belongs to a chunk of that container; other entries stay |
| `Backups.DeleteKeeps` | destor-master/src/do_delete.c:23-54 | in any reachable state a deletion succeeds, and it keeps the whole invariant if and only if it is clean: the key of every entry that names a container to be reclaimed belongs to a chunk of it |
| `Backups.EveryRun` | destor-master/src/filter_phase.c:41-327 | in every run of backups and clean deletions (a run without deletions is one), with dedup, rewriting, HAR and filter interleaved, no assert of these loops fires and the invariant holds |
| `Backups.ExactDeduplication` | destor-master/src/filter_phase.c:121-187 | with the exact index and rewriting off, no fingerprint is in two live containers, the open one and earlier backups included |
| `Backups.BelongingRun` | destor-master/src/do_delete.c:23-54 | when every container that the run sealed has only features that are keys of its own chunks, all its deletions are clean |
| `Backups.DanglesExactlyWhen` | destor-master/src/do_delete.c:23-54 | after any run with clean deletions the next deletion leaves an entry naming a reclaimed container if and only if it is not clean |
| `Backups.StepHistory` | destor-master/src/filter_phase.c:121-187 | the list of sealed containers only grows, whatever the step |
| `Backups.NothingDangles` | destor-master/src/do_delete.c:23-54 | in every run with clean deletions the index names live containers only, and every remaining recipe entry names a container holding its chunk |
| `Backups.ManifestIsLastReference` | destor-master/src/cma.c:17-139 | in every run with clean deletions the manifest time is the last backup that refers to the container, and a deletion reclaims exactly what has no later reference |
| `Backups.BufferMirrorsFlight` | destor-master/src/index/index.c:145-313 | in every run with clean deletions, in particular in one without deletions, each fingerprint's queue is as long as its chunks in flight are many, and every known id among them holds it |
| `Sampling.IndexSamplingUniform` | destor-master/src/index/sampling_method.c:210-240 | the features are the keys of the chunks at multiples of the ratio and no others, or the key of zeros of an empty container |
| `Sampling.IndexSamplingRandom` | destor-master/src/index/sampling_method.c:175-208 | the features are the keys of the chunks whose head the ratio divides and no others, or the key of zeros when there is none |
| `Sampling.UniformIsSafe` | destor-master/src/index/sampling_method.c:210-240 | uniform sampling takes features of the container only, so every deletion is clean; with ratio 1, whole digests and no rewriting the index is exact |
| `Sampling.RandomIsSafeWhen` | destor-master/src/index/sampling_method.c:175-208 | random sampling does so if and only if some chunk was sampled or the fallback key is by chance the key of a chunk |
| `Sampling.RandomRunIsSafe` | destor-master/src/index/sampling_method.c:175-208 | over a whole run: the features of all sealed containers belong to them if and only if each container has a sampled chunk or has the fallback key by chance, and then every deletion of the run is clean |
| `Sampling.FallbackDangles` | destor-master/src/index/sampling_method.c:175-208 | a concrete run in which the fallback key leaves an entry that names a reclaimed container |
| `DedupPhase.Pipeline.BeginBackup` | destor-master/src/har_rewrite.c:17-56 | a backup begins with the sparse containers that the previous one left, empty structures, and the invariant |
| `DedupPhase.Pipeline.CacheLookup` | destor-master/src/index/fingerprint_cache.c:41-64 | the list moves and the chunk learns the id as the step function says |
| `DedupPhase.Pipeline.StoreLookup` | destor-master/src/index/index.c:231-239 | key-value store, prefetch, cache asked again: the step function FromStore |
| `DedupPhase.Pipeline.IdentifyChunk` | destor-master/src/index/index.c:155-239 | the four places a chunk may be found in, in their order |
| `DedupPhase.Pipeline.LookupChunk` | destor-master/src/index/index.c:145-313 | one turn of index_lookup_base takes the state to DedupChunk of it |
| `DedupPhase.Pipeline.IndexLookup` | destor-master/src/index/index.c:330-353 | from any valid state the loop neither peeks an empty queue nor fetches a missing container, and takes the state to DedupSegment of it, which is valid |
| `DedupPhase.Pipeline.HarCheck` | destor-master/src/rewrite_phase.c:110-122 | every duplicate of an inherited sparse container is marked, before the segment is handed on |
| `DedupPhase.Pipeline.CheckTurn` | destor-master/src/index/index.c:377-413 | one turn of index_check_buffer, without a result exactly when assert(bq) fires |
| `DedupPhase.Pipeline.IndexCheckBuffer` | destor-master/src/index/index.c:377-413 | every chunk of the segment as CheckBuffer says, without a result exactly when an assert fires; SegmentPending shows that none does |
| `DedupPhase.Pipeline.IndexUpdate` | destor-master/src/index/index.c:361-370 | every feature maps to the id; other keys stay |
| `DedupPhase.Pipeline.MakeRoom` | destor-master/src/filter_phase.c:132-156 | the container that takes the chunk, the full one sealed before it |
| `DedupPhase.Pipeline.AddChunkToContainer` | destor-master/src/filter_phase.c:158-187 | the container grows by the chunk unless it has it; the result says which |
| `DedupPhase.Pipeline.ResolveChunk` | destor-master/src/filter_phase.c:110-119 | a duplicate without an id, or of a chunk this segment has rewritten, takes the new id; no result exactly when assert(ruc) fires |
| `DedupPhase.Pipeline.WriteTurn` | destor-master/src/filter_phase.c:132-187 | the chunk goes into a container, and the table for its kind remembers it; no result exactly when it cannot fit or the assert on an exact index fires |
| `DedupPhase.Pipeline.IsCached` | destor-master/src/filter_phase.c:89-94 | the cache-aware filter asks the simulated restore cache of the backup so far |
| `DedupPhase.Pipeline.DecideTurn` | destor-master/src/filter_phase.c:121-187 | written exactly when unique, or not denied and sparse, or out of order with the switch on and not cached |
| `DedupPhase.Pipeline.NoteTurn` | destor-master/src/filter_phase.c:196-203 | the id joins the monitor, and the simulated cache becomes that of one more access |
| `DedupPhase.Pipeline.FilterTurn` | destor-master/src/filter_phase.c:78-207 | one turn of the filter loop takes state, tables and chunk to FilterChunk of them; no result exactly when one of its asserts fires |
| `DedupPhase.Pipeline.FilterChunks` | destor-master/src/filter_phase.c:78-207 | the loop takes the state to FilterAll of it, from any state and for any segment, failing turns included |
| `DedupPhase.Pipeline.UpdateTurn` | destor-master/src/index/index.c:415-451 | one queue loses its head and learns the id |
| `DedupPhase.Pipeline.IndexUpdateBuffer` | destor-master/src/index/index.c:415-451 | the queues become PopAll of them and chunk_num drops by the segment's chunks; it reports exactly whether every chunk had an id and a queue |
| `DedupPhase.Pipeline.WriteRecipe` | destor-master/src/filter_phase.c:213-244 | one pointer per chunk, in order; it reports exactly whether every id is that of a container |
| `DedupPhase.Pipeline.SealOpen` | destor-master/src/filter_phase.c:139-153 | the features of the full container enter the index, and the container is handed over |
| `DedupPhase.Pipeline.FilterOldestSegment` | destor-master/src/filter_phase.c:41-247 | from any valid state with a segment in flight, no assert between index_check_buffer and the recipe fires, and the state becomes FilterSegment of it, which is valid |
| `DedupPhase.Pipeline.UpdateManifest` | destor-master/src/cma.c:17-75 | every container the backup refers to gets the backup's time, the others keep theirs |
| `DedupPhase.Pipeline.EndBackup` | destor-master/src/filter_phase.c:308-323 | the last container, the manifest, and the end of the process, from a valid state to a valid state |
| `DedupPhase.Pipeline.TruncManifest` | destor-master/src/cma.c:83-139 | the reclaimed ids are those with a time up to the given backup, and exactly they leave |
| `DedupPhase.Pipeline.DeleteEntries` | destor-master/src/do_delete.c:16-48 | exactly the entries of this container under its own keys leave |
| `DedupPhase.Pipeline.DeleteAll` | destor-master/src/do_delete.c:36-48 | over all reclaimed containers the store becomes StoreWithout of it, about which CleanIndex is proved |
| `DedupPhase.Pipeline.DoDelete` | destor-master/src/do_delete.c:23-54 | from any valid idle state the state becomes Delete of it, and it is valid again if and only if the deletion was clean |
| `KvStore.Table.Lookup` | destor-master/src/index/kvstore_htable.c:222-225 | nothing for a key without ids, otherwise the value array with the newest id first |
| `KvStore.Table.Update` | destor-master/src/index/kvstore_htable.c:227-236 | for any id: the array becomes the id and then the old array without its last place; values stay ordered when ids come in increasing order |
| `KvStore.Table.Delete` | destor-master/src/index/kvstore_htable.c:242-276 | the id, which the assert makes the oldest, leaves, an empty value leaves the table; other keys stay |
| `KvStore.PoppedIs` | destor-master/src/index/kvstore_htable.c:242-276 | under the assert exactly the id is lost, and the others keep their order |
| `KvStore.ClearId` | destor-master/src/index/kvstore_htable.c:242-276 | the search through one value removes exactly the id, and the rest keeps its order |
| `KvStore.DeleteAssertIff` | destor-master/src/index/kvstore_htable.c:242-276 | the assert in the delete holds if and only if the id is not there or no older id is |
| `KvStore.OutOfOrderDeleteFails` | destor-master/src/index/kvstore_htable.c:242-276 | two ids of which the newer is deleted first make it fail |
| `KvStore.AssertIsOnlyLast` | destor-master/src/index/kvstore_htable.c:242-276 | for values in any order: the assert holds if and only if the id is nowhere but at the end |
| `KvStore.AnyOrderIff` | destor-master/src/do_delete.c:36-48 | do_delete walks a hash table: no assert fires in any order of the reclaimed ids if and only if a value has none of them besides its oldest id |
| `KvStore.LengthOneNeverAsserts` | destor-master/src/do_delete.c:36-48 | with values of length one no order makes it fire |
| `KvStore.FifoNeverAsserts` | destor-master/src/index/kvstore_htable.c:227-276 | with ids inserted in increasing order and removed oldest first, the value holds only ids inserted and not removed, newest first, and no assert fires |
| `Bytes.BigRoundTrip` | destor-master/src/utils/serial.c:48-56 | what is written most significant byte first reads back |
| `Bytes.SignedRoundTrip` | destor-master/src/utils/serial.c:127-167 | negative values read back as well |
| `Bytes.LittleRoundTrip` | destor-master/src/recipe/recipestore.c:372-400 | a field copied byte by byte from memory reads back |
| `Bytes.ReadAfterWrite` | destor-master/src/storage/containerstore.c:233-244 | after fseek and fwrite those bytes are there |
| `Bytes.ReadElsewhere` | destor-master/src/storage/containerstore.c:233-244 | bytes outside the written range are untouched |
| `ContainerStore.Container.Add` | destor-master/src/storage/containerstore.c:464-488 | a new chunk is laid behind the others, an old one changes nothing; the layout invariant is kept |
| `ContainerStore.Container.Serialise` | destor-master/src/storage/containerstore.c:212-231 | the block is the data area and, in any order of the hash table, the metadata; chunks in the data area are untouched |
| `ContainerStore.FillMeta` | destor-master/src/storage/containerstore.c:214-231 | the fields and entries, in the order of the hash table, overwrite the metadata area and nothing else |
| `ContainerStore.Pool.WriteContainer` | destor-master/src/storage/containerstore.c:196-281 | a non-empty container goes to its own 4 MB extent of the pool; an empty one is not written and its id is given back |
| `ContainerStore.Pool.RetrieveById` | destor-master/src/storage/containerstore.c:283-348 | the extent is parsed entry by entry |
| `ContainerStore.MetaRoundTrip` | destor-master/src/storage/containerstore.c:212-243 | for every iteration order of the hash table the metadata reads back |
| `ContainerStore.MetaAgrees` | destor-master/src/storage/containerstore.c:372-424 | reading the metadata alone agrees with reading the whole container |
| `ContainerStore.WriteThenRetrieve` | destor-master/src/storage/containerstore.c:233-348 | a written container is what its id retrieves, and every other container stays as it was |
| `ContainerStore.CountIsElsewhere` | destor-master/src/storage/containerstore.c:111-112 | the container count at the head of the pool is outside every container |
| `ContainerStore.TilesApart` | destor-master/src/storage/containerstore.c:464-488 | chunk ranges never overlap and never leave the data area |
| `ContainerStore.TilesCover` | destor-master/src/storage/containerstore.c:464-488 | every byte below the data size belongs to a chunk: the ranges tile the area |
| `ContainerStore.LaidOutGrows` | destor-master/src/storage/containerstore.c:464-488 | adding a chunk keeps every earlier one byte for byte |
| `ContainerStore.ChunksReadBack` | destor-master/src/storage/containerstore.c:431-446 | what a written container gives back is exactly the chunks added to it |
| `SyncQueue.Queue.Push` | destor-master/src/utils/queue.c:36-55 | the linked nodes spell the old sequence and the new element |
| `SyncQueue.Queue.Pop` | destor-master/src/utils/queue.c:57-72 | the first element leaves; NULL exactly on an empty queue |
| `SyncQueue.Queue.Top` | destor-master/src/utils/queue.c:74-78 | the first element, nothing changes |
| `SyncQueue.Queue.GetN` | destor-master/src/utils/queue.c:99-111 | the n-th element, if there is one |
| `SyncQueue.Queue.Find` | destor-master/src/utils/queue.c:116-130 | the first element that the condition hits |
| `SyncQueue.SyncQueue.Push` | destor-master/src/utils/sync_queue.c:27-51 | dropped exactly after term, waits exactly when full, otherwise appended |
| `SyncQueue.SyncQueue.Resume` | destor-master/src/utils/sync_queue.c:27-51 | a push that has waited appends as soon as there is room |
| `SyncQueue.SyncQueue.Pop` | destor-master/src/utils/sync_queue.c:56-75 | the oldest element; ended exactly when empty and terminated |
| `SyncQueue.SyncQueue.GetTop` | destor-master/src/utils/sync_queue.c:118-137 | the oldest element stays in the queue |
| `SyncQueue.SyncQueue.Find` | destor-master/src/utils/sync_queue.c:97-116 | the oldest element that the condition hits |
| `SyncQueue.SyncQueue.Term` | destor-master/src/utils/sync_queue.c:81-92 | no more elements are accepted; the ones there stay |
| `AppendThread.StepKeeps` | destor-master/src/storage/containerstore.c:24-64 | one atomic step of filter, append or dedup keeps: what is visible in the index is queued, being written or on disk |
| `AppendThread.EveryInterleaving` | destor-master/src/storage/containerstore.c:24-64 | so does any interleaving, from any disk on which the earlier backups' containers are found |
| `AppendThread.VisibleIsPublished` | destor-master/src/index/index.c:361-370 | in every interleaving dedup can see exactly what earlier backups and filter have published, with those chunks |
| `AppendThread.InBufferOrOnDisk` | destor-master/src/storage/containerstore.c:372-424 | an id that dedup can see while it may hold index_lock, of this backup or an earlier one, is in the queue or on disk, and a lookup that did not find it in the queue finds it on disk with the same chunks |
| `AppendThread.NothingAcceptedIsLost` | destor-master/src/storage/containerstore.c:24-64 | the queue is FIFO and bounded, and when the append thread ends every published container is on disk |
| `RecipeStore.SegmentIdRoundTrip` | destor-master/src/recipe/recipestore.c:311-325 | the three fields come back from the 64-bit id if and only if the size is below 2^16, the offset below 2^32 and the backup number below 2^15 |
| `RecipeStore.SegmentIdWraps` | destor-master/src/recipe/recipestore.c:311-325 | the backup number that comes back is its low 16 bits, signed; all fields full give TEMPORARY_ID |
| `RecipeStore.SegmentIdLosesBackup` | destor-master/src/recipe/recipestore.c:311-325 | backup 32768 reads back as -32768 and 65536 as 0; a full id of backup 65535 is TEMPORARY_ID |
| `RecipeStore.PointerRoundTrip` | destor-master/src/recipe/recipestore.c:377-400 | a 32-byte chunk pointer reads back, and the rest of the file follows |
| `RecipeStore.BackupVersion.StartSegment` | destor-master/src/recipe/recipestore.c:329-367 | the id returned gives back backup, offset and size of the segment to come if and only if they are in range |
| `RecipeStore.BackupVersion.AppendChunkPointer` | destor-master/src/recipe/recipestore.c:377-400 | the pointer joins the segment buffer and its container id the record log |
| `RecipeStore.BackupVersion.EndSegment` | destor-master/src/recipe/recipestore.c:329-367 | the buffer goes to the file between its two flags: the file is the image of one segment more |
| `RecipeStore.RecordLog.Access` | destor-master/src/recipe/recipestore.c:379-389 | the access log grows by the id |
| `RecipeStore.RecordLog.Put` | destor-master/src/recipe/recipestore.c:381-386 | buffered and written bytes together grow by the id, and the buffer never overflows |
| `RecipeStore.RecordLog.Finish` | destor-master/src/recipe/recipestore.c:229-257 | the record file is the squeezed access log and an end mark |
| `RecipeStore.RunsAreSqueezed` | destor-master/src/recipe/recipestore.c:379-389 | the record file is the access sequence without adjacent repetitions |
| `RecipeStore.RecipeReader.ReadNext` | destor-master/src/recipe/recipestore.c:430-463 | the next n pointers, or all that are left, flags skipped |
| `RecipeStore.RecipeReader.ReadOne` | destor-master/src/recipe/recipestore.c:430-463 | the next pointer, segment boundaries skipped |
| `RecipeStore.RecordReader.ReadNext` | destor-master/src/recipe/recipestore.c:465-483 | the next n ids, or all that are left; NULL exactly after the end mark |
| `RecipeStore.RecipeReadsBack` | destor-master/src/recipe/recipestore.c:430-463 | whatever the segmentation, reading as many pointers as were written gives exactly those, in order |
| `RecipeStore.PairsLast` | destor-master/src/recipe/recipestore.c:597-638 | the pairs of a segment are exactly its fingerprints, each with the last pointer that has it |
| `RecipeStore.SegmentReadsBack` | destor-master/src/recipe/recipestore.c:597-638 | a segment reads back with its id and its pointers |
| `RecipeStore.SegmentFoundById` | destor-master/src/recipe/recipestore.c:521-638 | the id from append_segment_flag leads back to that backup and that segment, which carries that id, when its fields are in range |
| `RecipeStore.PrefetchReadsNext` | destor-master/src/recipe/recipestore.c:521-595 | prefetching gives exactly the next n segments, or all that are left, each with its own id; assert(j!=0) fires exactly when it starts behind the last segment |
| `Restore.Fetch` | destor-master/src/do_restore.c:38-46 | the chunk is found by fingerprint in the LRU cache, or its container is read; either way that container is the most recent one in the cache afterwards |
| `Restore.RestoreChunk` | destor-master/src/do_restore.c:38-49 | one chunk comes out as what its fingerprint stands for |
| `Restore.LruRestore` | destor-master/src/do_restore.c:8-63 | for any cache size, the bytes of every pointer in order; when no two containers of the recipe share a chunk, the containers read are the misses of an LRU cache on the container ids, about which StackTheorem and MissesMonotone are proved |
| `Restore.ServedIsCached` | destor-master/src/do_restore.c:38-49 | after each pointer the most recent cached container has its chunk |
| `Restore.ReadsAreMisses` | destor-master/src/do_restore.c:38-49 | pointer by pointer the cache asked by fingerprint moves as a cache keyed by container ids |
| `Restore.BackupCanBeServed` | destor-master/src/do_restore.c:8-63 | after any run of backups and deletions, every remaining backup has all its chunks in the pool |
| `Restore.PoolGrows` | destor-master/src/storage/containerstore.c:196-281 | writing one laid-out container, in any hash order, leaves a pool that holds it with its bytes and still holds every other one |
| `Sizes.AddFits` | destor-master/src/storage/containerstore.c:464-488 | adding a chunk that does not overflow keeps the container within its data area and its metadata area |
| `Sizes.TurnSizes` | destor-master/src/filter_phase.c:78-207 | one turn of the filter loop keeps every container within its areas and the chunk's size its content's |
| `Sizes.RunSizes` | destor-master/src/filter_phase.c:41-327 | so does any run: every container it seals can be filled, and every recipe entry has the size of its chunk |
| `RoundTrip.FillContainer` | destor-master/src/storage/containerstore.c:464-488 | a container filled chunk by chunk with what the run listed has exactly those chunks, with their bytes |
| `RoundTrip.WriteSealed` | destor-master/src/storage/containerstore.c:196-281 | filling a sealed container and writing it in some hash order makes the pool hold it, every other container kept |
| `RoundTrip.WriteContainers` | destor-master/src/storage/containerstore.c:24-64 | after all of them the pool holds every container of the run with its bytes |
| `RoundTrip.RunIsWritable` | destor-master/src/filter_phase.c:41-327 | the containers that any run seals are not empty, fit, have increasing ids, and are those that the live ones come from |
| `RoundTrip.SizeBound` | destor-master/src/filter_phase.c:213-244 | a recipe entry of a live backup is no larger than a container, so its size fits the field |
| `RoundTrip.RecipeIsStorable` | destor-master/src/filter_phase.c:213-244 | the recipe of a finished backup lists the stream fed to dedup, and each entry fits its fields |
| `RoundTrip.WriteRecipe` | destor-master/src/recipe/recipestore.c:329-400 | segment by segment the recipe file becomes the image of the segments, and the accesses of all of them are logged |
| `RoundTrip.WriteAndRead` | destor-master/src/recipe/recipestore.c:329-463 | reading the recipe file that was written gives exactly its pointers |
| `RoundTrip.BackUp` | destor-master/src/filter_phase.c:41-327 | after any run: containers written in any hash order, recipe framed in any segmentation, read back as the pointers recorded, each served from the pool |
| `RoundTrip.BackUpAndRestore` | destor-master/src/do_restore.c:8-108 | backup and restore end to end: after any run with clean deletions, a live backup restored with an LRU cache of any size gives the stream fed to dedup, byte for byte; with exact deduplication the containers read are the LRU misses on the recipe's container ids |
| `RoundTrip.RestoreOptimally` | destor-master/src/optimal_restore.c:251-286 | the optimal cache serves every chunk with its bytes, from whichever cached container has its fingerprint |
| `RoundTrip.BackUpAndRestoreOptimally` | destor-master/src/optimal_restore.c:251-286 | the same stream, byte for byte, with the fewest container reads when the whole record file is in the window |
| `Belady.OneOff` | destor-master/src/optimal_restore.c:182-249 | exchange argument: having another container instead costs at most one read |
| `Belady.SoonerIsBetter` | destor-master/src/optimal_restore.c:182-249 | having the container needed sooner is never worse |
| `Belady.FarthestIsOptimal` | destor-master/src/optimal_restore.c:182-249 | evicting a container whose next access is farthest reads no more than any demand-paging schedule from the same cache |
| `OptimalRestore.PositionsAreNextUse` | destor-master/src/optimal_restore.c:38-49 | the first position of a record in the window is its next use, as far as the window reaches |
| `OptimalRestore.Window.FillOnce` | destor-master/src/optimal_restore.c:68-91 | the window holds the next records, as many as fit, each with its sequence numbers |
| `OptimalRestore.Window.Index` | destor-master/src/optimal_restore.c:74-89 | the ids just read join the table, each with the next sequence number |
| `OptimalRestore.Window.Slide` | destor-master/src/optimal_restore.c:115-128 | the window moves by one record and its assert holds; it reaches the end of the file or at least half its size ahead |
| `OptimalRestore.Candidates` | destor-master/src/optimal_restore.c:187-207 | up to eleven, none of the cached records with a later next access, and with fewer than eleven every record without further access |
| `OptimalRestore.OptimalCache.Kick` | destor-master/src/optimal_restore.c:187-213 | exactly one container leaves, the least recently used of the candidates, and it has no further access in the window or the farthest one |
| `OptimalRestore.OptimalCache.DropRecord` | destor-master/src/optimal_restore.c:217-231 | its record leaves the sorted records |
| `OptimalRestore.OptimalCache.MakeRoom` | destor-master/src/optimal_restore.c:184-232 | only a full cache loses a container, by that choice |
| `OptimalRestore.OptimalCache.Insert` | destor-master/src/optimal_restore.c:182-249 | the sorted records match the cached containers exactly before and after |
| `OptimalRestore.OptimalCache.Access` | destor-master/src/optimal_restore.c:133-146 | a miss exactly when the container is not cached; it comes first in the LRU queue, the victim leaves it and the others keep their order |
| `OptimalRestore.Restorer.Serve` | destor-master/src/optimal_restore.c:265-268 | afterwards the container is cached, read exactly when it was not; a victim is the farthest as far as the window sees, and with the whole file in it the farthest of all |
| `OptimalRestore.Restorer.Chunk` | destor-master/src/optimal_restore.c:251-286 | a chunk is a new record unless its container is the last one; the container that serves it comes first in the LRU queue |
| `OptimalRestore.ConsumeNext` | destor-master/src/optimal_restore.c:251-286 | one chunk: the window moves exactly when its container is not that of the chunk before, and it is served from a container that was read and has it |
| `OptimalRestore.Consume` | destor-master/src/optimal_restore.c:251-286 | over all chunks of a backup the window ends exactly at the end of its record file, and each chunk is served from a container that was read and has it |
| `OptimalRestore.OptimalRestoreThread` | destor-master/src/optimal_restore.c:251-286 | every chunk is served from a container of the record file that has it; the reads are those of a demand-paging schedule on that file whose every victim is the farthest within the end of the file or at least half a window ahead; with the whole file in the window no schedule of the same cache size reads less |
| `Assembly.AssemblyArea.Push` | destor-master/src/assembly_restore.c:100-116 | the item joins the area; full exactly when the buffered data reaches the area size |
| `Assembly.AssemblyArea.DropBoundaries` | destor-master/src/assembly_restore.c:37-53 | exactly the file boundaries at the head leave, in order |
| `Assembly.FillOne` | destor-master/src/assembly_restore.c:66-79 | a chunk of the container that is read gets its bytes and becomes READY, any other item stays; the sizes agree |
| `Assembly.AssemblyArea.FillFrom` | destor-master/src/assembly_restore.c:55-79 | one container is read and exactly its chunks in the area are filled |
| `Assembly.AssemblyArea.Issue` | destor-master/src/assembly_restore.c:81-96 | the longest finished head leaves, and the area size stays the sum of the data in it |
| `Assembly.AssemblyArea.AssembleArea` | destor-master/src/assembly_restore.c:30-98 | what leaves and what stays are as Assembled says; NULL exactly on an empty area; one container read, none for file boundaries alone |
| `Assembly.NothingFilledTwice` | destor-master/src/assembly_restore.c:63-79 | no chunk of the container about to be read is READY |
| `Assembly.AssembledReads` | destor-master/src/assembly_restore.c:55-79 | after a call no chunk of the container that was read waits any more, and all others wait as before |
| `Assembly.EachContainerRead` | destor-master/src/assembly_restore.c:30-184 | every container of the recipe is read at least once, whatever the area, and exactly once when the area can hold the recipe |
| `Assembly.AssembledKeeps` | destor-master/src/assembly_restore.c:30-98 | a call on a non-empty area issues something, in order and filled, and the first data chunk that stays is not READY |
| `Assembly.Drain` | destor-master/src/assembly_restore.c:157-184 | after the last item the area is assembled until it is empty; the loop ends, nothing is lost, and the reads are those of AreaReads |
| `Assembly.AssemblyRestore` | destor-master/src/assembly_restore.c:118-188 | for any cache size, the input items come out in order, every data chunk with its content; no fewer reads than containers, exactly one each when the area can hold the recipe |
| `Similarity.EnterFeature` | destor-master/src/index/similarity_detection.c:60-84 | one feature joins the candidate of every id stored for it, once |
| `Similarity.SimilarSegments` | destor-master/src/index/similarity_detection.c:49-84 | the candidates are exactly the ids that share a feature, each with exactly the shared features |
| `Similarity.FeaturesTrim` | destor-master/src/index/similarity_detection.c:35-43 | exactly the features of the top segment leave |
| `Similarity.TakeTop` | destor-master/src/index/similarity_detection.c:109-120 | after each pick every candidate left has its features without all that the picks cover, sorted again |
| `Similarity.SortCandidates` | destor-master/src/index/similarity_detection.c:85-98 | every candidate once, by decreasing number of shared features |
| `Similarity.TrimAll` | destor-master/src/index/similarity_detection.c:109-120 | every candidate left loses exactly the features of the top segment |
| `Similarity.TopSegmentSelect` | destor-master/src/index/similarity_detection.c:85-126 | the picks are greedy, and as many as asked for |
| `Similarity.PickGains` | destor-master/src/index/similarity_detection.c:109-120 | each pick gains at least 1/k of what any k segments cover beyond the picks so far |
| `Similarity.CoverageBound` | destor-master/src/index/similarity_detection.c:49-126 | after j picks at most (1 - 1/k)^j of what any k segments cover is missing |
| `Har.Monitor.Update` | destor-master/src/har_rewrite.c:61-81 | the record of a container is the sum of its accesses |
| `Har.CollectSparse` | destor-master/src/har_rewrite.c:104-129 | the sorted sequence holds exactly the sparse containers; both totals are right |
| `Har.Trim` | destor-master/src/har_rewrite.c:139-150 | the loop ends, what is kept is a prefix within the limit, and one more would exceed it |
| `Har.SmallestSum` | destor-master/src/har_rewrite.c:108-150 | of all choices of k containers the k smallest have the least bytes |
| `Har.KeptIsMost` | destor-master/src/har_rewrite.c:139-150 | no sparse containers within the limit are more than those kept |
| `Har.AffordableMeans` | destor-master/src/har_rewrite.c:108-150 | in the configuration's terms: distinct containers used to less than the threshold whose bytes are within the limit's share of all bytes, a limit of 1 being none |
| `Har.CloseHar` | destor-master/src/har_rewrite.c:87-157 | the sparse list is within the limit, and no other subset of sparse containers within it has more members |
| `Capping.RewriteBuffer.Push` | destor-master/src/rewrite_phase.c:34-74 | the item is appended; each record is the sum of buffered bytes of its container; full exactly at the limit |
| `Capping.RewriteBuffer.Pop` | destor-master/src/rewrite_phase.c:80-105 | the first item leaves, with the HAR mark where it is due; the records stay exact |
| `Capping.SortRecords` | destor-master/src/cap_rewrite.c:10-16 | every record once, by decreasing bytes |
| `Capping.CappingMarks` | destor-master/src/cap_rewrite.c:44-105 | what comes out is what went in, in order, with marks added only |
| `Capping.GetTop` | destor-master/src/cap_rewrite.c:10-35 | at most level containers, all when there are no more, none left out with more bytes than one taken |
| `Capping.Flush` | destor-master/src/cap_rewrite.c:60-102 | everything buffered leaves in order, capped by the top containers of the buffer |
| `Capping.FlushCaps` | destor-master/src/cap_rewrite.c:60-102 | unmarked duplicates refer to at most level containers, each with at least the buffered bytes of any other; marks are set exactly outside them, and HAR marks exactly the chunks of inherited sparse containers |
| `Capping.CapRewrite` | destor-master/src/cap_rewrite.c:44-105 | the input is cut into full buffers and a rest; the output is those, each capped by its own top containers, in order |
| `Sds.CatRepr` | destor-master/src/utils/sds.c:546-575 | the quoted form of the bytes is appended |
| `Sds.ReprIsReadable` | destor-master/src/utils/sds.c:546-575 | the quoted form is printable, and printable bytes other than quotes and backslashes stand for themselves |
| `Sds.TokenTurn` | destor-master/src/utils/sds.c:639-720 | one turn of the token loop, in the three quoting modes, is one step of the token function |
| `Sds.SplitArgs` | destor-master/src/utils/sds.c:608-735 | the arguments of the line, or NULL, as the token function gives them |
| `Sds.OneByte` | destor-master/src/utils/sds.c:644-678 | each escaped byte parses back, whatever follows |
| `Sds.QuotedReadsBack` | destor-master/src/utils/sds.c:608-735 | a quoted string followed by a blank or the end parses back whole |
| `Sds.WordReadsBack` | destor-master/src/utils/sds.c:696-714 | a plain word parses back and takes the blank behind it along |
| `Sds.SingleReadsBack` | destor-master/src/utils/sds.c:680-695 | a single-quoted string parses back, unless it has a zero byte or ends in a backslash |
| `Sds.AnyStyleSplitsBack` | destor-master/src/utils/sds.c:608-735 | whichever way each argument is written, as a plain word, in single or in double quotes, splitting the joined line gives exactly the list |
| `Sds.SplitsBack` | destor-master/src/utils/sds.c:608-735 | for every list of byte strings, splitting the quoted strings joined by blanks gives exactly the list |

## Left out

- Backups.NothingDangles: for runs whose deletions are clean, the exact condition of `Backups.DanglesExactlyWhen`; one id per key, as physical locality is taken to use the store (`KvStore` has the general value length).
- Backups.EveryRun: of the rewriting algorithms only the marks enter, as any step `Flag` on chunks in flight; the switch of the cfl filter is an arbitrary choice per chunk.
- Backups.ExactDeduplication: with rewriting off, as the design states it; a rewritten chunk is stored again on purpose.
- ContainerStore.ChunksReadBack: data, size and membership only; `get_chunk_in_container` copies the fingerprint field from the pointer itself (storage/containerstore.c:443), so nothing is claimed of it.
- Sds.SingleReadsBack: a backslash at the end would escape the closing quote, so such an argument needs double quotes.
- RoundTrip.BackUpAndRestore: container ids below 2^63; the containers are written after the run instead of during it (`AppendThread` has the interleaving); chunks are as long as their contents.
- RoundTrip.RestoreOptimally: the containers that the cache holds are read again from the pool when a chunk is taken from one; a cache keeps what it read, and the pool does not change meanwhile.
- OptimalRestore.OptimalRestoreThread: a cache size of 0 is excluded: `lru_cache_is_full` is then always true and the first access would evict from an empty list. The window has at least one place.
- Har.CloseHar: a rewrite limit below 0 is excluded, because the loop would then run past the empty sequence. The file it writes is the returned list.
- Capping.RewriteBuffer.Push: chunks have at least one byte, and the buffer holds at least one chunk. The second sort key of the record sequence does not appear.
- RecipeStore.BackupVersion.AppendChunkPointer: one pointer per call, as filter_thread calls it.
- SyncQueue.SyncQueue.Pop: a call that would block reports that it waits; which thread wakes first is arbitrary.
- Liveness of the wait in dedup_phase.c: its threshold is tight, and only safety is stated.
- Logical locality: the per-chunk lookup after the similar segments are prefetched, and deletion of segments.
- Collection by reference time map under `src/gc/` and the id_shift bookkeeping it reads: they do not influence deduplication.
- AE chunking: neither its size bound nor independence of blocks holds.
- CFL and CBR rewriting: their policies are floating-point heuristics; what they may mark is any step `Flag` of a run.
- Simulation levels that keep metadata only, statistics, timers, logging, configuration and the command line.
- Sampling by minima, bloom filter, segmenting, SHA-1: easy members, or outside the properties above.
- Opening and closing of backup jobs, framing of the `.meta` files, directories, real files and pthreads.
