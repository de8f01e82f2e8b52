/** do_restore.c with the LRU cache: what a restore puts out is what the backup took in. */
module Restore {
  import opened Common
  import opened Bytes
  import opened ContainerStore
  import opened Lru
  import RecipeStore
  import DedupSpec
  import DedupSafety
  import Backups

  type Cached = (StoredMeta, Text)

  /** Equal fingerprints mean equal chunks: whatever a container says of a fingerprint is its content. */
  ghost predicate Faithful(c: Cached, content: map<ChunkFp, Text>) {
    forall fp :: fp in c.0.entries ==> fp in content && ChunkBytes(c, fp) == Some(content[fp])
  }

  function HoldsChunk(fp: ChunkFp): Cached -> bool {
    (c: Cached) => fp in c.0.entries
  }

  /** The pool can serve the pointer. */
  ghost predicate Served(pool: Text, content: map<ChunkFp, Text>, p: Pointer) {
    p.id >= 0 && Retrieve(pool, p.id).Some?
    && p.fp in Retrieve(pool, p.id).value.0.entries && Faithful(Retrieve(pool, p.id).value, content)
  }

  ghost predicate AllFaithful(q: seq<Cached>, content: map<ChunkFp, Text>) {
    forall i :: 0 <= i < |q| ==> Faithful(q[i], content)
  }

  /** The LRU cache after one pointer: any container that has the chunk comes to the front, otherwise the
      pointer's own container is read in. */
  function CacheAfter(q: seq<Cached>, cacheSize: int, pool: Text, p: Pointer): seq<Cached> {
    if Found(q, HoldsChunk(p.fp)).Some? then Touched(q, HoldsChunk(p.fp))
    else if p.id >= 0 && Retrieve(pool, p.id).Some? then Inserted(q, cacheSize, Retrieve(pool, p.id).value)
    else q
  }

  /** How many pointers find no cached container with their chunk. */
  function ContainerReads(q: seq<Cached>, cacheSize: int, pool: Text, pointers: seq<Pointer>): nat
    decreases |pointers|
  {
    if pointers == [] then 0
    else (if Found(q, HoldsChunk(pointers[0].fp)).Some? then 0 else 1)
         + ContainerReads(CacheAfter(q, cacheSize, pool, pointers[0]), cacheSize, pool, pointers[1..])
  }

  lemma ReadsFrom(q: seq<Cached>, cacheSize: int, pool: Text, pointers: seq<Pointer>, i: nat)
    requires i < |pointers|
    ensures ContainerReads(q, cacheSize, pool, pointers[i..])
      == (if Found(q, HoldsChunk(pointers[i].fp)).None? then 1 else 0)
         + ContainerReads(CacheAfter(q, cacheSize, pool, pointers[i]), cacheSize, pool, pointers[i + 1..])
  {
    assert pointers[i..][1..] == pointers[i + 1..];
  }

  /** The container that a chunk is taken from: any cached one that has it, otherwise its own is read. */
  method Fetch(pool: Pool, cache: LruCache<Cached>, c: Pointer, ghost content: map<ChunkFp, Text>)
    returns (found: Cached, missed: bool)
    requires cache.Valid() && AllFaithful(cache.elemQueue, content) && Served(pool.file, content, c)
    modifies cache
    ensures cache.Valid() && AllFaithful(cache.elemQueue, content) && cache.maxSize == old(cache.maxSize)
    ensures c.fp in found.0.entries && Faithful(found, content)
    ensures cache.elemQueue == CacheAfter(old(cache.elemQueue), cache.maxSize, pool.file, c)
    ensures missed == Found(old(cache.elemQueue), HoldsChunk(c.fp)).None?
    ensures cache.elemQueue != [] && cache.elemQueue[0] == found
  {
    var con := cache.Lookup(HoldsChunk(c.fp));
    missed := con.None?;
    if missed {
      var read := pool.RetrieveById(c.id);
      found := read.value;
      cache.Insert(found);
    } else {
      found := con.value;
    }
  }

  // ---- what the cache is worth

  /** The container that served a chunk is cached, and the most recent one. */
  lemma ServedIsCached(q: seq<Cached>, cacheSize: int, pool: Text, content: map<ChunkFp, Text>, p: Pointer)
    requires Served(pool, content, p)
    ensures var q' := CacheAfter(q, cacheSize, pool, p); q' != [] && p.fp in q'[0].0.entries
  {}

  /** Every chunk of the recipe is in its own container and in no other one of the recipe. */
  ghost predicate Alone(pool: Text, pointers: seq<Pointer>) {
    forall i, j :: 0 <= i < |pointers| && 0 <= j < |pointers| && InContainer(pool, pointers[j].id, pointers[i].fp) ==>
      pointers[i].id == pointers[j].id
  }

  predicate InContainer(pool: Text, id: ContainerId, fp: ChunkFp) {
    id >= 0 && Retrieve(pool, id).Some? && fp in Retrieve(pool, id).value.0.entries
  }

  /** The cached containers are those with these ids, each one of the recipe's. */
  ghost predicate StandFor(q: seq<Cached>, ids: seq<ContainerId>, pool: Text, all: seq<Pointer>) {
    |q| == |ids| && forall i :: 0 <= i < |ids| ==>
      ids[i] in RecipeStore.IdsOf(all) && ids[i] >= 0 && Retrieve(pool, ids[i]) == Some(q[i])
  }

  lemma SameHit(q: seq<Cached>, ids: seq<ContainerId>, pool: Text, all: seq<Pointer>, content: map<ChunkFp, Text>, k: nat)
    requires StandFor(q, ids, pool, all) && Alone(pool, all) && k < |all| && Served(pool, content, all[k])
    ensures FirstHit(q, HoldsChunk(all[k].fp)) == FirstHit(ids, ById(all[k].id))
  {
    var p := all[k];
    forall i | 0 <= i < |ids| ensures HoldsChunk(p.fp)(q[i]) == ById(p.id)(ids[i]) {
      var j :| 0 <= j < |all| && RecipeStore.IdsOf(all)[j] == ids[i];
      assert InContainer(pool, all[j].id, p.fp) == HoldsChunk(p.fp)(q[i]);
    }
    SameFirst(q, ids, HoldsChunk(p.fp), ById(p.id));
  }

  lemma {:induction false} SameFirst<S, T>(q: seq<S>, ids: seq<T>, f: S -> bool, g: T -> bool)
    requires |q| == |ids| && forall i :: 0 <= i < |ids| ==> f(q[i]) == g(ids[i])
    ensures FirstHit(q, f) == FirstHit(ids, g)
  {
    if q != [] {
      assert f(q[0]) == g(ids[0]);
      assert forall i :: 0 <= i < |ids| - 1 ==> f(q[1..][i]) == g(ids[1..][i]);
      SameFirst(q[1..], ids[1..], f, g);
    }
  }

  lemma FrontStands(q: seq<Cached>, ids: seq<ContainerId>, pool: Text, all: seq<Pointer>, n: nat)
    requires StandFor(q, ids, pool, all) && n < |q|
    ensures StandFor(ToFront(q, n), ToFront(ids, n), pool, all)
  {}

  lemma InsertedStands(q: seq<Cached>, ids: seq<ContainerId>, pool: Text, all: seq<Pointer>, size: int, id: ContainerId)
    requires StandFor(q, ids, pool, all) && id in RecipeStore.IdsOf(all) && id >= 0 && Retrieve(pool, id).Some?
    ensures StandFor(Inserted(q, size, Retrieve(pool, id).value), Inserted(ids, size, id), pool, all)
  {}

  /** One pointer moves the cache as one access to its container id. */
  lemma OneServed(q: seq<Cached>, ids: seq<ContainerId>, cacheSize: int, pool: Text, all: seq<Pointer>,
                  content: map<ChunkFp, Text>, k: nat)
    requires StandFor(q, ids, pool, all) && Alone(pool, all) && k < |all| && Served(pool, content, all[k])
    ensures StandFor(CacheAfter(q, cacheSize, pool, all[k]), Accessed(ids, cacheSize, all[k].id), pool, all)
    ensures Found(q, HoldsChunk(all[k].fp)).Some? <==> all[k].id in ids
  {
    var id, n := all[k].id, FirstHit(q, HoldsChunk(all[k].fp));
    SameHit(q, ids, pool, all, content, k);
    HitsById(ids, id);
    if n < |q| {
      FrontStands(q, ids, pool, all, n);
    } else {
      assert RecipeStore.IdsOf(all)[k] == id;
      InsertedStands(q, ids, pool, all, cacheSize, id);
    }
  }

  /** From the k-th pointer on, the reads are the misses of the accesses to the container ids. */
  lemma {:induction false} ReadsAreMisses(q: seq<Cached>, cacheSize: int, pool: Text, all: seq<Pointer>,
                                          content: map<ChunkFp, Text>, k: nat)
    requires Alone(pool, all) && k <= |all| && forall i :: 0 <= i < |all| ==> Served(pool, content, all[i])
    requires StandFor(q, AfterTrace(cacheSize, RecipeStore.IdsOf(all)[..k]), pool, all)
    ensures Misses(cacheSize, RecipeStore.IdsOf(all))
      == Misses(cacheSize, RecipeStore.IdsOf(all)[..k]) + ContainerReads(q, cacheSize, pool, all[k..])
    decreases |all| - k
  {
    var ids := RecipeStore.IdsOf(all);
    if k == |all| {
      assert ids[..k] == ids;
    } else {
      OneServed(q, AfterTrace(cacheSize, ids[..k]), cacheSize, pool, all, content, k);
      OneMoreMiss(cacheSize, ids, k);
      ReadsFrom(q, cacheSize, pool, all, k);
      ReadsAreMisses(CacheAfter(q, cacheSize, pool, all[k]), cacheSize, pool, all, content, k + 1);
    }
  }

  lemma OneMoreMiss(cacheSize: int, ids: seq<ContainerId>, k: nat)
    requires k < |ids|
    ensures AfterTrace(cacheSize, ids[..k + 1]) == Accessed(AfterTrace(cacheSize, ids[..k]), cacheSize, ids[k])
    ensures Misses(cacheSize, ids[..k + 1])
      == Misses(cacheSize, ids[..k]) + (if ids[k] in AfterTrace(cacheSize, ids[..k]) then 0 else 1)
  {
    assert ids[..k + 1][..k] == ids[..k];
  }

  // ---- the restore

  /** Each chunk put out is what its pointer's fingerprint stands for. */
  ghost predicate Restored(out: seq<Text>, pointers: seq<Pointer>, content: map<ChunkFp, Text>) {
    |out| <= |pointers| && forall i :: 0 <= i < |out| ==> pointers[i].fp in content && out[i] == content[pointers[i].fp]
  }

  /** The cache, what has been put out, and the containers read for it. */
  datatype View = View(q: seq<Cached>, out: seq<Text>, loads: nat, cacheSize: int)

  predicate Viewed(v: View) { true }

  ghost predicate SoFar(v: View, pool: Text, pointers: seq<Pointer>, content: map<ChunkFp, Text>) {
    && Restored(v.out, pointers, content) && AllFaithful(v.q, content)
    && v.loads + ContainerReads(v.q, v.cacheSize, pool, pointers[|v.out|..]) == ContainerReads([], v.cacheSize, pool, pointers)
  }

  /** SoFar, behind a quantifier so that it unfolds only where Viewed(v) is stated. */
  ghost predicate OnTrack(v: View, pool: Text, pointers: seq<Pointer>, content: map<ChunkFp, Text>) {
    |v.out| <= |pointers| && forall w {:trigger Viewed(w)} :: Viewed(w) && w == v ==> SoFar(w, pool, pointers, content)
  }

  lemma TrackFaithful(v: View, pool: Text, pointers: seq<Pointer>, content: map<ChunkFp, Text>)
    requires OnTrack(v, pool, pointers, content)
    ensures AllFaithful(v.q, content)
  {
    assert Viewed(v);
  }

  /** Putting out one more chunk. */
  lemma TrackOn(v: View, pool: Text, pointers: seq<Pointer>, content: map<ChunkFp, Text>, chunk: Text)
    requires OnTrack(v, pool, pointers, content) && |v.out| < |pointers|
    requires pointers[|v.out|].fp in content && chunk == content[pointers[|v.out|].fp]
    requires AllFaithful(CacheAfter(v.q, v.cacheSize, pool, pointers[|v.out|]), content)
    ensures var c := pointers[|v.out|];
      OnTrack(v.(q := CacheAfter(v.q, v.cacheSize, pool, c), out := v.out + [chunk],
                 loads := v.loads + (if Found(v.q, HoldsChunk(c.fp)).None? then 1 else 0)), pool, pointers, content)
  {
    assert Viewed(v);
    ReadsFrom(v.q, v.cacheSize, pool, pointers, |v.out|);
  }

  /** One chunk of lru_restore_thread: its container, then get_chunk_in_container. */
  method RestoreChunk(pool: Pool, cache: LruCache<Cached>, pointers: seq<Pointer>, ghost v: View,
                      c: Pointer, ghost content: map<ChunkFp, Text>)
    returns (chunk: Text, missed: bool)
    requires cache.Valid() && OnTrack(v, pool.file, pointers, content)
    requires v.q == cache.elemQueue && v.cacheSize == cache.maxSize
    requires |v.out| < |pointers| && c == pointers[|v.out|] && Served(pool.file, content, c)
    modifies cache
    ensures cache.Valid() && cache.maxSize == old(cache.maxSize)
    ensures OnTrack(View(cache.elemQueue, v.out + [chunk], v.loads + (if missed then 1 else 0), v.cacheSize),
                    pool.file, pointers, content)
  {
    TrackFaithful(v, pool.file, pointers, content);
    var found;
    found, missed := Fetch(pool, cache, c, content);
    chunk := ChunkBytes(found, c.fp).value;
    TrackOn(v, pool.file, pointers, content, chunk);
  }

  /** lru_restore_thread: whatever the cache size, the right bytes come out in the right order, and the
      containers read are the misses of an LRU cache that is asked by fingerprint. When every chunk is in one
      container only, they are the misses of the container ids. */
  method LruRestore(pool: Pool, pointers: seq<Pointer>, cacheSize: int, ghost content: map<ChunkFp, Text>)
    returns (out: seq<Text>, readContainerNum: nat)
    requires forall i :: 0 <= i < |pointers| ==> Served(pool.file, content, pointers[i])
    ensures |out| == |pointers| && Restored(out, pointers, content)
    ensures readContainerNum == ContainerReads([], cacheSize, pool.file, pointers)
    ensures Alone(pool.file, pointers) ==> readContainerNum == Misses(cacheSize, RecipeStore.IdsOf(pointers))
  {
    var cache := new LruCache<Cached>(cacheSize);
    out, readContainerNum := [], 0;
    assert pointers[0..] == pointers;
    assert SoFar(View([], [], 0, cacheSize), pool.file, pointers, content);
    while |out| < |pointers|
      invariant fresh(cache) && cache.Valid() && cache.maxSize == cacheSize
      invariant OnTrack(View(cache.elemQueue, out, readContainerNum, cacheSize), pool.file, pointers, content)
    {
      var chunk, missed := RestoreChunk(pool, cache, pointers, View(cache.elemQueue, out, readContainerNum, cacheSize),
                                        pointers[|out|], content);
      if missed { readContainerNum := readContainerNum + 1; }
      out := out + [chunk];
    }
    assert Viewed(View(cache.elemQueue, out, readContainerNum, cacheSize));
    if Alone(pool.file, pointers) { ReadsAreMisses([], cacheSize, pool.file, pointers, content, 0); }
  }

  // ---- from the backup's stream to the restored stream

  /** Every live container is in the pool with its chunks, byte for byte. */
  ghost predicate PoolHolds(pool: Text, sealed: map<ContainerId, set<ChunkFp>>, content: map<ChunkFp, Text>) {
    forall id :: id in sealed ==>
      id >= 0 && Retrieve(pool, id).Some?
      && Retrieve(pool, id).value.0.entries.Keys == sealed[id] && Faithful(Retrieve(pool, id).value, content)
  }

  /** After any run, every backup that is newer than the last deleted one can be served in full. */
  lemma BackupCanBeServed(cfg: DedupSpec.Config, events: seq<DedupSpec.Event>, pool: Text,
                          content: map<ChunkFp, Text>, job: int, i: nat)
    requires Backups.CleanRun(cfg, events) && DedupSpec.Run(cfg, events).At?
    requires var st := DedupSpec.Run(cfg, events).state;
      !st.running && PoolHolds(pool, st.sealed, content)
      && job in st.recipes && job > st.deletedUpTo && i < |st.recipes[job]|
    ensures Served(pool, content, DedupSpec.Run(cfg, events).state.recipes[job][i])
  {
    Backups.EveryRun(cfg, events);
    var st := DedupSpec.Run(cfg, events).state;
    var p := st.recipes[job][i];
    assert Backups.RecipeHeld(st, st.recipes[job]);
    assert DedupSafety.Holds(st, p.id, p.fp);
  }

  /** Writing one container, in any order of its hash table: the pool then holds it with its chunks, and still
      holds every other one. */
  lemma PoolGrows(pool: Text, sealed: map<ContainerId, set<ChunkFp>>, content: map<ChunkFp, Text>, x: Shape, id: nat, block: Text)
    requires PoolHolds(pool, sealed, content) && id !in sealed
    requires LaidOut(x) && x.size <= DATA_AREA && |x.data| == CONTAINER_SIZE
    requires IsBlock(block, id, x.size, x.entries, x.data[..DATA_AREA])
    requires forall fp :: fp in x.bytes ==> fp in content && content[fp] == x.bytes[fp]
    ensures PoolHolds(WriteAt(pool, Position(id), block), sealed[id := x.bytes.Keys], content)
  {
    var pool' := WriteAt(pool, Position(id), block);
    BytesOfEntries(x);
    WriteThenRetrieve(pool, id, x.size, x.entries, x.data[..DATA_AREA], block, id);
    var c := (StoredMeta(id, x.size, x.entries), block);
    forall fp | fp in x.entries ensures fp in content && ChunkBytes(c, fp) == Some(content[fp]) {
      ChunksReadBack(x, id, block, fp);
    }
    forall other | other in sealed && other != id ensures Retrieve(pool', other) == Retrieve(pool, other) {
      WriteThenRetrieve(pool, id, x.size, x.entries, x.data[..DATA_AREA], block, other);
    }
  }
}
