/** A whole backup and its restore: what any run has sealed and recorded is written byte by byte into the
    container pool and the recipe file, and read back. */
module RoundTrip {
  import opened Common
  import opened Bytes
  import opened DedupSpec
  import opened Sizes
  import ContainerStore
  import RecipeStore
  import Restore
  import Lru
  import DedupSafety
  import Backups
  import OptimalRestore

  // ---- the containers

  /** The chunks of a sealed container, with their bytes. */
  function Packed(content: Content, listed: seq<ChunkFp>): map<ChunkFp, Text>
    requires Known(content, listed)
  {
    map i | 0 <= i < |listed| :: listed[i] := content[listed[i]]
  }

  lemma PackedSnoc(content: Content, listed: seq<ChunkFp>, fp: ChunkFp)
    requires Known(content, listed) && fp in content
    ensures Known(content, listed + [fp])
    ensures Packed(content, listed + [fp]) == Packed(content, listed)[fp := content[fp]]
  {
    var all := listed + [fp];
    assert forall i :: 0 <= i < |listed| ==> all[i] == listed[i];
    assert all[|listed|] == fp;
  }

  /** create_container and add_chunk_to_container for every chunk. */
  method FillContainer(x: Sealing, content: Content) returns (c: ContainerStore.Container)
    requires x.id >= 0 && ListFits(content, x.listed)
    ensures fresh(c) && fresh(c.data) && c.Valid() && c.id == x.id && c.chunkNum == |x.listed|
    ensures c.bytes == Packed(content, x.listed)
  {
    c := new ContainerStore.Container(x.id);
    var i := 0;
    while i < |x.listed|
      invariant 0 <= i <= |x.listed| && fresh(c) && fresh(c.data) && c.Valid() && c.chunkNum == i
      invariant Known(content, x.listed[..i]) && c.bytes == Packed(content, x.listed[..i])
      invariant c.dataSize == Total(content, x.listed[..i])
    {
      var fp := x.listed[i];
      OneMorePacked(content, x.listed, i);
      var added := c.Add(fp, content[fp]);
      i := i + 1;
    }
    assert x.listed[..i] == x.listed;
  }

  lemma OneMorePacked(content: Content, listed: seq<ChunkFp>, i: nat)
    requires Known(content, listed) && i < |listed|
    ensures var fp := listed[i];
      && Known(content, listed[..i]) && Known(content, listed[..i + 1])
      && Packed(content, listed[..i + 1]) == Packed(content, listed[..i])[fp := content[fp]]
      && Total(content, listed[..i + 1]) == Total(content, listed[..i]) + |content[fp]| <= Total(content, listed)
  {
    assert listed[..i + 1] == listed[..i] + [listed[i]];
    TotalSnoc(content, listed[..i], listed[i]);
    TotalPrefix(content, listed, i + 1);
    PackedSnoc(content, listed[..i], listed[i]);
  }

  /** Some order of the hash table. */
  method HashOrder(m: ContainerStore.Entries) returns (order: seq<ChunkFp>)
    ensures ContainerStore.IsOrder(m, order)
  {
    order := [];
    var left := m.Keys;
    while left != {}
      invariant left <= m.Keys && (set fp | fp in order) == m.Keys - left && |order| + |left| == |m|
    {
      var fp := IterNext(left);
      assert (set f | f in order + [fp]) == (set f | f in order) + {fp};
      order := order + [fp];
      left := left - {fp};
    }
  }

  /** What the pool holds after the first n containers. */
  function Contents(history: seq<Sealing>, n: nat): map<ContainerId, set<ChunkFp>>
    requires n <= |history|
  {
    if n == 0 then map[] else Contents(history, n - 1)[history[n - 1].id := Elements(history[n - 1].listed)]
  }

  /** The containers of a run come in the order of their ids, and each fits. */
  ghost predicate Writable(content: Content, history: seq<Sealing>) {
    && HistoryFits(content, history)
    && (forall i :: 0 <= i < |history| ==> history[i].listed != [] && 0 <= history[i].id < 0x8000_0000_0000_0000)
    && forall i, j :: 0 <= i < j < |history| ==> history[i].id < history[j].id
  }

  lemma {:induction false} ContentsKeys(history: seq<Sealing>, n: nat, bound: ContainerId)
    requires n <= |history| && forall i :: 0 <= i < n ==> history[i].id < bound
    ensures forall id :: id in Contents(history, n) ==> id < bound
  {
    if n > 0 { ContentsKeys(history, n - 1, bound); }
  }

  lemma {:induction false} ContentsAt(history: seq<Sealing>, n: nat, i: nat)
    requires i < n <= |history| && forall i, j :: 0 <= i < j < |history| ==> history[i].id < history[j].id
    ensures history[i].id in Contents(history, n) && Contents(history, n)[history[i].id] == Elements(history[i].listed)
  {
    if i < n - 1 { ContentsAt(history, n - 1, i); }
  }

  /** The append thread on every container of the run: each is filled and written, in some hash order. */
  method WriteContainers(pool: ContainerStore.Pool, history: seq<Sealing>, content: Content)
    requires Writable(content, history)
    modifies pool
    ensures Restore.PoolHolds(pool.file, Contents(history, |history|), content)
  {
    var n := 0;
    while n < |history|
      invariant 0 <= n <= |history| && Restore.PoolHolds(pool.file, Contents(history, n), content)
    {
      ContentsKeys(history, n, history[n].id);
      assert ListFits(content, history[n].listed);
      WriteSealed(pool, history[n], Contents(history, n), content);
      n := n + 1;
    }
  }

  method WriteSealed(pool: ContainerStore.Pool, x: Sealing, ghost sealed: map<ContainerId, set<ChunkFp>>, content: Content)
    requires ListFits(content, x.listed) && x.listed != [] && 0 <= x.id < 0x8000_0000_0000_0000
    requires Restore.PoolHolds(pool.file, sealed, content) && x.id !in sealed
    modifies pool
    ensures Restore.PoolHolds(pool.file, sealed[x.id := Elements(x.listed)], content)
  {
    var c := FillContainer(x, content);
    var order := HashOrder(c.entries);
    assert c.bytes.Keys == Elements(x.listed);
    WriteOne(pool, c, order, sealed, content);
  }

  method WriteOne(pool: ContainerStore.Pool, c: ContainerStore.Container, order: seq<ChunkFp>,
                  ghost sealed: map<ContainerId, set<ChunkFp>>, ghost content: Content)
    requires c.Valid() && ContainerStore.IsOrder(c.entries, order) && c.id < 0x8000_0000_0000_0000 && c.chunkNum > 0
    requires Restore.PoolHolds(pool.file, sealed, content) && c.id !in sealed
    requires forall fp :: fp in c.bytes ==> fp in content && content[fp] == c.bytes[fp]
    modifies pool, c.data
    ensures Restore.PoolHolds(pool.file, sealed[c.id := c.bytes.Keys], content)
  {
    ghost var x, file := c.Now(), pool.file;
    pool.WriteContainer(c, order);
    Restore.PoolGrows(file, sealed, content, x, c.id, c.data[..]);
  }

  // ---- the recipe

  method WriteSegment(bv: RecipeStore.BackupVersion, log: RecipeStore.RecordLog, s: seq<Pointer>)
    requires bv.Valid() && log.Valid() && bv.current.None? && RecipeStore.ValidSegment(s)
    modifies bv, bv.segmentBuf, log
    ensures bv.Valid() && log.Valid() && bv.current.None? && bv.segments == old(bv.segments) + [s]
    ensures log.ids == old(log.ids) + RecipeStore.IdsOf(s)
    ensures fresh(bv.segmentBuf)
  {
    var _ := bv.StartSegment(|s|);
    AppendPointers(bv, log, s);
    bv.EndSegment();
  }

  method AppendPointers(bv: RecipeStore.BackupVersion, log: RecipeStore.RecordLog, s: seq<Pointer>)
    requires bv.Valid() && log.Valid() && bv.current == Some([]) && bv.expected == |s| && RecipeStore.ValidSegment(s)
    modifies bv`segmentOff, bv`numberOfChunks, bv`current, bv.segmentBuf, log
    ensures bv.Valid() && log.Valid() && bv.current == Some(s) && log.ids == old(log.ids) + RecipeStore.IdsOf(s)
  {
    var i := 0;
    while i < |s|
      invariant 0 <= i <= |s| && bv.Valid() && log.Valid() && bv.current == Some(s[..i]) && bv.expected == |s|
      invariant log.ids == old(log.ids) + RecipeStore.IdsOf(s[..i])
    {
      OneMorePointer(old(log.ids), s, i);
      bv.AppendChunkPointer(s[i], log);
      i := i + 1;
    }
    assert s[..i] == s;
  }

  lemma OneMorePointer(before: seq<ContainerId>, s: seq<Pointer>, i: nat)
    requires i < |s|
    ensures s[..i] + [s[i]] == s[..i + 1]
    ensures before + RecipeStore.IdsOf(s[..i]) + [s[i].id] == before + RecipeStore.IdsOf(s[..i + 1])
  {
    assert RecipeStore.IdsOf(s[..i + 1]) == RecipeStore.IdsOf(s[..i]) + [s[i].id];
  }

  lemma IdsSnoc(segments: seq<seq<Pointer>>, s: seq<Pointer>)
    ensures RecipeStore.IdsOf(Flat(segments + [s])) == RecipeStore.IdsOf(Flat(segments)) + RecipeStore.IdsOf(s)
  {
    FlatSnoc(segments, s);
  }

  method WriteRecipe(bv: RecipeStore.BackupVersion, log: RecipeStore.RecordLog, segments: seq<seq<Pointer>>)
    requires bv.Valid() && log.Valid() && bv.current.None? && bv.segments == [] && log.ids == []
    requires RecipeStore.ValidRecipe(segments)
    modifies bv, bv.segmentBuf, log
    ensures bv.Valid() && log.Valid() && bv.current.None? && bv.segments == segments
    ensures log.ids == RecipeStore.IdsOf(Flat(segments))
  {
    var k := 0;
    while k < |segments|
      invariant 0 <= k <= |segments| && bv.Valid() && log.Valid() && bv.current.None? && bv.segments == segments[..k]
      invariant bv.segmentBuf == old(bv.segmentBuf) || fresh(bv.segmentBuf)
      invariant log.ids == RecipeStore.IdsOf(Flat(segments[..k]))
    {
      WriteSegment(bv, log, segments[k]);
      assert segments[..k + 1] == segments[..k] + [segments[k]];
      IdsSnoc(segments[..k], segments[k]);
      k := k + 1;
    }
    assert segments[..k] == segments;
  }

  // ---- the round trip

  /** The bytes of a stream of chunks. */
  function BytesOf(content: Content, stream: seq<ChunkFp>): seq<Text>
    requires Known(content, stream)
  {
    seq(|stream|, i requires 0 <= i < |stream| => content[stream[i]])
  }

  /** A finished backup that has not been deleted, in a run whose deletions were clean and whose chunks have the
      sizes of their contents. */
  ghost predicate Finished(cfg: Config, events: seq<Event>, content: Content, job: int) {
    && Backups.CleanRun(cfg, events) && Run(cfg, events).At?
    && (forall i :: 0 <= i < |events| ==> EventSized(content, events[i]))
    && var st := Run(cfg, events).state;
       !st.running && job in st.recipes && job > st.deletedUpTo && st.next <= 0x8000_0000_0000_0000
  }

  lemma RunIsWritable(cfg: Config, events: seq<Event>, content: Content, job: int)
    requires Finished(cfg, events, content, job)
    ensures var st := Run(cfg, events).state;
      && Writable(content, st.history)
      && forall id :: id in st.sealed ==>
           id in Contents(st.history, |st.history|) && Contents(st.history, |st.history|)[id] == st.sealed[id]
  {
    Backups.EveryRun(cfg, events);
    RunSizes(cfg, content, events);
    var st := Run(cfg, events).state;
    forall id | id in st.sealed
      ensures id in Contents(st.history, |st.history|) && Contents(st.history, |st.history|)[id] == st.sealed[id]
    {
      var i :| 0 <= i < |st.history| && st.history[i].id == id;
      ContentsAt(st.history, |st.history|, i);
    }
  }

  /** The recipe of the backup lists its stream, and its pointers fit their fields. */
  lemma RecipeIsStorable(cfg: Config, events: seq<Event>, content: Content, job: int)
    requires Finished(cfg, events, content, job)
    ensures var st := Run(cfg, events).state;
      var r := st.recipes[job];
      && job in st.streams && |r| == |st.streams[job]| && Known(content, st.streams[job])
      && forall i :: 0 <= i < |r| ==> r[i].fp == st.streams[job][i] && r[i].id >= 0 && RecipeStore.Storable(r[i])
  {
    Backups.EveryRun(cfg, events);
    RunSizes(cfg, content, events);
    var st := Run(cfg, events).state;
    var r := st.recipes[job];
    assert Backups.RecipeFps(r) == st.streams[job];
    forall i | 0 <= i < |r| ensures r[i].fp == st.streams[job][i] && r[i].id >= 0 && RecipeStore.Storable(r[i]) {
      assert SizedOf(content, r[i].fp, r[i].size);
      SizeBound(content, st, job, i);
    }
  }

  /** A chunk of a recipe is in some sealed container, so it is no longer than a container. */
  lemma SizeBound(content: Content, st: State, job: int, i: nat)
    requires SizesOk(content, st) && DedupSafety.ContainersOk(st) && Backups.HistoryOk(st) && st.open.None?
    requires job in st.recipes && job > st.deletedUpTo && i < |st.recipes[job]|
    ensures st.recipes[job][i].size <= DATA_AREA
  {
    var p := st.recipes[job][i];
    assert Backups.RecipeHeld(st, st.recipes[job]);
    assert DedupSafety.Holds(st, p.id, p.fp);
    var k :| 0 <= k < |st.history| && st.history[k].id == p.id;
    ListedFits(content, st.history[k].listed, p.fp);
  }

  /** A chunk is no larger than the container that lists it. */
  lemma ListedFits(content: Content, listed: seq<ChunkFp>, fp: ChunkFp)
    requires ListFits(content, listed) && fp in Elements(listed)
    ensures |content[fp]| <= DATA_AREA
  {
    var j :| 0 <= j < |listed| && listed[j] == fp;
    OneMorePacked(content, listed, j);
  }

  lemma PoolShrinks(pool: Text, all: map<ContainerId, set<ChunkFp>>, some: map<ContainerId, set<ChunkFp>>, content: Content)
    requires Restore.PoolHolds(pool, all, content) && forall id :: id in some ==> id in all && all[id] == some[id]
    ensures Restore.PoolHolds(pool, some, content)
  {}

  lemma SegmentsValid(segments: seq<seq<Pointer>>)
    requires forall k :: 0 <= k < |segments| ==> |segments[k]| < 0x8000_0000
    requires forall i :: 0 <= i < |Flat(segments)| ==> Flat(segments)[i].id >= 0 && RecipeStore.Storable(Flat(segments)[i])
    ensures RecipeStore.ValidRecipe(segments)
  {
    forall k | 0 <= k < |segments| ensures RecipeStore.ValidSegment(segments[k]) {
      forall j | 0 <= j < |segments[k]| ensures segments[k][j].id >= 0 && RecipeStore.Storable(segments[k][j]) {
        var i := FlatIndex(segments, k, j);
      }
    }
  }

  lemma {:induction false} FlatIndex<T>(parts: seq<seq<T>>, k: nat, j: nat) returns (i: nat)
    requires k < |parts| && j < |parts[k]|
    ensures i < |Flat(parts)| && Flat(parts)[i] == parts[k][j]
  {
    if k == 0 {
      i := j;
    } else {
      var m := FlatIndex(parts[1..], k - 1, j);
      i := |parts[0]| + m;
    }
  }

  /** What is written for a backup: its containers into the pool, its recipe into the recipe file and the accesses
      into the record file; and what reading the recipe file gives. The pool may have held anything before. */
  method BackUp(ghost cfg: Config, ghost events: seq<Event>, content: Content, ghost job: int,
                pool: ContainerStore.Pool, history: seq<Sealing>, segments: seq<seq<Pointer>>)
    returns (pointers: seq<Pointer>, recordFile: Text)
    requires Finished(cfg, events, content, job)
    requires var st := Run(cfg, events).state; history == st.history && Flat(segments) == st.recipes[job]
    requires forall k :: 0 <= k < |segments| ==> |segments[k]| < 0x8000_0000
    modifies pool
    ensures pointers == Run(cfg, events).state.recipes[job] && Records(recordFile, pointers)
    ensures forall i :: 0 <= i < |pointers| ==> Restore.Served(pool.file, content, pointers[i])
    ensures Exact(cfg) ==> Restore.Alone(pool.file, pointers)
  {
    ghost var st := Run(cfg, events).state;
    RunIsWritable(cfg, events, content, job);
    RecipeIsStorable(cfg, events, content, job);
    SegmentsValid(segments);
    WriteContainers(pool, history, content);
    PoolShrinks(pool.file, Contents(history, |history|), st.sealed, content);
    pointers, recordFile := WriteAndRead(segments);
    forall i | 0 <= i < |pointers| ensures Restore.Served(pool.file, content, pointers[i]) {
      Restore.BackupCanBeServed(cfg, events, pool.file, content, job, i);
    }
    if Exact(cfg) { ExactIsAlone(cfg, events, pool.file, content, job); }
  }

  /** With exact deduplication a recipe's chunks are in one live container each. */
  lemma ExactIsAlone(cfg: Config, events: seq<Event>, pool: Text, content: Content, job: int)
    requires Exact(cfg) && Finished(cfg, events, content, job)
    requires Restore.PoolHolds(pool, Run(cfg, events).state.sealed, content)
    ensures Restore.Alone(pool, Run(cfg, events).state.recipes[job])
  {
    var st := Run(cfg, events).state;
    Backups.NothingDangles(cfg, events);
    Backups.EveryRun(cfg, events);
    var r := st.recipes[job];
    assert Backups.RecipeHeld(st, r);
    forall i, j | 0 <= i < |r| && 0 <= j < |r| && Restore.InContainer(pool, r[j].id, r[i].fp) ensures r[i].id == r[j].id {
      assert DedupSafety.Holds(st, r[i].id, r[i].fp) && DedupSafety.Holds(st, r[j].id, r[j].fp);
      assert DedupSafety.Holds(st, r[j].id, r[i].fp);
      Backups.ExactDeduplication(cfg, events, r[i].id, r[j].id, r[i].fp);
    }
  }

  /** The record file of the pointers. */
  ghost predicate Records(recordFile: Text, pointers: seq<Pointer>) {
    var runs := RecipeStore.Runs(RecipeStore.IdsOf(pointers));
    && (forall i :: 0 <= i < |runs| ==> RecipeStore.IdFits(runs[i]))
    && recordFile == RecipeStore.RecordsImage(runs + [TEMPORARY_ID])
  }

  /** The recipe through its file, and the record file beside it. */
  method WriteAndRead(segments: seq<seq<Pointer>>) returns (pointers: seq<Pointer>, recordFile: Text)
    requires RecipeStore.ValidRecipe(segments)
    ensures pointers == Flat(segments) && Records(recordFile, pointers)
  {
    var bv := new RecipeStore.BackupVersion(0);
    var log := new RecipeStore.RecordLog();
    WriteRecipe(bv, log, segments);
    log.Finish();
    recordFile := log.file;
    var reader := new RecipeStore.RecipeReader(bv.recipeFile, bv.numberOfChunks, segments);
    pointers := reader.ReadNext(bv.numberOfChunks);
  }

  lemma RestoredIsStream(cfg: Config, events: seq<Event>, content: Content, job: int, out: seq<Text>)
    requires Finished(cfg, events, content, job)
    requires var r := Run(cfg, events).state.recipes[job]; |out| == |r| && Restore.Restored(out, r, content)
    ensures var st := Run(cfg, events).state;
      job in st.streams && Known(content, st.streams[job]) && out == BytesOf(content, st.streams[job])
  {
    RecipeIsStorable(cfg, events, content, job);
  }

  /** Backup and restore: after any run, writing what it sealed and, in any segmentation, what it recorded of a
      backup, and restoring that backup with an LRU cache of any size, puts out the chunks that were fed to
      dedup, byte for byte and in order; with exact deduplication the containers read are the misses of the recipe's
      container ids. */
  method BackUpAndRestore(ghost cfg: Config, ghost events: seq<Event>, content: Content, ghost job: int,
                          pool: ContainerStore.Pool, history: seq<Sealing>, segments: seq<seq<Pointer>>, cacheSize: int)
    returns (out: seq<Text>, readContainerNum: nat)
    requires Finished(cfg, events, content, job)
    requires var st := Run(cfg, events).state; history == st.history && Flat(segments) == st.recipes[job]
    requires forall k :: 0 <= k < |segments| ==> |segments[k]| < 0x8000_0000
    modifies pool
    ensures var st := Run(cfg, events).state;
      job in st.streams && Known(content, st.streams[job]) && out == BytesOf(content, st.streams[job])
    ensures Exact(cfg) ==>
      readContainerNum == Lru.Misses(cacheSize, RecipeStore.IdsOf(Run(cfg, events).state.recipes[job]))
  {
    var pointers, _ := BackUp(cfg, events, content, job, pool, history, segments);
    out, readContainerNum := Restore.LruRestore(pool, pointers, cacheSize, content);
    RestoredIsStream(cfg, events, content, job, out);
  }

  // ---- the same with the optimal cache

  /** The containers among ids that hold the chunk. */
  function Holders(pool: Text, ids: seq<ContainerId>, fp: ChunkFp): set<ContainerId> {
    set id | id in ids && id >= 0 && ContainerStore.Retrieve(pool, id).Some?
             && fp in ContainerStore.Retrieve(pool, id).value.0.entries
  }

  /** optimal_restore_thread with the bytes: each chunk comes from the cached container that was found by its
      fingerprint. */
  method RestoreOptimally(pool: ContainerStore.Pool, pointers: seq<Pointer>, recordFile: Text, windowSize: nat, maxSize: int,
                          ghost content: Content)
    returns (out: seq<Text>, readContainerNum: nat)
    requires windowSize > 0 && maxSize != 0 && Records(recordFile, pointers)
    requires forall i :: 0 <= i < |pointers| ==> Restore.Served(pool.file, content, pointers[i])
    ensures |out| == |pointers| && Restore.Restored(out, pointers, content)
    ensures var runs := RecipeStore.Runs(RecipeStore.IdsOf(pointers));
      windowSize > |runs| ==> OptimalRestore.Optimal(maxSize, runs, readContainerNum)
  {
    var chunks := ChunkRefs(pool.file, pointers);
    RefsAreServed(pool.file, content, pointers);
    RunsNamed(RecipeStore.IdsOf(pointers));
    var reader := new RecipeStore.RecordReader(recordFile, RecipeStore.Runs(RecipeStore.IdsOf(pointers)));
    var served;
    ghost var victims;
    readContainerNum, served, victims := OptimalRestore.OptimalRestoreThread(chunks, windowSize, maxSize, reader);
    out := TakeServed(pool, pointers, served, content);
  }

  /** The chunks as the optimal cache sees them. */
  function ChunkRefs(pool: Text, pointers: seq<Pointer>): (r: seq<OptimalRestore.ChunkRef>)
    ensures |r| == |pointers|
  {
    seq(|pointers|, i requires 0 <= i < |pointers| =>
      OptimalRestore.ChunkRef(pointers[i].id, Holders(pool, RecipeStore.IdsOf(pointers), pointers[i].fp)))
  }

  lemma RefsAreServed(pool: Text, content: Content, pointers: seq<Pointer>)
    requires forall i :: 0 <= i < |pointers| ==> Restore.Served(pool, content, pointers[i])
    ensures var chunks, ids := ChunkRefs(pool, pointers), RecipeStore.IdsOf(pointers);
      && OptimalRestore.IdsOf(chunks) == ids
      && (forall i :: 0 <= i < |ids| ==> ids[i] >= 0)
      && forall i :: 0 <= i < |chunks| ==> chunks[i].id in chunks[i].holders && chunks[i].id >= 0
  {
    var chunks, ids := ChunkRefs(pool, pointers), RecipeStore.IdsOf(pointers);
    forall i | 0 <= i < |chunks| ensures chunks[i].id in chunks[i].holders && ids[i] >= 0 && chunks[i].id == ids[i] {
      assert Restore.Served(pool, content, pointers[i]) && ids[i] in ids;
    }
  }

  lemma OneMoreChunk(out: seq<Text>, pointers: seq<Pointer>, content: Content, chunk: Text)
    requires Restore.Restored(out, pointers, content) && |out| < |pointers|
    requires pointers[|out|].fp in content && chunk == content[pointers[|out|].fp]
    ensures Restore.Restored(out + [chunk], pointers, content)
  {}

  /** get_chunk_in_container for each chunk, from the container that served it. */
  method TakeServed(pool: ContainerStore.Pool, pointers: seq<Pointer>, served: seq<ContainerId>, ghost content: Content)
    returns (out: seq<Text>)
    requires |served| == |pointers| && forall i :: 0 <= i < |pointers| ==> Restore.Served(pool.file, content, pointers[i])
    requires OptimalRestore.AllServed(ChunkRefs(pool.file, pointers), served, RecipeStore.Runs(RecipeStore.IdsOf(pointers)))
    ensures |out| == |pointers| && Restore.Restored(out, pointers, content)
  {
    out := [];
    while |out| < |pointers|
      invariant Restore.Restored(out, pointers, content)
    {
      var i := |out|;
      ServedFaithful(pool.file, content, pointers, served, i);
      var con := pool.RetrieveById(served[i]);
      var chunk := ContainerStore.ChunkBytes(con.value, pointers[i].fp).value;
      OneMoreChunk(out, pointers, content, chunk);
      out := out + [chunk];
    }
  }

  lemma {:induction false} RunsNamed(ids: seq<ContainerId>)
    requires forall i :: 0 <= i < |ids| ==> ids[i] >= 0
    ensures forall i :: 0 <= i < |RecipeStore.Runs(ids)| ==> RecipeStore.Runs(ids)[i] in ids && RecipeStore.Runs(ids)[i] >= 0
  {
    RecipeStore.RunsAreSqueezed(ids);
    OptimalRestore.SqueezedMembers(ids);
    var runs := RecipeStore.Runs(ids);
    forall i | 0 <= i < |runs| ensures runs[i] in ids && runs[i] >= 0 {
      assert runs[i] in RecipeStore.Squeezed(ids);
      var k :| 0 <= k < |ids| && ids[k] == runs[i];
    }
  }

  lemma ServedFaithful(pool: Text, content: Content, pointers: seq<Pointer>, served: seq<ContainerId>, i: nat)
    requires forall i :: 0 <= i < |pointers| ==> Restore.Served(pool, content, pointers[i])
    requires |pointers| == |served| && i < |pointers|
    requires OptimalRestore.AllServed(ChunkRefs(pool, pointers), served, RecipeStore.Runs(RecipeStore.IdsOf(pointers)))
    ensures served[i] >= 0
    ensures var c := ContainerStore.Retrieve(pool, served[i]);
      c.Some? && pointers[i].fp in content
      && ContainerStore.ChunkBytes(c.value, pointers[i].fp) == Some(content[pointers[i].fp])
  {
    var id := served[i];
    assert id in ChunkRefs(pool, pointers)[i].holders;
    var k :| 0 <= k < |RecipeStore.IdsOf(pointers)| && RecipeStore.IdsOf(pointers)[k] == id;
    assert Restore.Served(pool, content, pointers[k]) && pointers[k].id == id;
    assert Restore.Faithful(ContainerStore.Retrieve(pool, id).value, content);
  }

  /** Backup and optimal restore: the same bytes, and with the whole record file in the window no schedule of the
      same cache size reads fewer containers. */
  method BackUpAndRestoreOptimally(ghost cfg: Config, ghost events: seq<Event>, content: Content, ghost job: int,
                                   pool: ContainerStore.Pool, history: seq<Sealing>, segments: seq<seq<Pointer>>,
                                   windowSize: nat, maxSize: int)
    returns (out: seq<Text>, readContainerNum: nat)
    requires Finished(cfg, events, content, job) && windowSize > 0 && maxSize != 0
    requires var st := Run(cfg, events).state; history == st.history && Flat(segments) == st.recipes[job]
    requires forall k :: 0 <= k < |segments| ==> |segments[k]| < 0x8000_0000
    modifies pool
    ensures var st := Run(cfg, events).state;
      job in st.streams && Known(content, st.streams[job]) && out == BytesOf(content, st.streams[job])
    ensures var runs := RecipeStore.Runs(RecipeStore.IdsOf(Run(cfg, events).state.recipes[job]));
      windowSize > |runs| ==> OptimalRestore.Optimal(maxSize, runs, readContainerNum)
  {
    var pointers, recordFile := BackUp(cfg, events, content, job, pool, history, segments);
    out, readContainerNum := RestoreOptimally(pool, pointers, recordFile, windowSize, maxSize, content);
    RestoredIsStream(cfg, events, content, job, out);
  }
}
