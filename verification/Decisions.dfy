/** What the steps decide about one chunk, on the fields of the state: where a lookup finds it, which id it gets,
    when it is rewritten, and when a container is sealed. */
module Decisions {
  import opened Common
  import opened Lru
  import opened DedupSpec

  // ---- the lookup

  predicate InSomeCached(cache: seq<Meta>, fp: ChunkFp) {
    exists i :: 0 <= i < |cache| && fp in cache[i].fps
  }

  /** The container that the key-value store names for the first keySize bytes of the digest has the chunk. */
  predicate InNamed(cfg: Config, st: State, fp: ChunkFp) {
    var key := fp.hash[..cfg.keySize];
    key in st.kv && st.kv[key] in st.sealed && fp in st.sealed[st.kv[key]]
  }

  lemma CachedOrNot(cache: seq<Meta>, fp: ChunkFp)
    ensures FirstHit(cache, HasFp(fp)) < |cache| <==> InSomeCached(cache, fp)
  {
    var i := FirstHit(cache, HasFp(fp));
    if i < |cache| { assert fp in cache[i].fps; }
    if j :| 0 <= j < |cache| && fp in cache[j].fps { assert HasFp(fp)(cache[j]); }
  }

  /** Exact index or not, a chunk is a duplicate after the lookup if and only if it is in the open container, in the
      index buffer, in a cached container, or in the container that the key-value store names for its key. */
  lemma LookupFinds(cfg: Config, st: State, c: Chunk)
    requires CanIdentify(cfg, st, c) && Untouched(c)
    ensures Identify(cfg, st, c).1.dup <==>
      || (st.open.Some? && c.fp in st.open.value.fps)
      || c.fp in st.buffered
      || InSomeCached(st.cache, c.fp)
      || InNamed(cfg, st, c.fp)
  {
    CachedOrNot(st.cache, c.fp);
    if c.fp.hash[..cfg.keySize] in st.kv { NamedIsFirst(cfg, st, c); }
  }

  /** The container that was just fetched is the only cached one that can have the chunk. */
  lemma NamedIsFirst(cfg: Config, st: State, c: Chunk)
    requires CanIdentify(cfg, st, c) && c.fp.hash[..cfg.keySize] in st.kv
    ensures var id := st.kv[c.fp.hash[..cfg.keySize]];
      var q := Inserted(st.cache, cfg.cacheSize, Meta(id, st.sealed[id]));
      && (InNamed(cfg, st, c.fp) ==> FirstHit(q, HasFp(c.fp)) == 0)
      && (!InNamed(cfg, st, c.fp) && !InSomeCached(st.cache, c.fp) ==> FirstHit(q, HasFp(c.fp)) == |q|)
  {
    var id := st.kv[c.fp.hash[..cfg.keySize]];
    var q := Inserted(st.cache, cfg.cacheSize, Meta(id, st.sealed[id]));
    assert q[0] == Meta(id, st.sealed[id]);
    if InNamed(cfg, st, c.fp) { assert HasFp(c.fp)(q[0]); }
    if !InNamed(cfg, st, c.fp) && !InSomeCached(st.cache, c.fp) {
      forall i | 0 <= i < |q| ensures !HasFp(c.fp)(q[i]) {
        if i > 0 { assert q[i] == st.cache[i - 1]; }
      }
    }
  }

  /** The id comes from the first of these places that has the chunk, and only a chunk of the open container may not
      be rewritten. */
  lemma LookupNames(cfg: Config, st: State, c: Chunk)
    requires CanIdentify(cfg, st, c) && Untouched(c)
    ensures var r := Identify(cfg, st, c).1;
      if st.open.Some? && c.fp in st.open.value.fps then r == c.(id := st.open.value.id, dup := true, denied := true)
      else if c.fp in st.buffered then r == c.(id := st.buffered[c.fp][0], dup := true)
      else if InSomeCached(st.cache, c.fp) then
        exists i :: 0 <= i < |st.cache| && c.fp in st.cache[i].fps && r == c.(id := st.cache[i].id, dup := true)
          && forall j :: 0 <= j < i ==> c.fp !in st.cache[j].fps
      else if InNamed(cfg, st, c.fp) then r == c.(id := st.kv[c.fp.hash[..cfg.keySize]], dup := true)
      else r == c
  {
    CachedOrNot(st.cache, c.fp);
    if c.fp.hash[..cfg.keySize] in st.kv { NamedIsFirst(cfg, st, c); }
    var i := FirstHit(st.cache, HasFp(c.fp));
    if i < |st.cache| {
      assert c.fp in st.cache[i].fps;
      forall j | 0 <= j < i ensures c.fp !in st.cache[j].fps { assert !HasFp(c.fp)(st.cache[j]); }
    }
  }

  /** When the key-value store had to be asked, the container that it names is the most recent one in the fingerprint
      cache afterwards, whether or not it has the chunk; it takes the place of the oldest one of a full cache. */
  lemma LookupFetches(cfg: Config, st: State, c: Chunk)
    requires CanIdentify(cfg, st, c) && Untouched(c) && c.fp.hash[..cfg.keySize] in st.kv
    requires !(st.open.Some? && c.fp in st.open.value.fps) && c.fp !in st.buffered && !InSomeCached(st.cache, c.fp)
    ensures var q, id, n := Identify(cfg, st, c).0, st.kv[c.fp.hash[..cfg.keySize]], |st.cache|;
      q == [Meta(id, st.sealed[id])] + (if n > 0 && n == cfg.cacheSize then st.cache[..n - 1] else st.cache)
  {
    CachedOrNot(st.cache, c.fp);
    NamedIsFirst(cfg, st, c);
  }

  /** A cached container that serves a lookup becomes the most recent one. */
  lemma LookupTouches(cfg: Config, st: State, c: Chunk, i: nat)
    requires CanIdentify(cfg, st, c) && Untouched(c)
    requires !(st.open.Some? && c.fp in st.open.value.fps) && c.fp !in st.buffered
    requires i < |st.cache| && c.fp in st.cache[i].fps && forall j :: 0 <= j < i ==> c.fp !in st.cache[j].fps
    ensures Identify(cfg, st, c).0 == [st.cache[i]] + st.cache[..i] + st.cache[i + 1..]
  {
    var k := FirstHit(st.cache, HasFp(c.fp));
    assert HasFp(c.fp)(st.cache[i]);
    assert k < |st.cache| && c.fp in st.cache[k].fps;
    assert k == i;
  }

  // ---- the filter

  /** har_check marks exactly the duplicates in inherited sparse containers. */
  lemma HarMarksExactly(cfg: Config, inherited: set<ContainerId>, s: seq<Chunk>, i: nat)
    requires i < |s|
    ensures var r := HarMarkedAll(cfg, inherited, s)[i];
      r == s[i].(sparse := r.sparse) && (r.sparse <==> s[i].sparse || (cfg.har && s[i].dup && s[i].id in inherited))
  {}

  /** index_check_buffer gives a fragmented chunk, and a duplicate without an id, the newer one of its own id and the
      head of its queue; a request to rewrite a chunk that has been rewritten since is denied. */
  lemma CheckTakesNewer(buffered: map<ChunkFp, seq<ContainerId>>, c: Chunk)
    requires c.fp in buffered && buffered[c.fp] != []
    ensures var head := buffered[c.fp][0];
      var r := CheckChunk(buffered, c);
      && r.Some? && r.value == c.(id := r.value.id, denied := r.value.denied)
      && (r.value.id == c.id || r.value.id == head > c.id)
      && (c.sparse || c.outOfOrder || (c.dup && c.id == TEMPORARY_ID) ==> r.value.id >= head)
      && (r.value.denied <==> c.denied || (c.id != TEMPORARY_ID && (c.sparse || c.outOfOrder) && head > c.id))
      && (!c.sparse && !c.outOfOrder && c.id != TEMPORARY_ID ==> r.value == c)
  {}

  /** The id with which the loop goes on: that of the copy this segment has rewritten, or else of its unique copy. */
  lemma ResolvedId(recent: Recent, c: Chunk)
    requires CanResolve(recent, c)
    ensures var r := Resolve(recent, c);
      && r == c.(id := r.id, denied := r.denied)
      && (c.fp in recent.rewritten ==> r.id == recent.rewritten[c.fp] && r.denied)
      && (c.fp !in recent.rewritten ==> r.denied == c.denied)
      && (c.fp !in recent.rewritten && c.dup && c.id == TEMPORARY_ID ==> r.id == recent.unique[c.fp])
      && (c.fp !in recent.rewritten && !(c.dup && c.id == TEMPORARY_ID) ==> r.id == c.id)
  {}

  /** A unique chunk, and a duplicate that is not denied and is sparse or out of order, leaves in the open container;
      out of order counts with the switch on and the container not in the restore cache. Every other duplicate leaves
      with the id it has, and nothing is stored. */
  lemma RewrittenExactlyWhen(cfg: Config, st: State, recent: Recent, c: Chunk, choice: Choice)
    requires MayFilter(cfg, st, recent, c, choice)
    ensures var r, f := Resolve(recent, c), FilterChunk(cfg, st, recent, c, choice);
      var cached := cfg.cacheAware && c.id in st.aware;
      if !c.dup || (!r.denied && (r.sparse || (r.outOfOrder && choice.enableRewrite && !cached)))
      then f.state.open.Some? && f.chunk == r.(id := f.state.open.value.id) && c.fp in f.state.open.value.fps
      else f.chunk == r && f.state == st.(monitor := f.state.monitor, aware := f.state.aware)
  {}

  /** Once a segment has written a chunk that its container did not have, the later copies take its id: a duplicate is
      not rewritten twice, and a temporary duplicate finds its unique copy. Other chunks are not affected. */
  lemma LaterCopiesFollow(cfg: Config, st: State, recent: Recent, c: Chunk, choice: Choice, d: Chunk)
    requires MayFilter(cfg, st, recent, c, choice) && CanResolve(recent, d) && d.dup
    requires c.fp !in recent.rewritten && !InOpen(st.open, c.fp)
    ensures var f := FilterChunk(cfg, st, recent, c, choice);
      && CanResolve(f.recent, d)
      && (d.fp != c.fp ==> Resolve(f.recent, d) == Resolve(recent, d))
      && (d.fp == c.fp && c.dup && f.state.open != st.open ==>
            Resolve(f.recent, d) == d.(id := f.chunk.id, denied := true))
      && (d.fp == c.fp && !c.dup && d.id == TEMPORARY_ID ==> Resolve(f.recent, d).id == f.chunk.id)
  {
    Remembered(cfg, st, recent, c, choice);
  }

  lemma Remembered(cfg: Config, st: State, recent: Recent, c: Chunk, choice: Choice)
    requires MayFilter(cfg, st, recent, c, choice) && !InOpen(st.open, c.fp)
    ensures var f := FilterChunk(cfg, st, recent, c, choice);
      && f.recent == (if f.state.open == st.open then recent
                      else if c.dup then recent.(rewritten := recent.rewritten[c.fp := f.chunk.id])
                      else recent.(unique := recent.unique[c.fp := f.chunk.id]))
      && (!c.dup ==> f.state.open != st.open)
  {
    var c1 := Resolve(recent, c);
    DecidedRemembers(cfg, st, recent, c1, Written(c1, choice, InCache(cfg, st, c)));
  }

  lemma DecidedRemembers(cfg: Config, st: State, recent: Recent, c: Chunk, written: bool)
    requires !InOpen(st.open, c.fp)
    ensures var f := Decided(cfg, st, recent, c, written);
      && (!written ==> f == Filtered(st, recent, c))
      && (written ==> f.state.open != st.open && f.recent == Remember(recent, c, f.chunk.id))
  {
    if written {
      RoomHasNot(cfg, st, c.size, c.fp);
      var st1 := Room(cfg, st, c.size);
      assert InOpen(AddChunk(st1, c).open, c.fp);
    }
  }

  lemma RoomHasNot(cfg: Config, st: State, size: nat, fp: ChunkFp)
    requires !InOpen(st.open, fp)
    ensures !InOpen(Room(cfg, st, size).open, fp)
  {}

  /** A container is sealed, and a new one begun, exactly when the next chunk would exceed its data area or its entry
      its metadata area; the open one is not touched otherwise. */
  lemma SealedExactlyWhenFull(cfg: Config, st: State, size: ChunkSize)
    requires st.open.Some?
    ensures var st', o := Room(cfg, st, size), st.open.value;
      var fits := o.dataSize + size <= CONTAINER_SIZE - CONTAINER_META_SIZE
                  && (o.chunkNum + 1) * 28 + 16 <= CONTAINER_META_SIZE;
      && (fits ==> st' == st)
      && (!fits ==>
            && st'.open == Some(Container(st.next, {}, [], 0, 0)) && st'.next == st.next + 1
            && st'.sealed == st.sealed[o.id := o.fps] && st'.history == st.history + [Sealing(o.id, o.listed)])
  {}

  /** A chunk that is written goes behind the others of its container, once. */
  lemma WrittenOnce(st: State, c: Chunk)
    requires st.open.Some?
    ensures var o, o' := st.open.value, AddChunk(st, c).open.value;
      && o'.id == o.id && o'.fps == o.fps + {c.fp}
      && o'.listed == (if c.fp in o.fps then o.listed else o.listed + [c.fp])
      && o'.chunkNum - o.chunkNum == |o'.listed| - |o.listed|
      && o'.dataSize - o.dataSize == (if c.fp in o.fps then 0 else c.size)
  {}
}
