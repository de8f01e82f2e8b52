/** What dedup keeps: the queues of the index buffer mirror the chunks in flight. */
module DedupSafety {
  import opened Common
  import opened Lru
  import opened DedupSpec

  // ---- the chunks of one fingerprint

  function Of(fp: ChunkFp, s: seq<Chunk>): (r: seq<Chunk>) {
    if s == [] then [] else if s[0].fp == fp then [s[0]] + Of(fp, s[1..]) else Of(fp, s[1..])
  }

  lemma {:induction false} OfAppend(fp: ChunkFp, a: seq<Chunk>, b: seq<Chunk>)
    ensures Of(fp, a + b) == Of(fp, a) + Of(fp, b)
  {
    if a == [] {
      assert a + b == b;
    } else {
      assert (a + b)[1..] == a[1..] + b;
      OfAppend(fp, a[1..], b);
    }
  }

  /** A chunk's place in its fingerprint's queue is the number of earlier chunks with that fingerprint. */
  lemma {:induction false} OfPlace(s: seq<Chunk>, j: nat)
    requires j < |s|
    ensures var i := |Of(s[j].fp, s[..j])|; i < |Of(s[j].fp, s)| && Of(s[j].fp, s)[i] == s[j]
  {
    OfAppend(s[j].fp, s[..j], s[j..]);
    assert s[..j] + s[j..] == s;
  }

  lemma {:induction false} OfNone(fp: ChunkFp, s: seq<Chunk>)
    ensures Of(fp, s) == [] <==> fp !in Fps(s)
  {
    if s != [] {
      OfNone(fp, s[1..]);
      assert Fps(s) == [s[0].fp] + Fps(s[1..]);
    }
  }

  lemma {:induction false} OfFirst(fp: ChunkFp, s: seq<Chunk>) returns (k: nat)
    requires Of(fp, s) != []
    ensures k < |s| && s[k].fp == fp && Of(fp, s)[0] == s[k]
    ensures forall i :: 0 <= i < k ==> s[i].fp != fp
  {
    if s[0].fp == fp {
      k := 0;
    } else {
      k := OfFirst(fp, s[1..]);
      k := k + 1;
    }
  }

  lemma {:induction false} OfElements(fp: ChunkFp, s: seq<Chunk>)
    ensures forall c :: c in Of(fp, s) ==> c in s && c.fp == fp
  {
    if s != [] { OfElements(fp, s[1..]); }
  }

  lemma FlatGrow(before: seq<seq<Chunk>>, last: seq<Chunk>, c: Chunk)
    ensures Flat(before + [last + [c]]) == Flat(before + [last]) + [c]
  {
    FlatSnoc(before, last + [c]);
    FlatSnoc(before, last);
    assert Flat(before) + (last + [c]) == Flat(before) + last + [c];
  }

  // ---- the invariant

  /** Container id, live or still open, holds the chunk. */
  predicate Holds(st: State, id: ContainerId, fp: ChunkFp) {
    (id in st.sealed && fp in st.sealed[id]) || (InOpen(st.open, fp) && id == st.open.value.id)
  }

  ghost predicate Stored(st: State, fp: ChunkFp) {
    exists id :: Holds(st, id, fp)
  }

  /** Every live container was sealed as it stands; containers are sealed in the order of their ids, all below
      bound. */
  ghost predicate HistoryOf(history: seq<Sealing>, sealed: map<ContainerId, set<ChunkFp>>, bound: ContainerId) {
    && (forall id :: id in sealed ==> exists i :: 0 <= i < |history| && history[i].id == id)
    && (forall i :: 0 <= i < |history| ==> history[i].listed != [] && 0 <= history[i].id < bound)
    && (forall i :: 0 <= i < |history| && history[i].id in sealed ==> sealed[history[i].id] == Elements(history[i].listed))
    && (forall i, j :: 0 <= i < j < |history| ==> history[i].id < history[j].id)
  }

  ghost predicate ContainersOk(st: State) {
    && (forall id :: id in st.sealed ==> 0 <= id < st.next)
    && (st.open.Some? ==>
          var o := st.open.value;
          st.start <= o.id < st.next && o.id !in st.sealed && Elements(o.listed) == o.fps
          && o.chunkNum == |o.listed| && (o.listed == [] ==> o.dataSize == 0))
    && HistoryOf(st.history, st.sealed, if st.open.Some? then st.open.value.id else st.next)
    && 0 <= st.start <= st.next
    && forall id :: id in st.inherited ==> 0 <= id < st.start
  }

  ghost predicate IndexOk(cfg: Config, st: State) {
    && (forall k :: k in st.kv ==> st.kv[k] in st.sealed)
    && (Belonging(cfg, st) ==> forall k :: k in st.kv ==> k in KeysOf(cfg, st.sealed[st.kv[k]]))
  }

  ghost predicate CacheOk(sealed: map<ContainerId, set<ChunkFp>>, cache: seq<Meta>) {
    forall m :: m in cache ==> m.id in sealed && m.fps == sealed[m.id]
  }

  /** No fingerprint is stored twice, and every sealed chunk is in the index. */
  ghost predicate ExactOk(cfg: Config, st: State) {
    && (forall i, j, fp :: Holds(st, i, fp) && Holds(st, j, fp) ==> i == j)
    && (forall id, fp :: id in st.sealed && fp in st.sealed[id] ==> KeyOf(cfg, fp) in st.kv)
  }

  ghost predicate StoreOk(cfg: Config, st: State) {
    && ContainersOk(st)
    && IndexOk(cfg, st)
    && CacheOk(st.sealed, st.cache)
    && (Exact(cfg) ==> ExactOk(cfg, st))
  }

  /** One fingerprint: its queue has one element per chunk in flight, only the first chunk may be
      unique, and the queue's head is temporary exactly while that unique chunk is unwritten. */
  ghost predicate QueueOk(cfg: Config, st: State, fp: ChunkFp, p: seq<Chunk>) {
    && (fp in st.buffered <==> p != [])
    && (p != [] ==>
          var q := st.buffered[fp];
          && |q| == |p|
          && (q[0] == TEMPORARY_ID <==> !p[0].dup)
          && (forall i :: 1 <= i < |p| ==> p[i].dup)
          && (!p[0].dup ==> p[0].id == TEMPORARY_ID && !InOpen(st.open, fp) && (Exact(cfg) ==> !Stored(st, fp))))
  }

  ghost predicate KnownId(st: State, id: ContainerId, fp: ChunkFp) {
    id == TEMPORARY_ID || Holds(st, id, fp)
  }

  /** The containers whose chunks har_check marks. */
  function Sparse(cfg: Config, st: State): set<ContainerId> {
    if cfg.har then st.inherited else {}
  }

  /** An id that a chunk in flight may have when q0 heads the queue of its fingerprint. */
  predicate MayHave(cfg: Config, st: State, q0: ContainerId, id: ContainerId) {
    id == TEMPORARY_ID || (if q0 >= st.start then id >= st.start || id in Sparse(cfg, st) else id == q0)
  }

  /** Without a rewriting algorithm: once this backup has written the fingerprint, the head of its queue says
      so, and until then every chunk of it has the id at the head. */
  ghost predicate MarkOk(cfg: Config, st: State, fp: ChunkFp, p: seq<Chunk>) {
    !cfg.rewriting && p != [] && fp in st.buffered && st.buffered[fp] != [] ==>
      var q0 := st.buffered[fp][0];
      (InOpen(st.open, fp) ==> q0 >= st.start) && forall c :: c in p ==> MayHave(cfg, st, q0, c.id)
  }

  ghost predicate FlightOk(cfg: Config, st: State) {
    var all := Flat(st.flight);
    && (forall fp :: QueueOk(cfg, st, fp, Of(fp, all)) && MarkOk(cfg, st, fp, Of(fp, all)))
    && (forall fp :: fp in st.buffered ==> forall i :: 0 <= i < |st.buffered[fp]| ==> KnownId(st, st.buffered[fp][i], fp))
    && (forall c :: c in all ==> KnownId(st, c.id, c.fp) && !c.sparse && (cfg.rewriting || !c.outOfOrder))
    && st.chunkNum == |all|
  }

  lemma FlightGrows(st: State, c: Chunk)
    requires st.flight != []
    ensures var n := |st.flight| - 1; Flat(st.flight[..n] + [st.flight[n] + [c]]) == Flat(st.flight) + [c]
  {
    var n := |st.flight| - 1;
    FlatGrow(st.flight[..n], st.flight[n], c);
    assert st.flight[..n] + [st.flight[n]] == st.flight;
  }

  // ---- identifying one chunk

  lemma TouchedSame(q: seq<Meta>, hit: Meta -> bool)
    ensures forall m :: m in Touched(q, hit) <==> m in q
  {
    var i := FirstHit(q, hit);
    if i < |q| {
      assert q == q[..i] + [q[i]] + q[i + 1..];
    }
  }

  lemma CacheHit(sealed: map<ContainerId, set<ChunkFp>>, cache: seq<Meta>, c: Chunk)
    requires CacheOk(sealed, cache)
    ensures var (q, c') := FromCache(cache, c);
      && CacheOk(sealed, q)
      && (c' == c || (c' == c.(id := c'.id, dup := true) && c'.id in sealed && c.fp in sealed[c'.id]))
      && (c'.dup || forall m :: m in cache ==> c.fp !in m.fps)
  {
    TouchedSame(cache, HasFp(c.fp));
    var i := FirstHit(cache, HasFp(c.fp));
    if i < |cache| { assert cache[i] in cache; }
    if m :| m in cache && c.fp in m.fps {
      var j :| 0 <= j < |cache| && cache[j] == m;
      assert HasFp(c.fp)(cache[j]);
    }
  }

  lemma StoreHit(cfg: Config, st: State, cache: seq<Meta>, c: Chunk)
    requires StoreOk(cfg, st) && CacheOk(st.sealed, cache)
    ensures var (q, c') := FromStore(cfg, st.sealed, st.kv, cache, c);
      && CacheOk(st.sealed, q)
      && (c' == c || (c' == c.(id := c'.id, dup := true) && Holds(st, c'.id, c.fp)))
      && (Exact(cfg) && !c'.dup ==> forall id :: id in st.sealed ==> c.fp !in st.sealed[id])
  {
    var k := KeyOf(cfg, c.fp);
    if k in st.kv {
      var m := Meta(st.kv[k], st.sealed[st.kv[k]]);
      var q := Inserted(cache, cfg.cacheSize, m);
      CacheHit(st.sealed, q, c);
      assert m in q;
      if Exact(cfg) {
        ExactKeyHolds(cfg, st, c.fp);
      }
    }
  }

  /** With whole digests as keys, the container that an entry names holds exactly that fingerprint. */
  lemma ExactKeyHolds(cfg: Config, st: State, fp: ChunkFp)
    requires Exact(cfg) && StoreOk(cfg, st) && KeyOf(cfg, fp) in st.kv
    ensures fp in st.sealed[st.kv[KeyOf(cfg, fp)]]
  {
    var k := KeyOf(cfg, fp);
    assert Belonging(cfg, st);
    var f :| f in st.sealed[st.kv[k]] && KeyOf(cfg, f) == k;
    assert f.hash[..20] == f.hash && fp.hash[..20] == fp.hash;
  }

  ghost predicate Identified(cfg: Config, st: State, c: Chunk, r: Chunk) {
    && r == c.(id := r.id, dup := r.dup, denied := r.denied)
    && KnownId(st, r.id, c.fp)
    && (c.fp in st.buffered ==> r.dup)
    && (InOpen(st.open, c.fp) ==> r.id == st.open.value.id)
    && (c.fp in st.buffered && st.buffered[c.fp] != [] && !InOpen(st.open, c.fp) ==> r.id == st.buffered[c.fp][0])
    && (c.fp !in st.buffered ==> (r.id == TEMPORARY_ID <==> !r.dup))
    && (!r.dup ==> !InOpen(st.open, c.fp) && (Exact(cfg) ==> !Stored(st, c.fp)))
  }

  lemma IdentifySound(cfg: Config, st: State, c: Chunk)
    requires StoreOk(cfg, st) && FlightOk(cfg, st) && Untouched(c)
    ensures CanIdentify(cfg, st, c)
    ensures var (q, r) := Identify(cfg, st, c); CacheOk(st.sealed, q) && Identified(cfg, st, c, r)
  {
    assert QueueOk(cfg, st, c.fp, Of(c.fp, Flat(st.flight)));
    var c2 := FromBuffer(st.buffered, FromOpen(st.open, c));
    if !c2.dup {
      CacheHit(st.sealed, st.cache, c2);
      var (q3, c3) := FromCache(st.cache, c2);
      if !c3.dup { StoreHit(cfg, st, q3, c3); }
    }
  }

  // ---- one chunk joins

  lemma QueueJoins(cfg: Config, st: State, c: Chunk, fp: ChunkFp)
    requires StoreOk(cfg, st) && FlightOk(cfg, st) && Untouched(c) && st.flight != []
    requires CanIdentify(cfg, st, c) && Identified(cfg, st, c, Identify(cfg, st, c).1)
    ensures var st' := DedupChunk(cfg, st, c); QueueOk(cfg, st', fp, Of(fp, Flat(st'.flight)))
  {
    var st', r := DedupChunk(cfg, st, c), Identify(cfg, st, c).1;
    FlightGrows(st, r);
    OfAppend(fp, Flat(st.flight), [r]);
    assert QueueOk(cfg, st, fp, Of(fp, Flat(st.flight)));
    assert Stored(st', fp) ==> Stored(st, fp) by {
      if Stored(st', fp) { var id :| Holds(st', id, fp); assert Holds(st, id, fp); }
    }
    assert Of(fp, [r]) == if r.fp == fp then [r] else [];
  }

  lemma MarkJoins(cfg: Config, st: State, c: Chunk, fp: ChunkFp)
    requires StoreOk(cfg, st) && FlightOk(cfg, st) && Untouched(c) && st.flight != []
    requires CanIdentify(cfg, st, c) && Identified(cfg, st, c, Identify(cfg, st, c).1)
    ensures var st' := DedupChunk(cfg, st, c); MarkOk(cfg, st', fp, Of(fp, Flat(st'.flight)))
  {
    var st', r := DedupChunk(cfg, st, c), Identify(cfg, st, c).1;
    FlightGrows(st, r);
    var p := Of(fp, Flat(st.flight));
    OfAppend(fp, Flat(st.flight), [r]);
    assert QueueOk(cfg, st, fp, p) && MarkOk(cfg, st, fp, p);
    assert Of(fp, [r]) == if r.fp == fp then [r] else [];
  }

  /** Steps that touch no container and no index. */
  lemma StoresFrame(cfg: Config, st: State, st': State)
    requires StoreOk(cfg, st) && CacheOk(st'.sealed, st'.cache)
    requires st'.open == st.open && st'.sealed == st.sealed && st'.next == st.next && st'.kv == st.kv
    requires st'.history == st.history && st'.start == st.start && st'.inherited == st.inherited
    ensures StoreOk(cfg, st')
    ensures forall id, fp :: Holds(st', id, fp) == Holds(st, id, fp)
  {
    forall id, fp ensures Holds(st', id, fp) == Holds(st, id, fp) {}
    assert Belonging(cfg, st') == Belonging(cfg, st);
  }

  lemma DedupChunkKeeps(cfg: Config, st: State, c: Chunk)
    requires StoreOk(cfg, st) && FlightOk(cfg, st) && Untouched(c) && st.flight != []
    ensures CanIdentify(cfg, st, c)
    ensures var st' := DedupChunk(cfg, st, c); StoreOk(cfg, st') && FlightOk(cfg, st')
  {
    IdentifySound(cfg, st, c);
    var st', r := DedupChunk(cfg, st, c), Identify(cfg, st, c).1;
    FlightGrows(st, r);
    forall fp ensures QueueOk(cfg, st', fp, Of(fp, Flat(st'.flight))) && MarkOk(cfg, st', fp, Of(fp, Flat(st'.flight))) {
      QueueJoins(cfg, st, c, fp);
      MarkJoins(cfg, st, c, fp);
    }
    StoresFrame(cfg, st, st');
  }

  /** What a dedup step leaves alone. */
  ghost predicate SameStores(st: State, st': State) {
    st' == st.(cache := st'.cache, buffered := st'.buffered, chunkNum := st'.chunkNum, flight := st'.flight,
               stream := st'.stream)
  }

  predicate Shown(st: State) { true }

  /** StoreOk and FlightOk, behind a quantifier so that they unfold only where Shown(st) is stated. */
  ghost predicate Sound(cfg: Config, st: State) {
    forall x {:trigger Shown(x)} :: Shown(x) && x == st ==> StoreOk(cfg, x) && FlightOk(cfg, x)
  }

  ghost predicate FedOk(cfg: Config, st: State, s: seq<Chunk>, st': State) {
    && Sound(cfg, st') && SameStores(st, st')
    && st'.stream == st.stream + Fps(s)
    && Fps(Flat(st'.flight)) == Fps(Flat(st.flight)) + Fps(s)
  }

  lemma OneFed(cfg: Config, st: State, c: Chunk)
    requires Sound(cfg, st) && st.flight != [] && Untouched(c)
    ensures CanIdentify(cfg, st, c) && FedOk(cfg, st, [c], DedupChunk(cfg, st, c))
  {
    assert Shown(st);
    DedupChunkKeeps(cfg, st, c);
    IdentifySound(cfg, st, c);
    FlightGrows(st, Identify(cfg, st, c).1);
  }

  lemma FedTrans(cfg: Config, st: State, c: Chunk, mid: State, rest: seq<Chunk>, st': State)
    requires FedOk(cfg, st, [c], mid) && FedOk(cfg, mid, rest, st')
    ensures FedOk(cfg, st, [c] + rest, st')
  {
    assert Fps([c] + rest) == Fps([c]) + Fps(rest);
  }

  lemma {:induction false} DedupAllKeeps(cfg: Config, st: State, s: seq<Chunk>)
    requires Sound(cfg, st) && st.flight != []
    requires forall c :: c in s ==> Untouched(c)
    ensures var r := DedupAll(cfg, st, s); r.Some? && FedOk(cfg, st, s, r.value)
    decreases |s|
  {
    if s != [] {
      OneFed(cfg, st, s[0]);
      var mid := DedupChunk(cfg, st, s[0]);
      DedupAllKeeps(cfg, mid, s[1..]);
      FedTrans(cfg, st, s[0], mid, s[1..], DedupAll(cfg, mid, s[1..]).value);
      assert [s[0]] + s[1..] == s;
    }
  }

  lemma EmptySegmentJoins(cfg: Config, st: State)
    requires StoreOk(cfg, st) && FlightOk(cfg, st)
    ensures var st' := st.(flight := st.flight + [[]]);
      StoreOk(cfg, st') && FlightOk(cfg, st') && Flat(st'.flight) == Flat(st.flight)
  {
    FlatSnoc(st.flight, []);
    var st' := st.(flight := st.flight + [[]]);
    assert Flat(st'.flight) == Flat(st.flight);
    forall fp ensures QueueOk(cfg, st', fp, Of(fp, Flat(st'.flight))) && MarkOk(cfg, st', fp, Of(fp, Flat(st'.flight))) {
      assert QueueOk(cfg, st, fp, Of(fp, Flat(st.flight))) && MarkOk(cfg, st, fp, Of(fp, Flat(st.flight)));
      if Stored(st', fp) { var id :| Holds(st', id, fp); assert Holds(st, id, fp); }
    }
    StoresFrame(cfg, st, st');
  }

  /** A dedup step never fails, keeps the invariant, and hands on every chunk it was fed, in order. */
  lemma DedupSegmentKeeps(cfg: Config, st: State, s: seq<Chunk>)
    requires StoreOk(cfg, st) && FlightOk(cfg, st)
    requires forall c :: c in s ==> Untouched(c)
    ensures var r := DedupSegment(cfg, st, s);
      r.Some? && FedOk(cfg, st, s, r.value) && StoreOk(cfg, r.value) && FlightOk(cfg, r.value)
  {
    EmptySegmentJoins(cfg, st);
    DedupAllKeeps(cfg, st.(flight := st.flight + [[]]), s);
    assert Shown(DedupSegment(cfg, st, s).value);
  }
}
