/** The state that dedup, rewrite, filter and deletion share, and one function per loop body of
    index.c, filter_phase.c, cma.c and do_delete.c (physical locality, one id per key).
    None stands for a failed C assert, a null dereference or exit(1). */
module DedupSpec {
  import opened Common
  import opened Lru

  /** A chunk fits an empty container. */
  type ChunkSize = n: nat | n <= DATA_AREA
  type Key = seq<Byte>
  type KeySize = n: nat | 0 < n <= 20 witness 20

  /** index_category[0] == EXACT, index_key_size, index_cache_size, rewrite_algorithm[0] != NO (capping, CFL
      or CBR), rewrite_enable_har, rewrite_enable_cache_aware, restore_cache[1], and the features that sampling
      selects when a container with these chunks is sealed. */
  datatype Config = Config(exact: bool, keySize: KeySize, cacheSize: int, rewriting: bool, har: bool,
                           cacheAware: bool, restoreCache: int, sample: (ContainerId, seq<ChunkFp>) -> set<Key>)

  datatype Chunk = Chunk(fp: ChunkFp, size: ChunkSize, id: ContainerId,
                         dup: bool, denied: bool, sparse: bool, outOfOrder: bool)

  /** A container still being filled, with storage_buffer.chunks. */
  datatype Container = Container(id: ContainerId, fps: set<ChunkFp>, listed: seq<ChunkFp>,
                                 dataSize: nat, chunkNum: nat)

  /** A container that was sealed, with its chunks in order. */
  datatype Sealing = Sealing(id: ContainerId, listed: seq<ChunkFp>)

  /** A container's metadata in the fingerprint cache. */
  datatype Meta = Meta(id: ContainerId, fps: set<ChunkFp>)

  datatype State = State(
    buffered: map<ChunkFp, seq<ContainerId>>,     // index_buffer.buffered_fingerprints
    chunkNum: int,                                // index_buffer.chunk_num
    flight: seq<seq<Chunk>>,                      // segments between dedup and filter
    open: Option<Container>,                      // storage_buffer
    sealed: map<ContainerId, set<ChunkFp>>,       // live containers, queued for append or on disk
    next: ContainerId,                            // container_count
    kv: map<Key, ContainerId>,                    // the key-value store
    cache: seq<Meta>,                             // the fingerprint cache
    stream: seq<ChunkFp>,                         // history: what this backup has fed to dedup
    recipe: seq<Pointer>,                         // what this backup has written to its recipe
    monitor: set<ContainerId>,                    // the containers this backup refers to
    aware: seq<ContainerId>,                      // the simulated restore cache, newest first
    inherited: set<ContainerId>,                  // inherited_sparse_containers
    start: ContainerId,                           // container_count when this backup began
    running: bool,
    job: int,                                     // jcr.id of the running backup, or of the next one
    manifest: map<ContainerId, int>,
    recipes: map<int, seq<Pointer>>,              // the recipes of finished backups
    streams: map<int, seq<ChunkFp>>,              // history: what finished backups have fed to dedup
    history: seq<Sealing>,                        // history: every container ever sealed
    deletedUpTo: int)

  function Initial(): State {
    State(map[], 0, [], None, map[], 0, map[], [], [], [], {}, [], {}, 0, false, 0, map[], map[], map[], [], -1)
  }

  function Elements<T>(s: seq<T>): set<T> {
    set x | x in s
  }

  function Fps(s: seq<Chunk>): seq<ChunkFp> {
    seq(|s|, i requires 0 <= i < |s| => s[i].fp)
  }

  function KeyOf(cfg: Config, fp: ChunkFp): Key {
    fp.hash[..cfg.keySize]
  }

  function KeysOf(cfg: Config, fps: set<ChunkFp>): set<Key> {
    set fp | fp in fps :: KeyOf(cfg, fp)
  }

  // ---- dedup: index_lookup_base

  predicate InOpen(open: Option<Container>, fp: ChunkFp) {
    open.Some? && fp in open.value.fps
  }

  function HasFp(fp: ChunkFp): Meta -> bool {
    (m: Meta) => fp in m.fps
  }

  function FromOpen(open: Option<Container>, c: Chunk): Chunk {
    if InOpen(open, c.fp) then c.(id := open.value.id, dup := true, denied := true) else c
  }

  function FromBuffer(buffered: map<ChunkFp, seq<ContainerId>>, c: Chunk): Chunk
    requires c.fp in buffered ==> buffered[c.fp] != []
  {
    if c.fp in buffered && !c.dup then c.(id := buffered[c.fp][0], dup := true) else c
  }

  /** fingerprint_cache_lookup: the list moves, the chunk learns the id. */
  function FromCache(cache: seq<Meta>, c: Chunk): (seq<Meta>, Chunk) {
    var m := Found(cache, HasFp(c.fp));
    (Touched(cache, HasFp(c.fp)), if m.Some? then c.(id := m.value.id, dup := true) else c)
  }

  /** The key-value store names a container, its metadata is fetched, and the cache is asked again. */
  function FromStore(cfg: Config, sealed: map<ContainerId, set<ChunkFp>>, kv: map<Key, ContainerId>,
                     cache: seq<Meta>, c: Chunk): (seq<Meta>, Chunk)
    requires KeyOf(cfg, c.fp) in kv ==> kv[KeyOf(cfg, c.fp)] in sealed
  {
    var k := KeyOf(cfg, c.fp);
    if k !in kv then (cache, c)
    else FromCache(Inserted(cache, cfg.cacheSize, Meta(kv[k], sealed[kv[k]])), c)
  }

  /** No empty queue is peeked, and the container that the key-value store names can be fetched. */
  predicate CanIdentify(cfg: Config, st: State, c: Chunk) {
    && (c.fp in st.buffered ==> st.buffered[c.fp] != [])
    && (KeyOf(cfg, c.fp) in st.kv ==> st.kv[KeyOf(cfg, c.fp)] in st.sealed)
  }

  function Identify(cfg: Config, st: State, c: Chunk): (seq<Meta>, Chunk)
    requires CanIdentify(cfg, st, c)
  {
    var c2 := FromBuffer(st.buffered, FromOpen(st.open, c));
    if c2.dup then (st.cache, c2)
    else
      var (q3, c3) := FromCache(st.cache, c2);
      if c3.dup then (q3, c3) else FromStore(cfg, st.sealed, st.kv, q3, c3)
  }

  /** One turn of the lookup loop; the chunk joins the last segment in flight. */
  function DedupChunk(cfg: Config, st: State, c: Chunk): State
    requires st.flight != [] && CanIdentify(cfg, st, c)
  {
    var (cache, c') := Identify(cfg, st, c);
    var n := |st.flight| - 1;
    var q := if c.fp in st.buffered then st.buffered[c.fp] else [];
    st.(cache := cache, buffered := st.buffered[c.fp := q + [c'.id]], chunkNum := st.chunkNum + 1,
        flight := st.flight[..n] + [st.flight[n] + [c']], stream := st.stream + [c.fp])
  }

  function DedupAll(cfg: Config, st: State, s: seq<Chunk>): Option<State>
    requires st.flight != []
    decreases |s|
  {
    if s == [] then Some(st)
    else if !CanIdentify(cfg, st, s[0]) then None
    else DedupAll(cfg, DedupChunk(cfg, st, s[0]), s[1..])
  }

  function DedupSegment(cfg: Config, st: State, s: seq<Chunk>): Option<State> {
    DedupAll(cfg, st.(flight := st.flight + [[]]), s)
  }

  // ---- filter

  /** One turn of index_check_buffer; None is assert(bq). */
  function CheckChunk(buffered: map<ChunkFp, seq<ContainerId>>, c: Chunk): Option<Chunk> {
    if !((c.dup && c.id == TEMPORARY_ID) || c.outOfOrder || c.sparse) then Some(c)
    else if c.fp !in buffered || buffered[c.fp] == [] then None
    else
      var be := buffered[c.fp][0];
      if be > c.id then Some((if c.id != TEMPORARY_ID then c.(denied := true) else c).(id := be)) else Some(c)
  }

  function CheckBuffer(buffered: map<ChunkFp, seq<ContainerId>>, s: seq<Chunk>): Option<seq<Chunk>> {
    if s == [] then Some([])
    else
      var c, rest := CheckChunk(buffered, s[0]), CheckBuffer(buffered, s[1..]);
      if c.None? || rest.None? then None else Some([c.value] + rest.value)
  }

  /** har_check: every duplicate passes it before the rewrite thread pushes the segment's end mark. */
  function HarMarked(cfg: Config, inherited: set<ContainerId>, c: Chunk): Chunk {
    if cfg.har && c.dup && c.id in inherited then c.(sparse := true) else c
  }

  function HarMarkedAll(cfg: Config, inherited: set<ContainerId>, s: seq<Chunk>): (r: seq<Chunk>)
    ensures |r| == |s| && forall i :: 0 <= i < |s| ==> r[i] == HarMarked(cfg, inherited, s[i])
  {
    seq(|s|, i requires 0 <= i < |s| => HarMarked(cfg, inherited, s[i]))
  }

  /** What decides about one chunk from outside: the CFL switch. */
  datatype Choice = Choice(enableRewrite: bool)

  /** recently_unique_chunks and recently_rewritten_chunks. */
  datatype Recent = Recent(unique: map<ChunkFp, ContainerId>, rewritten: map<ChunkFp, ContainerId>)

  predicate Overflow(o: Container, size: nat) {
    o.dataSize + size > DATA_AREA || (o.chunkNum + 1) * CONTAINER_META_ENTRY + 16 > CONTAINER_META_SIZE
  }

  function Create(st: State): State {
    st.(open := Some(Container(st.next, {}, [], 0, 0)), next := st.next + 1)
  }

  /** index_update for the features, then the container is handed to the append thread. */
  function Seal(cfg: Config, st: State): State
    requires st.open.Some?
  {
    var o := st.open.value;
    st.(kv := st.kv + (map k | k in cfg.sample(o.id, o.listed) :: o.id),
        sealed := st.sealed[o.id := o.fps], open := None, history := st.history + [Sealing(o.id, o.listed)])
  }

  /** The container that takes the chunk: the open one, or a new one when it would overflow. */
  function Room(cfg: Config, st: State, size: nat): (r: State)
    ensures r.open.Some?
  {
    var st1 := if st.open.None? then Create(st) else st;
    if Overflow(st1.open.value, size) then Create(Seal(cfg, st1)) else st1
  }

  /** add_chunk_to_container on the open container. */
  function AddChunk(st: State, c: Chunk): State
    requires st.open.Some?
  {
    var o := st.open.value;
    if c.fp in o.fps then st
    else st.(open := Some(o.(fps := o.fps + {c.fp}, listed := o.listed + [c.fp],
                             dataSize := o.dataSize + c.size, chunkNum := o.chunkNum + 1)))
  }

  /** assert(ruc). */
  predicate CanResolve(recent: Recent, c: Chunk) {
    c.dup && c.id == TEMPORARY_ID ==> c.fp in recent.unique
  }

  function Resolve(recent: Recent, c: Chunk): Chunk
    requires CanResolve(recent, c)
  {
    var c1 := if c.dup && c.id == TEMPORARY_ID then c.(id := recent.unique[c.fp]) else c;
    if c.fp in recent.rewritten then c1.(id := recent.rewritten[c.fp], denied := true) else c1
  }

  /** The cache-aware filter looks at the id before it is resolved. */
  predicate InCache(cfg: Config, st: State, c: Chunk) {
    cfg.cacheAware && c.id in st.aware
  }

  predicate Written(c: Chunk, choice: Choice, inCache: bool) {
    !c.dup || (!c.denied && (c.sparse || (choice.enableRewrite && c.outOfOrder && !inCache)))
  }

  function Remember(recent: Recent, c: Chunk, id: ContainerId): Recent {
    if !c.dup then recent.(unique := recent.unique[c.fp := id])
    else recent.(rewritten := recent.rewritten[c.fp := id])
  }

  datatype Filtered = Filtered(state: State, recent: Recent, chunk: Chunk)

  /** har_monitor_update and restore_aware_update. */
  function Noted(cfg: Config, st: State, id: ContainerId): State {
    st.(monitor := st.monitor + {id}, aware := Accessed(st.aware, cfg.restoreCache, id))
  }

  /** A chunk that is written goes into a container with room, and is remembered when it was not there. */
  function Decided(cfg: Config, st: State, recent: Recent, c: Chunk, written: bool): Filtered {
    if !written then Filtered(st, recent, c)
    else
      var st1 := Room(cfg, st, c.size);
      var id := st1.open.value.id;
      var recent' := if InOpen(st1.open, c.fp) then recent else Remember(recent, c, id);
      Filtered(AddChunk(st1, c), recent', c.(id := id))
  }

  /** A written chunk fits, and an exact index with rewrite algorithm NO never writes what the open container
      has. */
  predicate MayDecide(cfg: Config, st: State, c: Chunk, written: bool) {
    written ==>
      var o := Room(cfg, st, c.size).open;
      !Overflow(o.value, c.size) && (cfg.exact && !cfg.rewriting ==> !InOpen(o, c.fp))
  }

  /** One turn of the filter loop: the new state, the tables, and the chunk with its final id. */
  function FilterChunk(cfg: Config, st: State, recent: Recent, c: Chunk, choice: Choice): Filtered
    requires CanResolve(recent, c)
  {
    var c1 := Resolve(recent, c);
    var f := Decided(cfg, st, recent, c1, Written(c1, choice, InCache(cfg, st, c)));
    f.(state := Noted(cfg, f.state, f.chunk.id))
  }

  /** The asserts of one turn: a cached chunk has an id, a chunk without an id has a unique copy, and those of
      the write. */
  predicate MayFilter(cfg: Config, st: State, recent: Recent, c: Chunk, choice: Choice) {
    && (InCache(cfg, st, c) ==> c.id != TEMPORARY_ID)
    && CanResolve(recent, c)
    && var c1 := Resolve(recent, c);
       MayDecide(cfg, st, c1, Written(c1, choice, InCache(cfg, st, c)))
  }

  function FilterAll(cfg: Config, st: State, recent: Recent, s: seq<Chunk>, choices: seq<Choice>)
    : Option<(State, seq<Chunk>)>
    requires |choices| == |s|
    decreases |s|
  {
    if s == [] then Some((st, []))
    else if !MayFilter(cfg, st, recent, s[0], choices[0]) then None
    else
      var f := FilterChunk(cfg, st, recent, s[0], choices[0]);
      var rest := FilterAll(cfg, f.state, f.recent, s[1..], choices[1..]);
      if f.chunk.id == TEMPORARY_ID || rest.None? then None
      else Some((rest.value.0, [f.chunk] + rest.value.1))
  }

  /** One turn of index_update_buffer. */
  function PopBuffer(buffered: map<ChunkFp, seq<ContainerId>>, c: Chunk): map<ChunkFp, seq<ContainerId>>
    requires c.fp in buffered && buffered[c.fp] != []
  {
    var n := |buffered[c.fp]| - 1;
    if n == 0 then buffered - {c.fp} else buffered[c.fp := seq(n, _ => c.id)]
  }

  function PopAll(buffered: map<ChunkFp, seq<ContainerId>>, s: seq<Chunk>): Option<map<ChunkFp, seq<ContainerId>>>
    decreases |s|
  {
    if s == [] then Some(buffered)
    else if s[0].id == TEMPORARY_ID || s[0].fp !in buffered || buffered[s[0].fp] == [] then None
    else PopAll(PopBuffer(buffered, s[0]), s[1..])
  }

  function Pointers(s: seq<Chunk>): seq<Pointer> {
    seq(|s|, i requires 0 <= i < |s| => Pointer(s[i].fp, s[i].id, s[i].size))
  }

  predicate Placed(s: seq<Chunk>) {
    forall c :: c in s ==> c.id >= 0
  }

  /** The filtered segment leaves the index buffer and enters the recipe; None is assert(cp.id >= 0). */
  function SegmentLeaves(st: State, later: seq<seq<Chunk>>, out: seq<Chunk>,
                         popped: Option<map<ChunkFp, seq<ContainerId>>>): Option<State> {
    if popped.None? || !Placed(out) then None
    else Some(st.(buffered := popped.value, chunkNum := st.chunkNum - |out|, flight := later,
                  recipe := st.recipe + Pointers(out)))
  }

  /** filter_thread under index_lock: the oldest segment is checked, filtered, popped and recorded. */
  function FilterSegment(cfg: Config, st: State, choices: seq<Choice>): Option<State>
    requires st.flight != [] && |choices| == |st.flight[0]|
  {
    var checked := CheckBuffer(st.buffered, HarMarkedAll(cfg, st.inherited, st.flight[0]));
    if checked.None? || |checked.value| != |choices| then None
    else
      var filtered := FilterAll(cfg, st, Recent(map[], map[]), checked.value, choices);
      if filtered.None? then None
      else
        var (st1, out) := filtered.value;
        SegmentLeaves(st1, st.flight[1..], out, PopAll(st1.buffered, out))
  }

  // ---- the exact index

  ghost predicate Exact(cfg: Config) {
    cfg.exact && cfg.keySize == 20 && !cfg.rewriting && !cfg.har
    && forall id, listed :: listed != [] ==> cfg.sample(id, listed) == KeysOf(cfg, Elements(listed))
  }

  /** The features of every container sealed so far are keys of its own chunks. */
  ghost predicate Belonging(cfg: Config, st: State) {
    forall x :: x in st.history ==> cfg.sample(x.id, x.listed) <= KeysOf(cfg, Elements(x.listed))
  }

  // ---- backups and deletions

  function Begin(st: State, inherited: set<ContainerId>): State {
    st.(running := true, stream := [], recipe := [], monitor := {}, aware := [], inherited := inherited, start := st.next)
  }

  function Closed(cfg: Config, st: State): State {
    if st.open.Some? && st.open.value.chunkNum != 0 then Seal(cfg, st) else st.(open := None)
  }

  /** The last container is sealed, the manifest takes the time of every container referred to, and the
      process ends with its cache. */
  function End(cfg: Config, st: State): State {
    var st1 := Closed(cfg, st);
    st1.(manifest := st1.manifest + (map id | id in st1.monitor :: st1.job), running := false, cache := [],
         recipes := st1.recipes[st1.job := st1.recipe], streams := st1.streams[st1.job := st1.stream], job := st1.job + 1)
  }

  function Reclaimed(manifest: map<ContainerId, int>, job: int): set<ContainerId> {
    set id | id in manifest && manifest[id] <= job
  }

  /** kvstore_delete of every fingerprint of every reclaimed container. */
  function StoreWithout(cfg: Config, kv: map<Key, ContainerId>, sealed: map<ContainerId, set<ChunkFp>>,
                        gone: set<ContainerId>): map<Key, ContainerId>
    requires gone <= sealed.Keys
  {
    map k | k in kv && !(kv[k] in gone && k in KeysOf(cfg, sealed[kv[k]])) :: kv[k]
  }

  /** trunc_manifest and do_delete; None when the metadata of a reclaimed container cannot be read. */
  function Delete(cfg: Config, st: State, job: int): Option<State> {
    var gone := Reclaimed(st.manifest, job);
    if !(gone <= st.sealed.Keys) then None
    else Some(st.(manifest := st.manifest - gone, kv := StoreWithout(cfg, st.kv, st.sealed, gone),
                  sealed := st.sealed - gone,
                  deletedUpTo := if job > st.deletedUpTo then job else st.deletedUpTo))
  }

  // ---- runs

  datatype Event =
    | BeginBackup(inherited: set<ContainerId>)
    | DedupStep(segment: seq<Chunk>)
    | Flag(flight: seq<seq<Chunk>>)
    | FilterStep(choices: seq<Choice>)
    | EndBackup
    | DeleteBackup(upTo: int)

  predicate Untouched(c: Chunk) {
    c.id == TEMPORARY_ID && !c.dup && !c.denied && !c.sparse && !c.outOfOrder
  }

  predicate SameButMarks(a: seq<Chunk>, b: seq<Chunk>) {
    |a| == |b| && forall i :: 0 <= i < |a| ==> a[i] == b[i].(outOfOrder := a[i].outOfOrder)
  }

  function PointerIds(r: seq<Pointer>): set<ContainerId> {
    set p | p in r :: p.id
  }

  /** When the pipeline can take the step: the sparse containers that a backup inherits are some of those
      its predecessor referred to, a rewriting algorithm only marks chunks in flight, and a process runs either
      one backup or one deletion of a finished backup. */
  predicate Enabled(cfg: Config, st: State, e: Event) {
    match e
    case BeginBackup(inherited) => !st.running
      && inherited <= if st.job - 1 in st.recipes then PointerIds(st.recipes[st.job - 1]) else {}
    case DedupStep(s) => st.running && forall c :: c in s ==> Untouched(c)
    case Flag(flight) => cfg.rewriting && st.running && |flight| == |st.flight|
      && forall k :: 0 <= k < |flight| ==> SameButMarks(flight[k], st.flight[k])
    case FilterStep(choices) => st.running && st.flight != [] && |choices| == |st.flight[0]|
    case EndBackup => st.running && st.flight == []
    case DeleteBackup(j) => !st.running && j in st.recipes
  }

  function Step(cfg: Config, st: State, e: Event): Option<State>
    requires Enabled(cfg, st, e)
  {
    match e
    case BeginBackup(inherited) => Some(Begin(st, inherited))
    case DedupStep(s) => DedupSegment(cfg, st, s)
    case Flag(flight) => Some(st.(flight := flight))
    case FilterStep(choices) => FilterSegment(cfg, st, choices)
    case EndBackup => Some(End(cfg, st))
    case DeleteBackup(j) => Delete(cfg, st, j)
  }

  datatype Outcome = At(state: State) | Failed | NotARun

  /** Any sequence of backups and deletions, with dedup, rewriting and filter interleaved. */
  function Run(cfg: Config, events: seq<Event>): Outcome {
    if events == [] then At(Initial())
    else
      var n := |events| - 1;
      match Run(cfg, events[..n])
      case At(st) =>
        if !Enabled(cfg, st, events[n]) then NotARun
        else
          var r := Step(cfg, st, events[n]);
          if r.Some? then At(r.value) else Failed
      case o => o
  }
}
