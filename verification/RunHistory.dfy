/** What a run leaves behind, told by its history alone: the simulated restore cache, and which container the index
    names for a key. */
module RunHistory {
  import opened Common
  import opened Lru
  import opened DedupSpec
  import opened DedupSafety
  import opened FilterSafety
  import opened Backups
  import Decisions
  import RecipeStore

  // ---- the simulated restore cache

  function AccessAll(q: seq<ContainerId>, size: int, ids: seq<ContainerId>): seq<ContainerId>
    decreases |ids|
  {
    if ids == [] then q else AccessAll(Accessed(q, size, ids[0]), size, ids[1..])
  }

  lemma {:induction false} TraceAppend(size: int, a: seq<ContainerId>, b: seq<ContainerId>)
    ensures AfterTrace(size, a + b) == AccessAll(AfterTrace(size, a), size, b)
    decreases |b|
  {
    if b == [] {
      assert a + b == a;
    } else {
      assert (a + [b[0]])[..|a|] == a && a + b == (a + [b[0]]) + b[1..];
      TraceAppend(size, a + [b[0]], b[1..]);
    }
  }

  function ChunkIds(s: seq<Chunk>): seq<ContainerId> {
    seq(|s|, i requires 0 <= i < |s| => s[i].id)
  }

  lemma {:induction false} FilterAware(cfg: Config, st: State, recent: Recent, s: seq<Chunk>, choices: seq<Choice>)
    requires |choices| == |s| && FilterAll(cfg, st, recent, s, choices).Some?
    ensures var (st', out) := FilterAll(cfg, st, recent, s, choices).value;
      st'.aware == AccessAll(st.aware, cfg.restoreCache, ChunkIds(out)) && st'.recipe == st.recipe
    decreases |s|
  {
    if s != [] {
      TurnAware(cfg, st, recent, s[0], choices[0]);
      var f := FilterChunk(cfg, st, recent, s[0], choices[0]);
      FilterAware(cfg, f.state, f.recent, s[1..], choices[1..]);
      var rest := FilterAll(cfg, f.state, f.recent, s[1..], choices[1..]).value.1;
      assert ChunkIds([f.chunk] + rest)[1..] == ChunkIds(rest);
    }
  }

  lemma TurnAware(cfg: Config, st: State, recent: Recent, c: Chunk, choice: Choice)
    requires MayFilter(cfg, st, recent, c, choice)
    ensures var f := FilterChunk(cfg, st, recent, c, choice);
      f.state.aware == Accessed(st.aware, cfg.restoreCache, f.chunk.id) && f.state.recipe == st.recipe
  {
    var c1 := Resolve(recent, c);
    DecidedAware(cfg, st, recent, c1, Written(c1, choice, InCache(cfg, st, c)));
  }

  lemma DecidedAware(cfg: Config, st: State, recent: Recent, c: Chunk, written: bool)
    ensures SameNotes(st, Decided(cfg, st, recent, c, written).state)
  {
    RoomAware(cfg, st, c.size);
    assert SameNotes(Room(cfg, st, c.size), AddChunk(Room(cfg, st, c.size), c));
  }

  lemma RoomAware(cfg: Config, st: State, size: nat)
    ensures SameNotes(st, Room(cfg, st, size))
  {
    var st1 := if st.open.None? then Create(st) else st;
    assert SameNotes(st, st1);
    if Overflow(st1.open.value, size) {
      assert SameNotes(st1, Seal(cfg, st1)) && SameNotes(Seal(cfg, st1), Create(Seal(cfg, st1)));
    }
  }

  predicate SameNotes(st: State, st': State) {
    st'.aware == st.aware && st'.recipe == st.recipe
  }

  ghost predicate Simulated(cfg: Config, st: State) {
    st.running ==> st.aware == AfterTrace(cfg.restoreCache, RecipeStore.IdsOf(st.recipe))
  }

  lemma SegmentAware(cfg: Config, st: State, choices: seq<Choice>)
    requires st.flight != [] && |choices| == |st.flight[0]| && FilterSegment(cfg, st, choices).Some? && st.running
    requires Simulated(cfg, st)
    ensures Simulated(cfg, FilterSegment(cfg, st, choices).value)
  {
    var checked := Checked(cfg, st).value;
    FilterAware(cfg, st, Recent(map[], map[]), checked, choices);
    var (st1, out) := FilterAll(cfg, st, Recent(map[], map[]), checked, choices).value;
    SegmentParts(cfg, st, choices, checked, st1, out);
    PointerIdsAppend(st.recipe, out);
    TraceAppend(cfg.restoreCache, RecipeStore.IdsOf(st.recipe), ChunkIds(out));
  }

  lemma PointerIdsAppend(recipe: seq<Pointer>, out: seq<Chunk>)
    ensures RecipeStore.IdsOf(recipe + Pointers(out)) == RecipeStore.IdsOf(recipe) + ChunkIds(out)
  {}

  lemma SimulatedStep(cfg: Config, st: State, e: Event)
    requires Enabled(cfg, st, e) && Step(cfg, st, e).Some? && Simulated(cfg, st)
    ensures Simulated(cfg, Step(cfg, st, e).value)
  {
    match e
    case DedupStep(s) => DedupLeaves(cfg, st.(flight := st.flight + [[]]), s);
    case FilterStep(choices) => SegmentAware(cfg, st, choices);
    case _ =>
  }

  /** Dedup leaves the stores, the recipe and the restore cache alone. */
  lemma {:induction false} DedupLeaves(cfg: Config, st: State, s: seq<Chunk>)
    requires st.flight != [] && DedupAll(cfg, st, s).Some?
    ensures SameStores(st, DedupAll(cfg, st, s).value)
    decreases |s|
  {
    if s != [] { DedupLeaves(cfg, DedupChunk(cfg, st, s[0]), s[1..]); }
  }

  /** In every run the simulated restore cache holds the most recent distinct containers that the backup refers to, as
      many as a restore would keep, newest first. */
  lemma {:induction false} AwareIsRecent(cfg: Config, events: seq<Event>)
    requires Run(cfg, events).At?
    ensures var st := Run(cfg, events).state;
      Simulated(cfg, st) && (st.running ==> st.aware == Newest(Recency(RecipeStore.IdsOf(st.recipe)), cfg.restoreCache))
  {
    if events != [] {
      var n := |events| - 1;
      AwareIsRecent(cfg, events[..n]);
      SimulatedStep(cfg, Run(cfg, events[..n]).state, events[n]);
      StackTheorem(cfg.restoreCache, RecipeStore.IdsOf(Run(cfg, events).state.recipe));
    }
  }

  // ---- the index

  /** The last sealed container that had the key among its features. */
  function LastWith(cfg: Config, history: seq<Sealing>, k: Key): Option<ContainerId> {
    if history == [] then None
    else
      var n := |history| - 1;
      if k in cfg.sample(history[n].id, history[n].listed) then Some(history[n].id) else LastWith(cfg, history[..n], k)
  }

  ghost predicate NamesLast(cfg: Config, history: seq<Sealing>, sealed: map<ContainerId, set<ChunkFp>>,
                            kv: map<Key, ContainerId>, k: Key) {
    var last := LastWith(cfg, history, k);
    && (k in kv <==> last.Some? && last.value in sealed)
    && (k in kv ==> kv[k] == last.value)
  }

  ghost predicate IndexIs(cfg: Config, st: State) {
    forall k :: NamesLast(cfg, st.history, st.sealed, st.kv, k)
  }

  /** Containers are sealed in the order of their ids. */
  ghost predicate Ordered(history: seq<Sealing>, bound: ContainerId) {
    forall i :: 0 <= i < |history| ==> history[i].id < bound
  }

  ghost predicate InOrder(st: State) {
    Ordered(st.history, if st.open.Some? then st.open.value.id else st.next) && (st.open.Some? ==> st.open.value.id < st.next)
  }

  lemma {:induction false} LastBelow(cfg: Config, history: seq<Sealing>, bound: ContainerId, k: Key)
    requires Ordered(history, bound)
    ensures LastWith(cfg, history, k).Some? ==> LastWith(cfg, history, k).value < bound
  {
    if history != [] { LastBelow(cfg, history[..|history| - 1], bound, k); }
  }

  lemma SealNames(cfg: Config, st: State)
    requires st.open.Some? && IndexIs(cfg, st) && InOrder(st)
    ensures IndexIs(cfg, Seal(cfg, st)) && InOrder(Seal(cfg, st))
  {
    var o, st' := st.open.value, Seal(cfg, st);
    assert st'.history[..|st.history|] == st.history;
    forall k ensures NamesLast(cfg, st'.history, st'.sealed, st'.kv, k) {
      assert NamesLast(cfg, st.history, st.sealed, st.kv, k);
      LastBelow(cfg, st.history, o.id, k);
    }
  }

  lemma RoomNames(cfg: Config, st: State, size: nat)
    requires IndexIs(cfg, st) && InOrder(st)
    ensures IndexIs(cfg, Room(cfg, st, size)) && InOrder(Room(cfg, st, size))
  {
    var st1 := if st.open.None? then Create(st) else st;
    assert IndexIs(cfg, st1) && InOrder(st1);
    if Overflow(st1.open.value, size) {
      SealNames(cfg, st1);
      assert IndexIs(cfg, Create(Seal(cfg, st1)));
    }
  }

  lemma TurnNames(cfg: Config, st: State, recent: Recent, c: Chunk, choice: Choice)
    requires MayFilter(cfg, st, recent, c, choice) && IndexIs(cfg, st) && InOrder(st)
    ensures var f := FilterChunk(cfg, st, recent, c, choice); IndexIs(cfg, f.state) && InOrder(f.state)
  {
    var c1 := Resolve(recent, c);
    var written := Written(c1, choice, InCache(cfg, st, c));
    DecidedNames(cfg, st, recent, c1, written);
    NotedNames(cfg, Decided(cfg, st, recent, c1, written));
  }

  lemma DecidedNames(cfg: Config, st: State, recent: Recent, c: Chunk, written: bool)
    requires IndexIs(cfg, st) && InOrder(st)
    ensures var st' := Decided(cfg, st, recent, c, written).state; IndexIs(cfg, st') && InOrder(st')
  {
    RoomNames(cfg, st, c.size);
    AddNames(cfg, Room(cfg, st, c.size), c);
  }

  lemma AddNames(cfg: Config, st: State, c: Chunk)
    requires st.open.Some? && IndexIs(cfg, st) && InOrder(st)
    ensures IndexIs(cfg, AddChunk(st, c)) && InOrder(AddChunk(st, c))
  {}

  lemma NotedNames(cfg: Config, f: Filtered)
    requires IndexIs(cfg, f.state) && InOrder(f.state)
    ensures var st' := Noted(cfg, f.state, f.chunk.id); IndexIs(cfg, st') && InOrder(st')
  {}

  lemma {:induction false} FilterNames(cfg: Config, st: State, recent: Recent, s: seq<Chunk>, choices: seq<Choice>)
    requires |choices| == |s| && FilterAll(cfg, st, recent, s, choices).Some? && IndexIs(cfg, st) && InOrder(st)
    ensures IndexIs(cfg, FilterAll(cfg, st, recent, s, choices).value.0)
    decreases |s|
  {
    if s != [] {
      TurnNames(cfg, st, recent, s[0], choices[0]);
      var f := FilterChunk(cfg, st, recent, s[0], choices[0]);
      FilterNames(cfg, f.state, f.recent, s[1..], choices[1..]);
    }
  }

  lemma SegmentNames(cfg: Config, st: State, choices: seq<Choice>)
    requires st.flight != [] && |choices| == |st.flight[0]| && FilterSegment(cfg, st, choices).Some?
    requires IndexIs(cfg, st) && InOrder(st)
    ensures IndexIs(cfg, FilterSegment(cfg, st, choices).value)
  {
    var checked := Checked(cfg, st).value;
    FilterNames(cfg, st, Recent(map[], map[]), checked, choices);
    var (st1, out) := FilterAll(cfg, st, Recent(map[], map[]), checked, choices).value;
    SegmentParts(cfg, st, choices, checked, st1, out);
  }

  lemma DeleteNames(cfg: Config, st: State, upTo: int)
    requires IndexIs(cfg, st) && CleanDelete(cfg, st, upTo) && Delete(cfg, st, upTo).Some?
    ensures IndexIs(cfg, Delete(cfg, st, upTo).value)
  {
    var st', gone := Delete(cfg, st, upTo).value, Reclaimed(st.manifest, upTo);
    CleanIndex(cfg, st.kv, st.sealed, gone);
    forall k ensures NamesLast(cfg, st'.history, st'.sealed, st'.kv, k) {
      assert NamesLast(cfg, st.history, st.sealed, st.kv, k);
    }
  }

  lemma EndNames(cfg: Config, st: State)
    requires IndexIs(cfg, st) && InOrder(st)
    ensures IndexIs(cfg, End(cfg, st))
  {
    if st.open.Some? { SealNames(cfg, st); }
  }

  lemma NamesStep(cfg: Config, st: State, e: Event)
    requires Good(cfg, st) && IndexIs(cfg, st) && Enabled(cfg, st, e) && Step(cfg, st, e).Some?
    requires e.DeleteBackup? ==> CleanDelete(cfg, st, e.upTo)
    ensures IndexIs(cfg, Step(cfg, st, e).value)
  {
    assert InOrder(st);
    match e
    case DedupStep(s) => DedupLeaves(cfg, st.(flight := st.flight + [[]]), s);
    case FilterStep(choices) => SegmentNames(cfg, st, choices);
    case EndBackup => EndNames(cfg, st);
    case DeleteBackup(upTo) => DeleteNames(cfg, st, upTo);
    case _ =>
  }

  /** In every run with clean deletions the index names for each key the last container sealed with it, as long as that
      one is live, and nothing otherwise. */
  lemma {:induction false} IndexNamesLast(cfg: Config, events: seq<Event>)
    requires CleanRun(cfg, events) && Run(cfg, events).At?
    ensures IndexIs(cfg, Run(cfg, events).state)
  {
    if events != [] {
      var n := |events| - 1;
      CleanPrefix(cfg, events, n);
      IndexNamesLast(cfg, events[..n]);
      EveryRun(cfg, events[..n]);
      assert CleanAt(cfg, events, n);
      NamesStep(cfg, Run(cfg, events[..n]).state, events[n]);
    }
  }

  /** Deduplication, exact or not, over whole runs: a new chunk is found to be a duplicate if and only if it is in the
      open container, in a chunk still in flight, in a cached container, or in the last container that was sealed with
      its key among the features. */
  lemma DuplicateExactlyWhen(cfg: Config, events: seq<Event>, c: Chunk)
    requires CleanRun(cfg, events) && Run(cfg, events).At? && Untouched(c)
    ensures var st := Run(cfg, events).state;
      var last := LastWith(cfg, st.history, c.fp.hash[..cfg.keySize]);
      && CanIdentify(cfg, st, c)
      && (Identify(cfg, st, c).1.dup <==>
            || (st.open.Some? && c.fp in st.open.value.fps)
            || (exists d :: d in Flat(st.flight) && d.fp == c.fp)
            || (exists i :: 0 <= i < |st.cache| && c.fp in st.cache[i].fps)
            || (last.Some? && last.value in st.sealed && c.fp in st.sealed[last.value]))
  {
    EveryRun(cfg, events);
    IndexNamesLast(cfg, events);
    BufferMirrorsFlight(cfg, events, c.fp);
    var st := Run(cfg, events).state;
    assert NamesLast(cfg, st.history, st.sealed, st.kv, c.fp.hash[..cfg.keySize]);
    IdentifySound(cfg, st, c);
    Decisions.LookupFinds(cfg, st, c);
    OfElements(c.fp, Flat(st.flight));
    InFlight(c.fp, Flat(st.flight));
  }

  lemma {:induction false} InFlight(fp: ChunkFp, s: seq<Chunk>)
    ensures Of(fp, s) != [] <==> exists d :: d in s && d.fp == fp
  {
    if s != [] {
      InFlight(fp, s[1..]);
      assert s == [s[0]] + s[1..];
    }
  }
}
