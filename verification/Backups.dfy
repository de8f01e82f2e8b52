/** All runs: backups with dedup, rewriting and filter interleaved, and deletions between them. */
module Backups {
  import opened Common
  import opened DedupSpec
  import opened DedupSafety
  import opened FilterSafety

  function RecipeFps(r: seq<Pointer>): seq<ChunkFp> {
    seq(|r|, i requires 0 <= i < |r| => r[i].fp)
  }

  predicate Refers(r: seq<Pointer>, id: ContainerId) {
    id in PointerIds(r)
  }

  /** job is the last backup that refers to the container. */
  ghost predicate LastReference(recipes: map<int, seq<Pointer>>, id: ContainerId, job: int) {
    job in recipes && Refers(recipes[job], id) && forall j :: j in recipes && Refers(recipes[j], id) ==> j <= job
  }

  ghost predicate RecipeHeld(st: State, r: seq<Pointer>) {
    forall p :: p in r ==> Holds(st, p.id, p.fp)
  }

  predicate IdsBelow(r: seq<Pointer>, next: ContainerId) {
    forall i :: 0 <= i < |r| ==> 0 <= r[i].id < next
  }

  ghost predicate BackupOk(st: State) {
    && LiveOk(st)
    && RecipeHeld(st, st.recipe)
    && st.monitor == PointerIds(st.recipe)
    && st.stream == RecipeFps(st.recipe) + Fps(Flat(st.flight))
  }

  ghost predicate IdleOk(st: State) {
    st.flight == [] && st.open.None? && st.cache == [] && st.sealed.Keys == st.manifest.Keys
  }

  /** The manifest and the recipes of finished backups: each lists what was fed to dedup, in order. */
  ghost predicate HistoryOk(st: State) {
    && st.recipes.Keys == st.streams.Keys
    && (forall j :: j in st.recipes ==> RecipeFps(st.recipes[j]) == st.streams[j] && IdsBelow(st.recipes[j], st.next))
    && st.manifest.Keys <= st.sealed.Keys
    && (forall id :: id in st.manifest ==> LastReference(st.recipes, id, st.manifest[id]))
    && (forall j :: j in st.recipes ==> j < st.job)
    && (forall j :: j in st.recipes && j > st.deletedUpTo ==> RecipeHeld(st, st.recipes[j]))
  }

  ghost predicate Good(cfg: Config, st: State) {
    && StoreOk(cfg, st) && FlightOk(cfg, st) && HistoryOk(st)
    && (if st.running then BackupOk(st) else IdleOk(st))
  }

  lemma InitiallyGood(cfg: Config)
    ensures Good(cfg, Initial())
  {
    var st := Initial();
    forall fp ensures QueueOk(cfg, st, fp, Of(fp, Flat(st.flight))) && MarkOk(cfg, st, fp, Of(fp, Flat(st.flight))) {}
    forall id, fp ensures !Holds(st, id, fp) {}
  }

  lemma BeginKeeps(cfg: Config, st: State, inherited: set<ContainerId>)
    requires Good(cfg, st) && Enabled(cfg, st, BeginBackup(inherited))
    ensures Good(cfg, Begin(st, inherited))
  {
    var st' := Begin(st, inherited);
    assert Flat(st.flight) == [];
    EmptyFlight(cfg, st, st');
    forall id | id in inherited ensures 0 <= id < st.next {
      InheritedBelow(st, id);
    }
    forall id, fp ensures Holds(st', id, fp) == Holds(st, id, fp) {}
    assert Belonging(cfg, st') == Belonging(cfg, st);
  }

  lemma InheritedBelow(st: State, id: ContainerId)
    requires HistoryOk(st) && st.job - 1 in st.recipes && id in PointerIds(st.recipes[st.job - 1])
    ensures 0 <= id < st.next
  {
    var p :| p in st.recipes[st.job - 1] && p.id == id;
  }

  lemma EmptyFlight(cfg: Config, st: State, st': State)
    requires FlightOk(cfg, st) && Flat(st.flight) == [] && Flat(st'.flight) == []
    requires st'.buffered == st.buffered && st'.chunkNum == st.chunkNum
    ensures FlightOk(cfg, st')
  {
    forall fp ensures fp !in st.buffered {
      assert QueueOk(cfg, st, fp, Of(fp, Flat(st.flight)));
    }
  }

  lemma HistoryFrame(st: State, st': State)
    requires HistoryOk(st) && st'.manifest == st.manifest && st'.recipes == st.recipes && st'.job == st.job
    requires st'.deletedUpTo == st.deletedUpTo && st.sealed.Keys <= st'.sealed.Keys
    requires st'.streams == st.streams && st.next <= st'.next
    requires forall id, fp :: Holds(st, id, fp) ==> Holds(st', id, fp)
    ensures HistoryOk(st')
  {}

  lemma DedupKeeps(cfg: Config, st: State, s: seq<Chunk>)
    requires Good(cfg, st) && st.running && forall c :: c in s ==> Untouched(c)
    ensures var r := DedupSegment(cfg, st, s); r.Some? && Good(cfg, r.value) && r.value.running
  {
    DedupSegmentKeeps(cfg, st, s);
    var st' := DedupSegment(cfg, st, s).value;
    forall id, fp ensures Holds(st', id, fp) == Holds(st, id, fp) {}
    HistoryFrame(st, st');
  }

  lemma FilterKeeps(cfg: Config, st: State, choices: seq<Choice>)
    requires Good(cfg, st) && st.running && st.flight != [] && |choices| == |st.flight[0]|
    ensures var r := FilterSegment(cfg, st, choices); r.Some? && Good(cfg, r.value) && r.value.running
  {
    FilterSegmentKeeps(cfg, st, choices);
    FilteredGood(cfg, st, FilterSegment(cfg, st, choices).value);
  }

  lemma FilteredGood(cfg: Config, st: State, st': State)
    requires Good(cfg, st) && st.running && st.flight != []
    requires StoreOk(cfg, st') && FlightOk(cfg, st') && LiveOk(st')
    requires st' == st.(buffered := st'.buffered, chunkNum := st'.chunkNum, flight := st.flight[1..], open := st'.open,
                        sealed := st'.sealed, next := st'.next, kv := st'.kv, recipe := st'.recipe, monitor := st'.monitor,
                        aware := st'.aware, history := st'.history)
    requires (forall id, fp :: Holds(st, id, fp) ==> Holds(st', id, fp))
      && st.sealed.Keys <= st'.sealed.Keys && st.next <= st'.next && st.recipe <= st'.recipe
    requires var entries := st'.recipe[|st.recipe|..];
      Recorded(st', entries, st.flight[0]) && st'.monitor == st.monitor + PointerIds(entries)
    ensures Good(cfg, st')
  {
    HistoryFrame(st, st');
    RecipeGrows(st, st', st'.recipe[|st.recipe|..]);
  }

  lemma RecipeGrows(st: State, st': State, entries: seq<Pointer>)
    requires BackupOk(st) && LiveOk(st') && st.flight != []
    requires st'.recipe == st.recipe + entries && Recorded(st', entries, st.flight[0])
    requires st'.flight == st.flight[1..] && st'.stream == st.stream && st'.monitor == st.monitor + PointerIds(entries)
    requires forall id, fp :: Holds(st, id, fp) ==> Holds(st', id, fp)
    ensures BackupOk(st')
  {
    assert RecipeFps(st'.recipe) == RecipeFps(st.recipe) + RecipeFps(entries);
    assert RecipeFps(entries) == Fps(st.flight[0]);
    assert Fps(Flat(st.flight)) == Fps(st.flight[0]) + Fps(Flat(st.flight[1..]));
    assert PointerIds(st'.recipe) == PointerIds(st.recipe) + PointerIds(entries);
  }

  // ---- rewriting marks chunks in flight

  lemma {:induction false} OfMarked(fp: ChunkFp, a: seq<Chunk>, b: seq<Chunk>)
    requires SameButMarks(a, b)
    ensures SameButMarks(Of(fp, a), Of(fp, b))
  {
    if a != [] { OfMarked(fp, a[1..], b[1..]); }
  }

  lemma {:induction false} FlatMarked(a: seq<seq<Chunk>>, b: seq<seq<Chunk>>)
    requires |a| == |b| && forall k :: 0 <= k < |a| ==> SameButMarks(a[k], b[k])
    ensures SameButMarks(Flat(a), Flat(b))
  {
    if a != [] { FlatMarked(a[1..], b[1..]); }
  }

  lemma FlagKeeps(cfg: Config, st: State, flight: seq<seq<Chunk>>)
    requires Good(cfg, st) && Enabled(cfg, st, Flag(flight))
    ensures Good(cfg, st.(flight := flight))
  {
    var st' := st.(flight := flight);
    FlatMarked(flight, st.flight);
    FlagQueues(cfg, st, st');
    forall c | c in Flat(flight) ensures KnownId(st', c.id, c.fp) && !c.sparse {
      var i :| 0 <= i < |Flat(flight)| && Flat(flight)[i] == c;
      assert Flat(st.flight)[i] in Flat(st.flight);
    }
    assert Fps(Flat(flight)) == Fps(Flat(st.flight));
  }

  lemma FlagQueues(cfg: Config, st: State, st': State)
    requires FlightOk(cfg, st) && st' == st.(flight := st'.flight) && SameButMarks(Flat(st'.flight), Flat(st.flight))
    ensures forall fp :: QueueOk(cfg, st', fp, Of(fp, Flat(st'.flight))) && MarkOk(cfg, st', fp, Of(fp, Flat(st'.flight)))
  {
    forall id, fp ensures Holds(st', id, fp) == Holds(st, id, fp) {}
    forall fp ensures QueueOk(cfg, st', fp, Of(fp, Flat(st'.flight))) && MarkOk(cfg, st', fp, Of(fp, Flat(st'.flight))) {
      assert QueueOk(cfg, st, fp, Of(fp, Flat(st.flight))) && MarkOk(cfg, st, fp, Of(fp, Flat(st.flight)));
      OfMarked(fp, Flat(st'.flight), Flat(st.flight));
      if Stored(st', fp) { var id :| Holds(st', id, fp); assert Holds(st, id, fp); }
    }
  }

  // ---- the end of a backup

  lemma OpenNotEmpty(cfg: Config, st: State)
    requires Good(cfg, st) && st.running && st.open.Some?
    ensures st.open.value.chunkNum != 0
  {
    var p :| p in st.recipe && p.id == st.open.value.id;
    assert Holds(st, p.id, p.fp);
  }

  lemma CloseKeeps(cfg: Config, st: State)
    requires StoreOk(cfg, st) && (st.open.Some? ==> st.open.value.chunkNum != 0)
    ensures var st1 := Closed(cfg, st);
      && StoreOk(cfg, st1) && (forall id, fp :: Holds(st1, id, fp) == Holds(st, id, fp))
      && st1 == st.(sealed := st1.sealed, open := None, kv := st1.kv, history := st1.history)
      && st.sealed.Keys <= st1.sealed.Keys <= st.sealed.Keys + (if st.open.Some? then {st.open.value.id} else {})
  {
    if st.open.Some? { SealKeeps(cfg, st); }
    forall id, fp ensures Holds(Closed(cfg, st), id, fp) == Holds(st, id, fp) {}
    assert st.open.None? ==> Closed(cfg, st) == st;
  }

  lemma EndKeeps(cfg: Config, st: State)
    requires Good(cfg, st) && st.running && st.flight == []
    ensures var st' := End(cfg, st); Good(cfg, st') && RecipeFps(st'.recipes[st.job]) == st.stream == st'.streams[st.job]
  {
    if st.open.Some? { OpenNotEmpty(cfg, st); }
    CloseKeeps(cfg, st);
    var st', st1 := End(cfg, st), Closed(cfg, st);
    EndStores(cfg, st1, st');
    assert Flat(st.flight) == [];
    EmptyFlight(cfg, st, st');
    RecipeFinished(st);
    RecipesAtEnd(st, st');
    ManifestAtEnd(st, st1, st');
  }

  lemma EndStores(cfg: Config, st: State, st': State)
    requires StoreOk(cfg, st)
    requires st' == st.(manifest := st'.manifest, running := false, cache := [], recipes := st'.recipes,
                        streams := st'.streams, job := st'.job)
    ensures StoreOk(cfg, st') && forall id, fp :: Holds(st', id, fp) == Holds(st, id, fp)
  {
    StoresFrame(cfg, st, st');
  }

  lemma ManifestAtEnd(st: State, st1: State, st': State)
    requires HistoryOk(st) && BackupOk(st)
    requires forall id, fp :: Holds(st', id, fp) == Holds(st, id, fp)
    requires st1.manifest == st.manifest && st1.monitor == st.monitor && st1.job == st.job
    requires st.sealed.Keys <= st1.sealed.Keys <= st.sealed.Keys + (if st.open.Some? then {st.open.value.id} else {})
    requires st'.manifest == st1.manifest + (map id | id in st1.monitor :: st1.job)
    requires st'.sealed == st1.sealed && st'.open.None? && st'.recipes == st.recipes[st.job := st.recipe]
    ensures forall id :: id in st'.manifest ==> LastReference(st'.recipes, id, st'.manifest[id])
    ensures st'.sealed.Keys == st'.manifest.Keys
  {
    forall id | id in st.monitor ensures id in st'.sealed {
      MonitorLives(st, st', id);
    }
    forall id | id in st'.manifest ensures LastReference(st'.recipes, id, st'.manifest[id]) {
      NewReference(st, id);
    }
    LiveAtEnd(st, st1);
  }

  lemma RecipesAtEnd(st: State, st': State)
    requires HistoryOk(st) && BackupOk(st)
    requires forall id, fp :: Holds(st', id, fp) == Holds(st, id, fp)
    requires RecipeFps(st.recipe) == st.stream && IdsBelow(st.recipe, st.next)
    requires st'.recipes == st.recipes[st.job := st.recipe] && st'.streams == st.streams[st.job := st.stream]
    requires st'.job == st.job + 1 && st'.next == st.next && st'.deletedUpTo == st.deletedUpTo
    ensures st'.recipes.Keys == st'.streams.Keys
    ensures forall j :: j in st'.recipes ==>
      RecipeFps(st'.recipes[j]) == st'.streams[j] && IdsBelow(st'.recipes[j], st'.next) && j < st'.job
    ensures forall j :: j in st'.recipes && j > st'.deletedUpTo ==> RecipeHeld(st', st'.recipes[j])
  {
    assert RecipeHeld(st', st.recipe);
    forall j | j in st.recipes && j > st.deletedUpTo ensures RecipeHeld(st', st.recipes[j]) {
      assert RecipeHeld(st, st.recipes[j]);
    }
  }

  lemma MonitorLives(st: State, st': State, id: ContainerId)
    requires BackupOk(st) && id in st.monitor && st'.open.None?
    requires forall id, fp :: Holds(st', id, fp) == Holds(st, id, fp)
    ensures id in st'.sealed
  {
    var p :| p in st.recipe && p.id == id;
    assert Holds(st, p.id, p.fp);
    assert Holds(st', p.id, p.fp);
  }

  /** The recipe that a backup leaves. */
  lemma RecipeFinished(st: State)
    requires BackupOk(st) && ContainersOk(st) && st.flight == []
    ensures RecipeFps(st.recipe) == st.stream && IdsBelow(st.recipe, st.next)
  {
    assert Flat(st.flight) == [] && RecipeFps(st.recipe) + [] == RecipeFps(st.recipe);
    forall i | 0 <= i < |st.recipe| ensures 0 <= st.recipe[i].id < st.next {
      assert Holds(st, st.recipe[i].id, st.recipe[i].fp);
    }
  }

  lemma NewReference(st: State, id: ContainerId)
    requires HistoryOk(st) && st.monitor == PointerIds(st.recipe) && (id in st.manifest || id in st.monitor)
    ensures LastReference(st.recipes[st.job := st.recipe], id, if id in st.monitor then st.job else st.manifest[id])
  {
    if id !in st.monitor {
      assert LastReference(st.recipes, id, st.manifest[id]);
    }
  }

  lemma LiveAtEnd(st: State, st1: State)
    requires LiveOk(st) && st1.manifest == st.manifest && st1.monitor == st.monitor
    requires st1.sealed.Keys <= st.sealed.Keys + (if st.open.Some? then {st.open.value.id} else {})
    ensures st1.sealed.Keys <= st.manifest.Keys + st.monitor
  {
    forall id | id in st1.sealed.Keys ensures id in st.manifest.Keys + st.monitor {
      assert id in st.sealed || id == st.open.value.id;
    }
  }

  // ---- deletion

  /** trunc_manifest(job) reclaims exactly the containers whose last reference is no later than job. */
  lemma ReclaimsExactly(cfg: Config, st: State, job: int, id: ContainerId)
    requires Good(cfg, st) && !st.running
    ensures id in Reclaimed(st.manifest, job)
       <==> id in st.sealed && forall j :: j in st.recipes && Refers(st.recipes[j], id) ==> j <= job
  {
    if id in st.manifest {
      assert LastReference(st.recipes, id, st.manifest[id]);
    }
  }

  /** Deletion leaves no entry that names a reclaimed container exactly when every such entry's key
      belongs to a chunk of that container. */
  lemma CleanIndex(cfg: Config, kv: map<Key, ContainerId>, sealed: map<ContainerId, set<ChunkFp>>, gone: set<ContainerId>)
    requires gone <= sealed.Keys
    ensures var kv' := StoreWithout(cfg, kv, sealed, gone);
      && (forall k :: k in kv' ==> k in kv && kv'[k] == kv[k])
      && (forall k :: k in kv && kv[k] !in gone ==> k in kv')
      && ((forall k :: k in kv' ==> kv'[k] !in gone) <==> (forall k :: k in kv && kv[k] in gone ==> k in KeysOf(cfg, sealed[kv[k]])))
  {
    var kv' := StoreWithout(cfg, kv, sealed, gone);
    if forall k :: k in kv' ==> kv'[k] !in gone {
      forall k | k in kv && kv[k] in gone ensures k in KeysOf(cfg, sealed[kv[k]]) {
        assert k !in KeysOf(cfg, sealed[kv[k]]) ==> k in kv';
      }
    }
  }

  /** No entry that names a container to be reclaimed would stay behind. */
  ghost predicate CleanDelete(cfg: Config, st: State, job: int) {
    forall k :: k in st.kv && st.kv[k] in Reclaimed(st.manifest, job) ==>
      st.kv[k] in st.sealed && k in KeysOf(cfg, st.sealed[st.kv[k]])
  }

  lemma BelongingIsClean(cfg: Config, st: State, job: int)
    requires StoreOk(cfg, st) && Belonging(cfg, st)
    ensures CleanDelete(cfg, st, job)
  {}

  lemma DeleteStores(cfg: Config, st: State, st': State, gone: set<ContainerId>)
    requires StoreOk(cfg, st) && st.open.None? && st.cache == [] && gone <= st.sealed.Keys
    requires forall k :: k in st.kv && st.kv[k] in gone ==> k in KeysOf(cfg, st.sealed[st.kv[k]])
    requires st' == st.(manifest := st'.manifest, kv := StoreWithout(cfg, st.kv, st.sealed, gone),
                        sealed := st.sealed - gone, deletedUpTo := st'.deletedUpTo)
    ensures StoreOk(cfg, st')
  {
    CleanIndex(cfg, st.kv, st.sealed, gone);
    forall id, fp ensures Holds(st', id, fp) <==> Holds(st, id, fp) && id !in gone {}
    assert Belonging(cfg, st') == Belonging(cfg, st);
    if Exact(cfg) {
      forall id, fp | id in st'.sealed && fp in st'.sealed[id] ensures KeyOf(cfg, fp) in st'.kv {
        ExactKeyHolds(cfg, st, fp);
        assert Holds(st, id, fp) && Holds(st, st.kv[KeyOf(cfg, fp)], fp);
      }
    }
  }

  /** A deletion in a reachable state never fails, and it keeps the invariant if and only if it leaves no entry
      behind that names a reclaimed container. */
  lemma DeleteKeeps(cfg: Config, st: State, job: int)
    requires Good(cfg, st) && !st.running
    ensures var r := Delete(cfg, st, job); r.Some? && (Good(cfg, r.value) <==> CleanDelete(cfg, st, job))
    ensures CleanDelete(cfg, st, job) <==>
      forall k :: k in Delete(cfg, st, job).value.kv ==> Delete(cfg, st, job).value.kv[k] in Delete(cfg, st, job).value.sealed
  {
    var gone := Reclaimed(st.manifest, job);
    CleanIndex(cfg, st.kv, st.sealed, gone);
    var st' := Delete(cfg, st, job).value;
    assert st'.sealed.Keys == st.sealed.Keys - gone;
    if CleanDelete(cfg, st, job) {
      DeleteStores(cfg, st, st', gone);
      DeleteHistory(cfg, st, job);
      assert Flat(st.flight) == [];
      EmptyFlight(cfg, st, st');
    }
  }

  /** No recipe that is still to be restored loses a chunk. */
  lemma DeleteHistory(cfg: Config, st: State, job: int)
    requires Good(cfg, st) && !st.running
    ensures var r := Delete(cfg, st, job);
      r.Some? && HistoryOk(r.value) && r.value.sealed.Keys == r.value.manifest.Keys
  {
    var st' := Delete(cfg, st, job).value;
    forall j | j in st'.recipes && j > st'.deletedUpTo ensures RecipeHeld(st', st'.recipes[j]) {
      forall p | p in st.recipes[j] ensures Holds(st', p.id, p.fp) {
        assert RecipeHeld(st, st.recipes[j]);
        assert Refers(st.recipes[j], p.id);
        assert LastReference(st.recipes, p.id, st.manifest[p.id]);
      }
    }
  }

  // ---- every run

  lemma StepKeeps(cfg: Config, st: State, e: Event)
    requires Good(cfg, st) && Enabled(cfg, st, e) && (e.DeleteBackup? ==> CleanDelete(cfg, st, e.upTo))
    ensures var r := Step(cfg, st, e); r.Some? && Good(cfg, r.value)
  {
    match e
    case BeginBackup(inherited) => BeginKeeps(cfg, st, inherited);
    case DedupStep(s) => DedupKeeps(cfg, st, s);
    case Flag(flight) => FlagKeeps(cfg, st, flight);
    case FilterStep(choices) => FilterKeeps(cfg, st, choices);
    case EndBackup => EndKeeps(cfg, st);
    case DeleteBackup(j) => DeleteKeeps(cfg, st, j);
  }

  ghost predicate CleanEvent(cfg: Config, before: Outcome, e: Event) {
    e.DeleteBackup? && before.At? ==> CleanDelete(cfg, before.state, e.upTo)
  }

  ghost predicate CleanAt(cfg: Config, events: seq<Event>, n: nat)
    requires n < |events|
  {
    CleanEvent(cfg, Run(cfg, events[..n]), events[n])
  }

  /** Every deletion of the run leaves a clean index; a run without deletions is one. */
  ghost predicate CleanRun(cfg: Config, events: seq<Event>) {
    forall n :: 0 <= n < |events| ==> CleanAt(cfg, events, n)
  }

  lemma CleanShared(cfg: Config, events: seq<Event>, before: seq<Event>, m: nat)
    requires m < |before| <= |events| && before == events[..|before|]
    ensures CleanAt(cfg, before, m) == CleanAt(cfg, events, m)
  {
    assert before[..m] == events[..m];
  }

  lemma CleanPrefix(cfg: Config, events: seq<Event>, n: nat)
    requires CleanRun(cfg, events) && n <= |events|
    ensures CleanRun(cfg, events[..n])
  {
    forall m | 0 <= m < n ensures CleanAt(cfg, events[..n], m) { CleanShared(cfg, events, events[..n], m); }
  }

  lemma CleanSnoc(cfg: Config, events: seq<Event>, n: nat)
    requires |events| == n + 1 && CleanRun(cfg, events[..n]) && CleanAt(cfg, events, n)
    ensures CleanRun(cfg, events)
  {
    forall m | 0 <= m < n ensures CleanAt(cfg, events, m) { CleanShared(cfg, events, events[..n], m); }
  }

  /** In every run with clean deletions no assert fires and nothing is missing. */
  lemma {:induction false} EveryRun(cfg: Config, events: seq<Event>)
    requires CleanRun(cfg, events)
    ensures Run(cfg, events) != Failed
    ensures Run(cfg, events).At? ==> Good(cfg, Run(cfg, events).state)
  {
    if events == [] {
      InitiallyGood(cfg);
    } else {
      var n := |events| - 1;
      CleanPrefix(cfg, events, n);
      EveryRun(cfg, events[..n]);
      var before := Run(cfg, events[..n]);
      if before.At? && Enabled(cfg, before.state, events[n]) {
        assert CleanAt(cfg, events, n);
        StepKeeps(cfg, before.state, events[n]);
      }
    }
  }

  // ---- the history of sealed containers only grows

  lemma {:induction false} DedupHistory(cfg: Config, st: State, s: seq<Chunk>)
    requires st.flight != [] && DedupAll(cfg, st, s).Some?
    ensures DedupAll(cfg, st, s).value.history == st.history
    decreases |s|
  {
    if s != [] { DedupHistory(cfg, DedupChunk(cfg, st, s[0]), s[1..]); }
  }

  lemma RoomHistory(cfg: Config, st: State, size: nat)
    ensures st.history <= Room(cfg, st, size).history
  {
    var st1 := if st.open.None? then Create(st) else st;
    assert st1.history == st.history;
    if Overflow(st1.open.value, size) {
      assert st1.history <= Seal(cfg, st1).history == Create(Seal(cfg, st1)).history;
    }
  }

  lemma {:induction false} FilterHistory(cfg: Config, st: State, recent: Recent, s: seq<Chunk>, choices: seq<Choice>)
    requires |choices| == |s| && FilterAll(cfg, st, recent, s, choices).Some?
    ensures st.history <= FilterAll(cfg, st, recent, s, choices).value.0.history
    decreases |s|
  {
    if s != [] {
      RoomHistory(cfg, st, s[0].size);
      var f := FilterChunk(cfg, st, recent, s[0], choices[0]);
      FilterHistory(cfg, f.state, f.recent, s[1..], choices[1..]);
      assert st.history <= f.state.history;
    }
  }

  lemma StepHistory(cfg: Config, st: State, e: Event)
    requires Enabled(cfg, st, e) && Step(cfg, st, e).Some?
    ensures st.history <= Step(cfg, st, e).value.history
  {
    match e
    case DedupStep(s) => DedupHistory(cfg, st.(flight := st.flight + [[]]), s);
    case FilterStep(choices) =>
      var checked := CheckBuffer(st.buffered, HarMarkedAll(cfg, st.inherited, st.flight[0]));
      FilterHistory(cfg, st, Recent(map[], map[]), checked.value, choices);
    case _ =>
  }

  lemma BelongedBefore(cfg: Config, st: State, st': State)
    requires st.history <= st'.history && Belonging(cfg, st')
    ensures Belonging(cfg, st)
  {
    assert forall x :: x in st.history ==> x in st'.history;
  }

  /** When the features of every container that the run sealed belong to it, every deletion is clean. */
  lemma {:induction false} BelongingRun(cfg: Config, events: seq<Event>)
    requires Run(cfg, events).At? && Belonging(cfg, Run(cfg, events).state)
    ensures CleanRun(cfg, events)
  {
    if events != [] {
      var n := |events| - 1;
      var st := Run(cfg, events[..n]).state;
      StepHistory(cfg, st, events[n]);
      BelongedBefore(cfg, st, Run(cfg, events).state);
      BelongingRun(cfg, events[..n]);
      EveryRun(cfg, events[..n]);
      if events[n].DeleteBackup? { BelongingIsClean(cfg, st, events[n].upTo); }
      CleanSnoc(cfg, events, n);
    }
  }

  /** The sampling method never takes a feature that is not a chunk's key. */
  ghost predicate AlwaysBelongs(cfg: Config) {
    forall id, listed :: listed != [] ==> cfg.sample(id, listed) <= KeysOf(cfg, Elements(listed))
  }

  lemma AlwaysCleanDelete(cfg: Config, st: State, upTo: int)
    requires AlwaysBelongs(cfg) && StoreOk(cfg, st)
    ensures CleanDelete(cfg, st, upTo)
  {
    forall x | x in st.history ensures cfg.sample(x.id, x.listed) <= KeysOf(cfg, Elements(x.listed)) {
      var i :| 0 <= i < |st.history| && st.history[i] == x;
      assert x.listed != [];
    }
    BelongingIsClean(cfg, st, upTo);
  }

  lemma CleanStep(cfg: Config, before: Outcome, e: Event)
    requires AlwaysBelongs(cfg) && (before.At? ==> Good(cfg, before.state))
    ensures CleanEvent(cfg, before, e)
  {
    if e.DeleteBackup? && before.At? { AlwaysCleanDelete(cfg, before.state, e.upTo); }
  }

  lemma {:induction false} AlwaysClean(cfg: Config, events: seq<Event>)
    requires AlwaysBelongs(cfg)
    ensures CleanRun(cfg, events)
  {
    if events != [] {
      var n := |events| - 1;
      AlwaysClean(cfg, events[..n]);
      EveryRun(cfg, events[..n]);
      CleanStep(cfg, Run(cfg, events[..n]), events[n]);
      CleanSnoc(cfg, events, n);
    }
  }

  // ---- what holds in every run

  /** Exact deduplication: with the exact index and rewriting off, no fingerprint is ever stored twice
      across the live containers of all backups, the open one included. */
  lemma ExactDeduplication(cfg: Config, events: seq<Event>, i: ContainerId, j: ContainerId, fp: ChunkFp)
    requires Exact(cfg) && Run(cfg, events).At?
    requires var st := Run(cfg, events).state; Holds(st, i, fp) && Holds(st, j, fp)
    ensures i == j
  {
    AlwaysClean(cfg, events);
    EveryRun(cfg, events);
  }

  /** FIFO deletion: the index names live containers only, and every recipe entry of the running backup
      and of every backup newer than the last deleted one names a container that holds its chunk. */
  lemma NothingDangles(cfg: Config, events: seq<Event>)
    requires CleanRun(cfg, events) && Run(cfg, events).At?
    ensures var st := Run(cfg, events).state;
      && (forall k :: k in st.kv ==> st.kv[k] in st.sealed)
      && (st.running ==> RecipeHeld(st, st.recipe))
      && (forall j :: j in st.recipes && j > st.deletedUpTo ==> RecipeHeld(st, st.recipes[j]))
  {
    EveryRun(cfg, events);
  }

  /** The first deletion that is not clean leaves an entry that names a reclaimed container, and only such a
      deletion does. */
  lemma DanglesExactlyWhen(cfg: Config, events: seq<Event>, upTo: int)
    requires CleanRun(cfg, events) && Run(cfg, events).At? && Enabled(cfg, Run(cfg, events).state, DeleteBackup(upTo))
    ensures var o := Run(cfg, events + [DeleteBackup(upTo)]);
      o.At? && ((exists k :: k in o.state.kv && o.state.kv[k] !in o.state.sealed)
                <==> !CleanDelete(cfg, Run(cfg, events).state, upTo))
  {
    EveryRun(cfg, events);
    DeleteKeeps(cfg, Run(cfg, events).state, upTo);
    assert (events + [DeleteBackup(upTo)])[..|events|] == events;
  }

  /** In every run the manifest time of a container is the last backup that refers to it, so a deletion
      reclaims exactly the containers with no later reference. */
  lemma ManifestIsLastReference(cfg: Config, events: seq<Event>, job: int, id: ContainerId)
    requires CleanRun(cfg, events) && Run(cfg, events).At? && !Run(cfg, events).state.running
    ensures var st := Run(cfg, events).state;
      && (id in st.manifest ==> LastReference(st.recipes, id, st.manifest[id]))
      && (id in Reclaimed(st.manifest, job) <==>
            (id in st.sealed && forall j :: j in st.recipes && Refers(st.recipes[j], id) ==> j <= job))
  {
    EveryRun(cfg, events);
    ReclaimsExactly(cfg, Run(cfg, events).state, job, id);
  }

  /** While chunks are in flight: one queue element per chunk, and every id known so far is right. */
  ghost predicate Mirrors(st: State, fp: ChunkFp) {
    var mine := Of(fp, Flat(st.flight));
    && (fp in st.buffered <==> mine != [])
    && (fp in st.buffered ==> |st.buffered[fp]| == |mine|)
    && (forall c :: c in mine && c.id != TEMPORARY_ID ==> c.dup && Holds(st, c.id, fp))
    && st.chunkNum == |Flat(st.flight)|
  }

  lemma FlightMirrored(cfg: Config, st: State, fp: ChunkFp)
    requires FlightOk(cfg, st)
    ensures Mirrors(st, fp)
  {
    var mine := Of(fp, Flat(st.flight));
    assert QueueOk(cfg, st, fp, mine);
    OfElements(fp, Flat(st.flight));
    forall c | c in mine && c.id != TEMPORARY_ID ensures c.dup && Holds(st, c.id, fp) {
      assert KnownId(st, c.id, c.fp);
      var i :| 0 <= i < |mine| && mine[i] == c;
    }
  }

  lemma BufferMirrorsFlight(cfg: Config, events: seq<Event>, fp: ChunkFp)
    requires CleanRun(cfg, events) && Run(cfg, events).At?
    ensures Mirrors(Run(cfg, events).state, fp)
  {
    EveryRun(cfg, events);
    FlightMirrored(cfg, Run(cfg, events).state, fp);
  }
}
