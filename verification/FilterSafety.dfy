/** What filtering a segment keeps: every chunk leaves with the id of a container that holds it. */
module FilterSafety {
  import opened Common
  import opened Lru
  import opened DedupSpec
  import opened DedupSafety

  // ---- how the stores may grow while a segment is filtered

  ghost predicate Grows(st: State, st': State, written: set<ChunkFp>) {
    && st' == st.(open := st'.open, sealed := st'.sealed, next := st'.next, kv := st'.kv, monitor := st'.monitor,
                  aware := st'.aware, history := st'.history)
    && (forall id, fp :: Holds(st, id, fp) ==> Holds(st', id, fp))
    && (forall fp :: InOpen(st'.open, fp) ==> InOpen(st.open, fp) || fp in written)
    && (forall id, fp :: Holds(st', id, fp) ==> Stored(st, fp) || fp in written)
    && st.sealed.Keys <= st'.sealed.Keys
    && st.next <= st'.next
  }

  /** Every live container is in the manifest, or the running backup refers to it; the simulated restore
      cache holds containers only. */
  ghost predicate LiveOk(st: State) {
    && (forall id :: id in st.sealed ==> id in st.manifest || id in st.monitor)
    && (st.open.Some? ==> st.open.value.id in st.monitor)
    && forall id :: id in st.aware ==> id >= 0
  }

  lemma GrowsTrans(a: State, b: State, c: State, v: set<ChunkFp>, w: set<ChunkFp>)
    requires Grows(a, b, v) && Grows(b, c, w)
    ensures Grows(a, c, v + w)
  {
    forall id, fp | Holds(c, id, fp) ensures Stored(a, fp) || fp in v + w {
      if fp !in w {
        var id2 :| Holds(b, id2, fp);
      }
    }
  }

  lemma SealKeeps(cfg: Config, st: State)
    requires StoreOk(cfg, st) && st.open.Some? && st.open.value.listed != []
    ensures var st' := Seal(cfg, st); StoreOk(cfg, st') && Grows(st, st', {}) && st'.monitor == st.monitor
    ensures forall id, fp :: Holds(Seal(cfg, st), id, fp) == Holds(st, id, fp)
  {
    var st', o := Seal(cfg, st), st.open.value;
    if Exact(cfg) {
      assert Elements(o.listed) == o.fps;
    }
    forall id, fp ensures Holds(st', id, fp) == Holds(st, id, fp) {}
    SealHistory(cfg, st);
    SealIndex(cfg, st);
  }

  lemma SealHistory(cfg: Config, st: State)
    requires ContainersOk(st) && st.open.Some? && st.open.value.listed != []
    ensures var st' := Seal(cfg, st); HistoryOf(st'.history, st'.sealed, st'.next)
  {
    var o := st.open.value;
    HistoryJoins(st.history, st.sealed, o.id, o.listed, o.fps, st.next);
  }

  lemma HistoryJoins(history: seq<Sealing>, sealed: map<ContainerId, set<ChunkFp>>, id: ContainerId, listed: seq<ChunkFp>,
                     fps: set<ChunkFp>, bound: ContainerId)
    requires HistoryOf(history, sealed, id) && 0 <= id < bound && id !in sealed && listed != [] && Elements(listed) == fps
    ensures HistoryOf(history + [Sealing(id, listed)], sealed[id := fps], bound)
  {
    var history', sealed', n := history + [Sealing(id, listed)], sealed[id := fps], |history|;
    forall x | x in sealed' ensures exists i :: 0 <= i < |history'| && history'[i].id == x {
      if x == id {
        assert history'[n].id == x;
      } else {
        var i :| 0 <= i < n && history[i].id == x;
        assert history'[i].id == x;
      }
    }
  }

  lemma SealIndex(cfg: Config, st: State)
    requires ContainersOk(st) && IndexOk(cfg, st) && st.open.Some?
    ensures IndexOk(cfg, Seal(cfg, st))
  {
    var st', o := Seal(cfg, st), st.open.value;
    if Belonging(cfg, st') {
      assert st'.history[|st.history|] == Sealing(o.id, o.listed);
      assert forall x :: x in st.history ==> x in st'.history;
      assert Belonging(cfg, st);
    }
  }

  lemma CreateKeeps(cfg: Config, st: State)
    requires StoreOk(cfg, st) && st.open.None?
    ensures var st' := Create(st); StoreOk(cfg, st') && Grows(st, st', {}) && st'.monitor == st.monitor
  {
    var st' := Create(st);
    forall id, fp ensures Holds(st', id, fp) == Holds(st, id, fp) {}
    assert Belonging(cfg, st') == Belonging(cfg, st);
  }

  /** A full container is sealed, and the next one is empty. */
  lemma FullKeeps(cfg: Config, st: State, size: ChunkSize)
    requires StoreOk(cfg, st) && st.open.Some? && Overflow(st.open.value, size)
    ensures var st' := Create(Seal(cfg, st));
      StoreOk(cfg, st') && Grows(st, st', {}) && !Overflow(st'.open.value, size) && st'.monitor == st.monitor
      && (LiveOk(st) ==> LiveOk(st'.(monitor := st'.monitor + {st'.open.value.id})))
      && forall fp :: !InOpen(st'.open, fp)
  {
    SealKeeps(cfg, st);
    CreateKeeps(cfg, Seal(cfg, st));
    GrowsTrans(st, Seal(cfg, st), Create(Seal(cfg, st)), {}, {});
  }

  lemma RoomKeeps(cfg: Config, st: State, size: ChunkSize)
    requires StoreOk(cfg, st)
    ensures var st' := Room(cfg, st, size);
      StoreOk(cfg, st') && Grows(st, st', {}) && !Overflow(st'.open.value, size) && st'.monitor == st.monitor
      && (LiveOk(st) ==> LiveOk(st'.(monitor := st'.monitor + {st'.open.value.id})))
      && forall fp :: InOpen(st'.open, fp) ==> InOpen(st.open, fp)
  {
    var st1 := if st.open.None? then Create(st) else st;
    if st.open.None? {
      CreateKeeps(cfg, st);
      assert !Overflow(st1.open.value, size);
    } else if Overflow(st.open.value, size) {
      FullKeeps(cfg, st, size);
    }
  }

  lemma AddHolds(st: State, c: Chunk)
    requires st.open.Some?
    ensures var st', id := AddChunk(st, c), st.open.value.id;
      && st'.open.Some? && st'.open.value.id == id
      && forall i, fp :: Holds(st', i, fp) == (Holds(st, i, fp) || (i == id && fp == c.fp))
  {
    var st', id := AddChunk(st, c), st.open.value.id;
    forall i, fp ensures Holds(st', i, fp) == (Holds(st, i, fp) || (i == id && fp == c.fp)) {}
  }

  lemma ElementsSnoc(listed: seq<ChunkFp>, fp: ChunkFp)
    ensures Elements(listed + [fp]) == Elements(listed) + {fp}
  {}

  lemma AddContainers(st: State, c: Chunk)
    requires ContainersOk(st) && st.open.Some?
    ensures ContainersOk(AddChunk(st, c))
  {
    ElementsSnoc(st.open.value.listed, c.fp);
  }

  lemma AddExact(cfg: Config, st: State, c: Chunk)
    requires ExactOk(cfg, st) && st.open.Some? && !Stored(st, c.fp)
    ensures ExactOk(cfg, AddChunk(st, c))
  {
    AddHolds(st, c);
  }

  lemma AddStores(cfg: Config, st: State, c: Chunk)
    requires StoreOk(cfg, st) && st.open.Some? && (Exact(cfg) ==> !Stored(st, c.fp))
    ensures StoreOk(cfg, AddChunk(st, c))
  {
    AddContainers(st, c);
    if Exact(cfg) { AddExact(cfg, st, c); }
    assert IndexOk(cfg, AddChunk(st, c)) by {
      assert Belonging(cfg, AddChunk(st, c)) == Belonging(cfg, st);
    }
  }

  lemma AddKeeps(cfg: Config, st: State, c: Chunk)
    requires StoreOk(cfg, st) && st.open.Some? && (Exact(cfg) ==> !Stored(st, c.fp))
    ensures var st' := AddChunk(st, c);
      StoreOk(cfg, st') && Grows(st, st', {c.fp}) && Holds(st', st.open.value.id, c.fp)
      && st'.open.Some? && st'.open.value.id == st.open.value.id && st'.monitor == st.monitor
  {
    AddStores(cfg, st, c);
    AddHolds(st, c);
  }

  // ---- the filter loop

  /** What the loop knows of the chunks it has yet to decide. */
  ghost predicate Pending(cfg: Config, st: State, recent: Recent, r: seq<Chunk>) {
    && (forall j :: 0 <= j < |r| && !r[j].dup ==>
          !InOpen(st.open, r[j].fp) && (Exact(cfg) ==> !Stored(st, r[j].fp))
          && forall k :: 0 <= k < j ==> r[k].fp != r[j].fp)
    && (forall j :: 0 <= j < |r| && r[j].dup && r[j].id == TEMPORARY_ID ==>
          r[j].fp in recent.unique || Announced(r, j))
    && (forall j :: 0 <= j < |r| ==> KnownId(st, r[j].id, r[j].fp) && Unmarked(cfg, r[j]))
    && (forall fp :: fp in recent.unique ==> Holds(st, recent.unique[fp], fp))
    && (forall fp :: fp in recent.rewritten ==> Holds(st, recent.rewritten[fp], fp))
  }

  predicate Unmarked(cfg: Config, c: Chunk) {
    (cfg.rewriting || !c.outOfOrder) && (cfg.har || !c.sparse)
  }

  /** An earlier chunk of the segment is the unique copy. */
  ghost predicate Announced(r: seq<Chunk>, j: nat)
    requires j < |r|
  {
    exists k :: 0 <= k < j && r[k].fp == r[j].fp && !r[k].dup
  }

  /** The chunk goes into the open container, and the turn is noted. */
  lemma WriteInto(cfg: Config, st: State, c: Chunk)
    requires StoreOk(cfg, st) && st.open.Some? && (Exact(cfg) ==> !Stored(st, c.fp))
    requires LiveOk(st.(monitor := st.monitor + {st.open.value.id}))
    ensures var id := st.open.value.id;
      var st' := Noted(cfg, AddChunk(st, c), id);
      StoreOk(cfg, st') && LiveOk(st') && Grows(st, st', {c.fp}) && Holds(st', id, c.fp)
      && st'.monitor == st.monitor + {id}
  {
    var id, mid := st.open.value.id, AddChunk(st, c);
    AddKeeps(cfg, st, c);
    NotedKeeps(cfg, mid, id);
    GrowsTrans(st, mid, Noted(cfg, mid, id), {c.fp}, {});
  }

  lemma WriteKeeps(cfg: Config, st: State, c: Chunk)
    requires StoreOk(cfg, st) && LiveOk(st) && (Exact(cfg) ==> !Stored(st, c.fp))
    ensures var st1 := Room(cfg, st, c.size);
      var id := st1.open.value.id;
      var st' := Noted(cfg, AddChunk(st1, c), id);
      && !Overflow(st1.open.value, c.size)
      && (forall fp :: InOpen(st1.open, fp) ==> InOpen(st.open, fp))
      && StoreOk(cfg, st') && LiveOk(st') && Grows(st, st', {c.fp})
      && st'.monitor == st.monitor + {id}
      && Holds(st', id, c.fp)
  {
    RoomKeeps(cfg, st, c.size);
    var st1 := Room(cfg, st, c.size);
    StaysNew(cfg, st, st1, c.fp);
    WriteInto(cfg, st1, c);
    GrowsTrans(st, st1, Noted(cfg, AddChunk(st1, c), st1.open.value.id), {}, {c.fp});
    assert {} + {c.fp} == {c.fp};
  }

  lemma StaysNew(cfg: Config, st: State, st1: State, fp: ChunkFp)
    requires Grows(st, st1, {}) && (Exact(cfg) ==> !Stored(st, fp))
    ensures Exact(cfg) ==> !Stored(st1, fp)
  {}

  /** What one turn leaves of the stores. */
  ghost predicate TurnOk(cfg: Config, st: State, c: Chunk, f: Filtered) {
    && StoreOk(cfg, f.state) && LiveOk(f.state) && Grows(st, f.state, {c.fp})
    && f.state.monitor == st.monitor + {f.chunk.id}
    && f.chunk == c.(id := f.chunk.id, denied := f.chunk.denied)
    && Holds(f.state, f.chunk.id, c.fp)
  }

  /** One turn of the loop, on the stores. */
  lemma FilterOneStores(cfg: Config, st: State, recent: Recent, c: Chunk, choice: Choice)
    requires StoreOk(cfg, st) && LiveOk(st) && CanResolve(recent, c)
    requires Holds(st, Resolve(recent, c).id, c.fp) || !c.dup
    requires !c.dup ==> !InOpen(st.open, c.fp) && (Exact(cfg) ==> !Stored(st, c.fp))
    requires Unmarked(cfg, c)
    requires !cfg.rewriting && Written(Resolve(recent, c), choice, InCache(cfg, st, c)) ==> !InOpen(st.open, c.fp)
    ensures MayFilter(cfg, st, recent, c, choice)
    ensures var f := FilterChunk(cfg, st, recent, c, choice);
      && TurnOk(cfg, st, c, f)
      && (f.recent == recent || (Written(Resolve(recent, c), choice, InCache(cfg, st, c))
                                 && f.recent == Remember(recent, c, f.chunk.id)))
      && (!c.dup ==> f.recent == Remember(recent, c, f.chunk.id))
  {
    if Written(Resolve(recent, c), choice, InCache(cfg, st, c)) {
      WrittenStores(cfg, st, recent, c, choice);
    } else {
      NotedKeeps(cfg, st, Resolve(recent, c).id);
      GrowsMore(st, FilterChunk(cfg, st, recent, c, choice).state, c.fp);
    }
  }

  lemma GrowsMore(st: State, st': State, fp: ChunkFp)
    requires Grows(st, st', {})
    ensures Grows(st, st', {fp})
  {}

  lemma WrittenStores(cfg: Config, st: State, recent: Recent, c: Chunk, choice: Choice)
    requires StoreOk(cfg, st) && LiveOk(st) && CanResolve(recent, c)
    requires Written(Resolve(recent, c), choice, InCache(cfg, st, c))
    requires Exact(cfg) ==> !Stored(st, c.fp)
    ensures TurnOk(cfg, st, c, FilterChunk(cfg, st, recent, c, choice))
    ensures var o := Room(cfg, st, c.size).open;
      !Overflow(o.value, c.size) && forall fp :: InOpen(o, fp) ==> InOpen(st.open, fp)
  {
    WriteKeeps(cfg, st, Resolve(recent, c));
  }

  lemma AccessedIds(q: seq<ContainerId>, size: int, id: ContainerId)
    ensures forall x :: x in Accessed(q, size, id) ==> x in q || x == id
  {
    var i := FirstHit(q, ById(id));
    if i < |q| {
      assert q == q[..i] + [q[i]] + q[i + 1..];
    }
  }

  lemma NotedKeeps(cfg: Config, st: State, id: ContainerId)
    requires StoreOk(cfg, st)
    ensures var st' := Noted(cfg, st, id);
      StoreOk(cfg, st') && Grows(st, st', {})
      && (LiveOk(st.(monitor := st.monitor + {id})) && id >= 0 ==> LiveOk(st'))
  {
    var st' := Noted(cfg, st, id);
    AccessedIds(st.aware, cfg.restoreCache, id);
    StoresFrame(cfg, st, st');
  }

  lemma FilterOne(cfg: Config, st: State, recent: Recent, r: seq<Chunk>, choice: Choice)
    requires r != [] && StoreOk(cfg, st) && LiveOk(st) && Pending(cfg, st, recent, r) && Settled(cfg, st, recent, r)
    ensures MayFilter(cfg, st, recent, r[0], choice)
    ensures var f := FilterChunk(cfg, st, recent, r[0], choice);
      && TurnOk(cfg, st, r[0], f)
      && Pending(cfg, f.state, f.recent, r[1..])
      && Settled(cfg, f.state, f.recent, r[1..])
      && (cfg.rewriting || SettledId(cfg, st, f.state.open, r[0].fp, f.chunk.id))
  {
    assert r[0].dup && r[0].id == TEMPORARY_ID ==> !Announced(r, 0);
    WrittenIsNew(cfg, st, recent, r, choice);
    FilterOneStores(cfg, st, recent, r[0], choice);
    PendingShrinks(cfg, st, recent, r, FilterChunk(cfg, st, recent, r[0], choice));
    SettledShrinks(cfg, st, recent, r, choice);
  }

  // ---- without a rewriting algorithm, only the first sparse copy of a chunk is written again

  /** What the loop knows of a chunk it has yet to decide, and of the head of its queue. */
  predicate SettledOne(cfg: Config, st: State, recent: Recent, c: Chunk) {
    c.fp in st.buffered && st.buffered[c.fp] != [] &&
    var q0 := st.buffered[c.fp][0];
    && (if q0 >= st.start then c.id >= st.start else c.id == q0)
    && (!c.dup ==> q0 == TEMPORARY_ID)
    && (c.sparse && !c.denied ==> q0 in Sparse(cfg, st))
    && (InOpen(st.open, c.fp) ==> q0 >= st.start || c.fp in recent.unique || c.fp in recent.rewritten)
    && (c.fp in recent.unique ==> q0 == TEMPORARY_ID && recent.unique[c.fp] >= st.start)
    && (c.fp in recent.rewritten ==> q0 in Sparse(cfg, st) && recent.rewritten[c.fp] >= st.start)
  }

  ghost predicate Settled(cfg: Config, st: State, recent: Recent, r: seq<Chunk>) {
    cfg.rewriting || forall j :: 0 <= j < |r| ==> SettledOne(cfg, st, recent, r[j])
  }

  /** An id that a chunk may leave with: its old one, or one of this backup if it may have been written; the
      latter if the open container has the chunk. */
  predicate SettledId(cfg: Config, st: State, open: Option<Container>, fp: ChunkFp, id: ContainerId) {
    fp in st.buffered && st.buffered[fp] != [] &&
    var q0 := st.buffered[fp][0];
    && (InOpen(open, fp) ==> id >= st.start)
    && (if id >= st.start then q0 >= st.start || q0 == TEMPORARY_ID || q0 in Sparse(cfg, st) else id == q0)
  }

  lemma WrittenIsNew(cfg: Config, st: State, recent: Recent, r: seq<Chunk>, choice: Choice)
    requires r != [] && ContainersOk(st) && Pending(cfg, st, recent, r) && Settled(cfg, st, recent, r)
    requires CanResolve(recent, r[0])
    ensures !cfg.rewriting && Written(Resolve(recent, r[0]), choice, InCache(cfg, st, r[0])) ==> !InOpen(st.open, r[0].fp)
  {
    if !cfg.rewriting { assert SettledOne(cfg, st, recent, r[0]); }
  }

  lemma SettledShrinks(cfg: Config, st: State, recent: Recent, r: seq<Chunk>, choice: Choice)
    requires r != [] && ContainersOk(st) && Pending(cfg, st, recent, r) && Settled(cfg, st, recent, r)
    requires CanResolve(recent, r[0])
    requires var f := FilterChunk(cfg, st, recent, r[0], choice);
      ContainersOk(f.state) && Grows(st, f.state, {r[0].fp})
    ensures var f := FilterChunk(cfg, st, recent, r[0], choice);
      Settled(cfg, f.state, f.recent, r[1..])
      && (cfg.rewriting || SettledId(cfg, st, f.state.open, r[0].fp, f.chunk.id))
  {
    if !cfg.rewriting {
      var f := FilterChunk(cfg, st, recent, r[0], choice);
      WrittenIsNew(cfg, st, recent, r, choice);
      TurnSettles(cfg, st, recent, r[0], choice);
      forall j | 0 <= j < |r[1..]| ensures SettledOne(cfg, f.state, f.recent, r[1..][j]) {
        assert SettledOne(cfg, st, recent, r[j + 1]);
        StaysSettled(cfg, st, recent, r[0].fp, f.state, f.recent, r[j + 1]);
      }
    }
  }

  /** How the tables change in one turn on a chunk with this fingerprint. */
  predicate RecentGrows(cfg: Config, st: State, recent: Recent, fp: ChunkFp, recent': Recent) {
    fp in st.buffered && st.buffered[fp] != [] &&
    var q0 := st.buffered[fp][0];
    recent' == recent
    || (q0 == TEMPORARY_ID && fp in recent'.unique && recent'.unique[fp] >= st.start
        && recent' == recent.(unique := recent.unique[fp := recent'.unique[fp]]))
    || (q0 in Sparse(cfg, st) && fp in recent'.rewritten && recent'.rewritten[fp] >= st.start
        && recent' == recent.(rewritten := recent.rewritten[fp := recent'.rewritten[fp]]))
  }

  lemma TurnSettles(cfg: Config, st: State, recent: Recent, c: Chunk, choice: Choice)
    requires !cfg.rewriting && ContainersOk(st) && CanResolve(recent, c) && SettledOne(cfg, st, recent, c)
    requires Written(Resolve(recent, c), choice, InCache(cfg, st, c)) ==> !InOpen(st.open, c.fp)
    requires ContainersOk(FilterChunk(cfg, st, recent, c, choice).state) && !c.outOfOrder
    ensures var f := FilterChunk(cfg, st, recent, c, choice);
      && SettledId(cfg, st, f.state.open, c.fp, f.chunk.id)
      && RecentGrows(cfg, st, recent, c.fp, f.recent)
      && (InOpen(f.state.open, c.fp) ==> InOpen(st.open, c.fp) || c.fp in f.recent.unique || c.fp in f.recent.rewritten)
  {
    RoomIsOpen(cfg, st, c.size);
  }

  lemma StaysSettled(cfg: Config, st: State, recent: Recent, fp: ChunkFp, st': State, recent': Recent, c: Chunk)
    requires ContainersOk(st) && SettledOne(cfg, st, recent, c) && Grows(st, st', {fp})
    requires RecentGrows(cfg, st, recent, fp, recent')
    requires InOpen(st'.open, fp) ==> InOpen(st.open, fp) || fp in recent'.unique || fp in recent'.rewritten
    ensures SettledOne(cfg, st', recent', c)
  {}

  lemma RoomIsOpen(cfg: Config, st: State, size: nat)
    ensures forall fp :: InOpen(Room(cfg, st, size).open, fp) ==> InOpen(st.open, fp)
  {}

  /** The last chunk of each fingerprint, whose id index_update_buffer hands on. */
  ghost predicate LastSettled(cfg: Config, st: State, open: Option<Container>, fp: ChunkFp, mine: seq<Chunk>) {
    cfg.rewriting || mine == [] || SettledId(cfg, st, open, fp, mine[|mine| - 1].id)
  }

  ghost predicate AllSettled(cfg: Config, st: State, open: Option<Container>, out: seq<Chunk>) {
    forall fp :: LastSettled(cfg, st, open, fp, Of(fp, out))
  }

  lemma AllCons(cfg: Config, st: State, mid: State, st': State, c: Chunk, r: seq<Chunk>, rest: seq<Chunk>)
    requires cfg.rewriting || SettledId(cfg, st, mid.open, c.fp, c.id)
    requires Grows(st, mid, {c.fp}) && FilteredOk(cfg, mid, r, st', rest) && AllSettled(cfg, mid, st'.open, rest)
    ensures AllSettled(cfg, st, st'.open, [c] + rest)
  {
    assert Fps(rest) == Fps(r);
    forall fp ensures LastSettled(cfg, st, st'.open, fp, Of(fp, [c] + rest)) {
      LastCons(cfg, st, mid, st', c, rest, fp);
    }
  }

  lemma LastCons(cfg: Config, st: State, mid: State, st': State, c: Chunk, rest: seq<Chunk>, fp: ChunkFp)
    requires cfg.rewriting || SettledId(cfg, st, mid.open, c.fp, c.id)
    requires Grows(st, mid, {c.fp}) && Grows(mid, st', Elements(Fps(rest)))
    requires LastSettled(cfg, mid, st'.open, fp, Of(fp, rest))
    ensures LastSettled(cfg, st, st'.open, fp, Of(fp, [c] + rest))
  {
    assert ([c] + rest)[1..] == rest;
    OfNone(fp, rest);
  }

  lemma PendingShrinks(cfg: Config, st: State, recent: Recent, r: seq<Chunk>, f: Filtered)
    requires r != [] && Pending(cfg, st, recent, r) && Grows(st, f.state, {r[0].fp})
    requires Holds(f.state, f.chunk.id, r[0].fp)
    requires f.recent == recent || f.recent == Remember(recent, r[0], f.chunk.id)
    requires !r[0].dup ==> f.recent == Remember(recent, r[0], f.chunk.id)
    ensures Pending(cfg, f.state, f.recent, r[1..])
  {
    var t := r[1..];
    forall j | 0 <= j < |t| && !t[j].dup
      ensures !InOpen(f.state.open, t[j].fp) && (Exact(cfg) ==> !Stored(f.state, t[j].fp))
    {
      assert t[j] == r[j + 1] && r[0].fp != r[j + 1].fp;
      if Stored(f.state, t[j].fp) { var id :| Holds(f.state, id, t[j].fp); }
    }
    forall j | 0 <= j < |t| && t[j].dup && t[j].id == TEMPORARY_ID
      ensures t[j].fp in f.recent.unique || Announced(t, j)
    {
      assert t[j] == r[j + 1];
      if Announced(r, j + 1) {
        var k :| 0 <= k < j + 1 && r[k].fp == r[j + 1].fp && !r[k].dup;
        if k > 0 { assert t[k - 1] == r[k]; }
      }
    }
  }

  /** StoreOk and LiveOk, behind a quantifier so that they unfold only where Shown(st) is stated. */
  ghost predicate Healthy(cfg: Config, st: State) {
    forall x {:trigger Shown(x)} :: Shown(x) && x == st ==> StoreOk(cfg, x) && LiveOk(x)
  }

  /** The outcome of filtering r: nothing lost, every chunk with the id of a container that holds it. */
  ghost predicate FilteredOk(cfg: Config, st: State, r: seq<Chunk>, st': State, out: seq<Chunk>) {
    && Healthy(cfg, st') && Grows(st, st', Elements(Fps(r)))
    && Located(st', r, out)
    && st'.monitor == st.monitor + Ids(out)
  }

  ghost predicate Located(st: State, r: seq<Chunk>, out: seq<Chunk>) {
    && |out| == |r|
    && (forall j :: 0 <= j < |r| ==> out[j].fp == r[j].fp && out[j].size == r[j].size)
    && (forall j :: 0 <= j < |out| ==> Holds(st, out[j].id, out[j].fp))
  }

  lemma LocatedCons(st: State, r: seq<Chunk>, c: Chunk, rest: seq<Chunk>)
    requires r != [] && c.fp == r[0].fp && c.size == r[0].size && Holds(st, c.id, c.fp) && Located(st, r[1..], rest)
    ensures Located(st, r, [c] + rest)
  {}

  function Ids(s: seq<Chunk>): set<ContainerId> {
    set c | c in s :: c.id
  }

  lemma FilteredCons(cfg: Config, st: State, r: seq<Chunk>, mid: State, c: Chunk, st': State, rest: seq<Chunk>)
    requires r != [] && Grows(st, mid, {r[0].fp}) && Holds(mid, c.id, r[0].fp)
    requires c == r[0].(id := c.id, denied := c.denied) && mid.monitor == st.monitor + {c.id}
    requires FilteredOk(cfg, mid, r[1..], st', rest)
    ensures FilteredOk(cfg, st, r, st', [c] + rest)
  {
    GrowsTrans(st, mid, st', {r[0].fp}, Elements(Fps(r[1..])));
    HeadAndTail(r, c, rest);
    LocatedCons(st', r, c, rest);
  }

  lemma HeadAndTail(r: seq<Chunk>, c: Chunk, rest: seq<Chunk>)
    requires r != []
    ensures {r[0].fp} + Elements(Fps(r[1..])) == Elements(Fps(r)) && Ids([c] + rest) == {c.id} + Ids(rest)
  {
    assert Fps(r) == [r[0].fp] + Fps(r[1..]);
  }

  /** The loop with r to go. */
  datatype Todo = Todo(st: State, recent: Recent, r: seq<Chunk>)

  predicate Looked(x: Todo) { true }

  ghost predicate Standing(cfg: Config, x: Todo) {
    StoreOk(cfg, x.st) && LiveOk(x.st) && Pending(cfg, x.st, x.recent, x.r) && Settled(cfg, x.st, x.recent, x.r)
  }

  /** Standing, behind a quantifier so that it unfolds only where Looked(x) is stated. */
  ghost predicate Ready(cfg: Config, st: State, recent: Recent, r: seq<Chunk>) {
    forall x {:trigger Looked(x)} :: Looked(x) && x == Todo(st, recent, r) ==> Standing(cfg, x)
  }

  lemma ReadyTurn(cfg: Config, st: State, recent: Recent, r: seq<Chunk>, choice: Choice)
    requires r != [] && Ready(cfg, st, recent, r)
    ensures MayFilter(cfg, st, recent, r[0], choice)
    ensures var f := FilterChunk(cfg, st, recent, r[0], choice);
      && Ready(cfg, f.state, f.recent, r[1..])
      && Grows(st, f.state, {r[0].fp}) && f.state.monitor == st.monitor + {f.chunk.id}
      && f.chunk == r[0].(id := f.chunk.id, denied := f.chunk.denied)
      && Holds(f.state, f.chunk.id, r[0].fp) && f.chunk.id >= 0
      && (cfg.rewriting || SettledId(cfg, st, f.state.open, r[0].fp, f.chunk.id))
  {
    assert Looked(Todo(st, recent, r));
    FilterOne(cfg, st, recent, r, choice);
  }

  lemma ReadyEnd(cfg: Config, st: State, recent: Recent)
    requires Ready(cfg, st, recent, [])
    ensures FilteredOk(cfg, st, [], st, []) && AllSettled(cfg, st, st.open, [])
  {
    assert Looked(Todo(st, recent, []));
    forall id, fp | Holds(st, id, fp) ensures Stored(st, fp) {}
    assert Ids([]) == {};
  }

  lemma {:induction false} FilterAllKeeps(cfg: Config, st: State, recent: Recent, r: seq<Chunk>, choices: seq<Choice>)
    requires |choices| == |r| && Ready(cfg, st, recent, r)
    ensures var x := FilterAll(cfg, st, recent, r, choices);
      x.Some? && FilteredOk(cfg, st, r, x.value.0, x.value.1) && AllSettled(cfg, st, x.value.0.open, x.value.1)
    decreases |r|
  {
    if r == [] {
      ReadyEnd(cfg, st, recent);
    } else {
      ReadyTurn(cfg, st, recent, r, choices[0]);
      var f := FilterChunk(cfg, st, recent, r[0], choices[0]);
      FilterAllKeeps(cfg, f.state, f.recent, r[1..], choices[1..]);
      var rest := FilterAll(cfg, f.state, f.recent, r[1..], choices[1..]).value;
      FilteredCons(cfg, st, r, f.state, f.chunk, rest.0, rest.1);
      AllCons(cfg, st, f.state, rest.0, f.chunk, r[1..], rest.1);
    }
  }

  // ---- the queues are popped

  /** What index_update_buffer leaves of one fingerprint's queue. */
  ghost predicate PoppedOk(before: map<ChunkFp, seq<ContainerId>>, after: map<ChunkFp, seq<ContainerId>>,
                           fp: ChunkFp, mine: seq<Chunk>)
  {
    if mine == [] then (fp in after <==> fp in before) && (fp in before ==> after[fp] == before[fp])
    else
      fp in before && |mine| <= |before[fp]|
      && (fp in after <==> |mine| < |before[fp]|)
      && (fp in after ==> after[fp] == seq(|before[fp]| - |mine|, _ => mine[|mine| - 1].id))
  }

  lemma {:induction false} PopAllKeeps(buffered: map<ChunkFp, seq<ContainerId>>, s: seq<Chunk>)
    requires forall c :: c in s ==> c.id != TEMPORARY_ID
    requires forall fp :: Of(fp, s) != [] ==> fp in buffered && |Of(fp, s)| <= |buffered[fp]|
    ensures var r := PopAll(buffered, s);
      r.Some? && forall fp :: PoppedOk(buffered, r.value, fp, Of(fp, s))
    decreases |s|
  {
    if s != [] {
      var c := s[0];
      assert Of(c.fp, s) == [c] + Of(c.fp, s[1..]);
      var b1 := PopBuffer(buffered, c);
      forall fp | Of(fp, s[1..]) != [] ensures fp in b1 && |Of(fp, s[1..])| <= |b1[fp]| {
        assert Of(fp, s) == if fp == c.fp then [c] + Of(fp, s[1..]) else Of(fp, s[1..]);
      }
      PopAllKeeps(b1, s[1..]);
      var r := PopAll(buffered, s).value;
      forall fp ensures PoppedOk(buffered, r, fp, Of(fp, s)) {
        assert PoppedOk(b1, r, fp, Of(fp, s[1..]));
        assert Of(fp, s) == if fp == c.fp then [c] + Of(fp, s[1..]) else Of(fp, s[1..]);
      }
    }
  }

  // ---- a whole segment

  lemma {:induction false} CheckBufferKeeps(buffered: map<ChunkFp, seq<ContainerId>>, s: seq<Chunk>)
    requires forall c :: c in s ==> c.fp in buffered && buffered[c.fp] != []
    ensures var r := CheckBuffer(buffered, s);
      r.Some? && |r.value| == |s| && forall j :: 0 <= j < |s| ==> Some(r.value[j]) == CheckChunk(buffered, s[j])
  {
    if s != [] { CheckBufferKeeps(buffered, s[1..]); }
  }

  /** The oldest segment's chunks come first in every fingerprint's queue. */
  lemma SegmentFirst(st: State, fp: ChunkFp)
    requires st.flight != []
    ensures Of(fp, Flat(st.flight)) == Of(fp, st.flight[0]) + Of(fp, Flat(st.flight[1..]))
  {
    OfAppend(fp, st.flight[0], Flat(st.flight[1..]));
  }

  /** In the oldest segment a unique chunk is the first of its fingerprint; a duplicate without an id
      whose queue is still temporary follows its unique copy. */
  lemma PlaceInSegment(cfg: Config, st: State, j: nat)
    requires FlightOk(cfg, st) && st.flight != [] && j < |st.flight[0]|
    ensures var s := st.flight[0];
      var fp := s[j].fp;
      && fp in st.buffered && st.buffered[fp] != []
      && KnownId(st, st.buffered[fp][0], fp) && KnownId(st, s[j].id, fp)
      && !s[j].sparse && (cfg.rewriting || !s[j].outOfOrder)
      && (!s[j].dup ==> !InOpen(st.open, fp) && (Exact(cfg) ==> !Stored(st, fp)) && s[j].id == TEMPORARY_ID
                        && forall k :: 0 <= k < j ==> s[k].fp != fp)
      && (s[j].dup && st.buffered[fp][0] == TEMPORARY_ID ==> Announced(s, j))
  {
    var s := st.flight[0];
    var fp := s[j].fp;
    var p := Of(fp, Flat(st.flight));
    assert QueueOk(cfg, st, fp, p);
    SegmentFirst(st, fp);
    assert s[j] in Flat(st.flight) by { assert Flat(st.flight)[j] == s[j]; }
    OfPlace(s, j);
    var i := |Of(fp, s[..j])|;
    assert p[i] == s[j];
    var k := OfFirst(fp, s);
    assert p[0] == s[k];
    if !s[j].dup {
      assert i == 0;
      OfNone(fp, s[..j]);
      forall k | 0 <= k < j ensures s[k].fp != fp {
        assert Fps(s[..j])[k] == s[k].fp;
      }
    }
  }

  /** One chunk of the oldest segment after har_check and index_check_buffer. */
  lemma CheckedSettled(cfg: Config, st: State, j: nat)
    requires StoreOk(cfg, st) && FlightOk(cfg, st) && st.flight != [] && j < |st.flight[0]|
    ensures var c := HarMarked(cfg, st.inherited, st.flight[0][j]);
      var r := CheckChunk(st.buffered, c);
      r.Some? && (cfg.rewriting || SettledOne(cfg, st, Recent(map[], map[]), r.value))
  {
    PlaceInSegment(cfg, st, j);
    if !cfg.rewriting {
      var c := st.flight[0][j];
      var p := Of(c.fp, Flat(st.flight));
      assert QueueOk(cfg, st, c.fp, p) && MarkOk(cfg, st, c.fp, p);
      SegmentFirst(st, c.fp);
      OfPlace(st.flight[0], j);
      assert p[|Of(c.fp, st.flight[0][..j])|] == c;
      assert MayHave(cfg, st, st.buffered[c.fp][0], c.id);
    }
  }

  /** One chunk of the oldest segment after har_check and index_check_buffer, for the tables. */
  lemma CheckedPending(cfg: Config, st: State, j: nat)
    requires StoreOk(cfg, st) && FlightOk(cfg, st) && st.flight != [] && j < |st.flight[0]|
    ensures var s := st.flight[0];
      var r := CheckChunk(st.buffered, HarMarked(cfg, st.inherited, s[j]));
      r.Some? &&
      var c := r.value;
      && c.fp == s[j].fp && c.dup == s[j].dup && c.size == s[j].size
      && KnownId(st, c.id, c.fp) && Unmarked(cfg, c)
      && (!c.dup ==> !InOpen(st.open, c.fp) && (Exact(cfg) ==> !Stored(st, c.fp)))
      && (!c.dup ==> forall k :: 0 <= k < j ==> s[k].fp != c.fp)
      && (c.dup && c.id == TEMPORARY_ID ==> Announced(s, j))
  {
    PlaceInSegment(cfg, st, j);
    var s := st.flight[0];
    assert Holds(st, st.buffered[s[j].fp][0], s[j].fp) ==> st.buffered[s[j].fp][0] >= 0;
  }

  lemma SegmentPending(cfg: Config, st: State)
    requires StoreOk(cfg, st) && FlightOk(cfg, st) && LiveOk(st) && st.flight != []
    ensures var r := CheckBuffer(st.buffered, HarMarkedAll(cfg, st.inherited, st.flight[0]));
      && r.Some? && |r.value| == |st.flight[0]|
      && Ready(cfg, st, Recent(map[], map[]), r.value)
      && forall j :: 0 <= j < |r.value| ==> r.value[j].fp == st.flight[0][j].fp && r.value[j].size == st.flight[0][j].size
  {
    var s := HarMarkedAll(cfg, st.inherited, st.flight[0]);
    forall j | 0 <= j < |s| ensures s[j].fp in st.buffered && st.buffered[s[j].fp] != [] {
      PlaceInSegment(cfg, st, j);
    }
    CheckBufferKeeps(st.buffered, s);
    var r := CheckBuffer(st.buffered, s).value;
    CheckedAreReady(cfg, st, r);
  }

  lemma CheckedAreReady(cfg: Config, st: State, r: seq<Chunk>)
    requires StoreOk(cfg, st) && FlightOk(cfg, st) && LiveOk(st) && st.flight != [] && |r| == |st.flight[0]|
    requires forall j :: 0 <= j < |r| ==> Some(r[j]) == CheckChunk(st.buffered, HarMarked(cfg, st.inherited, st.flight[0][j]))
    ensures Ready(cfg, st, Recent(map[], map[]), r)
    ensures forall j :: 0 <= j < |r| ==> r[j].fp == st.flight[0][j].fp && r[j].size == st.flight[0][j].size
  {
    var recent := Recent(map[], map[]);
    forall j | 0 <= j < |r|
      ensures r[j].fp == st.flight[0][j].fp && r[j].dup == st.flight[0][j].dup && r[j].size == st.flight[0][j].size
    {
      CheckedPending(cfg, st, j);
    }
    assert Pending(cfg, st, recent, r) by {
      forall j | 0 <= j < |r|
        ensures KnownId(st, r[j].id, r[j].fp) && Unmarked(cfg, r[j])
        ensures !r[j].dup ==> !InOpen(st.open, r[j].fp) && (Exact(cfg) ==> !Stored(st, r[j].fp))
        ensures !r[j].dup ==> forall k :: 0 <= k < j ==> r[k].fp != r[j].fp
        ensures r[j].dup && r[j].id == TEMPORARY_ID ==> Announced(r, j)
      {
        CheckedPending(cfg, st, j);
        if Announced(st.flight[0], j) {
          var k :| 0 <= k < j && st.flight[0][k].fp == st.flight[0][j].fp && !st.flight[0][k].dup;
          assert r[k].fp == r[j].fp && !r[k].dup;
        }
      }
    }
    forall j | 0 <= j < |r| ensures cfg.rewriting || SettledOne(cfg, st, recent, r[j]) {
      CheckedSettled(cfg, st, j);
    }
    assert Standing(cfg, Todo(st, recent, r));
  }

  lemma {:induction false} OfSameFps(fp: ChunkFp, a: seq<Chunk>, b: seq<Chunk>)
    requires |a| == |b| && forall j :: 0 <= j < |a| ==> a[j].fp == b[j].fp
    ensures |Of(fp, a)| == |Of(fp, b)|
  {
    if a != [] { OfSameFps(fp, a[1..], b[1..]); }
  }

  /** The segment has no chunk of the fingerprint: its queue stays. */
  lemma QueueUntouched(cfg: Config, st: State, st': State, fp: ChunkFp, p: seq<Chunk>)
    requires QueueOk(cfg, st, fp, p)
    requires fp in st.buffered <==> fp in st'.buffered
    requires fp in st.buffered ==> st'.buffered[fp] == st.buffered[fp]
    requires InOpen(st'.open, fp) ==> InOpen(st.open, fp)
    requires Stored(st', fp) ==> Stored(st, fp)
    ensures QueueOk(cfg, st', fp, p)
  {}

  /** The segment has the fingerprint: the chunks behind it are duplicates and know a container. */
  lemma QueuePopped(cfg: Config, st: State, st': State, fp: ChunkFp, first: seq<Chunk>, later: seq<Chunk>,
                    n: nat, id: ContainerId)
    requires QueueOk(cfg, st, fp, first + later) && n == |first| > 0 && id != TEMPORARY_ID
    requires fp in st'.buffered <==> n < |st.buffered[fp]|
    requires fp in st'.buffered ==> st'.buffered[fp] == seq(|st.buffered[fp]| - n, _ => id)
    ensures QueueOk(cfg, st', fp, later)
  {
    assert forall i :: 0 <= i < |later| ==> later[i] == (first + later)[n + i];
  }

  lemma StoredFrame(st: State, st1: State, st': State, fp: ChunkFp, w: set<ChunkFp>)
    requires Grows(st, st1, w) && fp !in w && st'.open == st1.open && st'.sealed == st1.sealed
    ensures Stored(st', fp) ==> Stored(st, fp)
  {
    if Stored(st', fp) {
      var id :| Holds(st', id, fp);
      assert Holds(st1, id, fp);
    }
  }

  /** One fingerprint's queue after the segment has left. */
  lemma QueueLeaves(cfg: Config, st: State, st1: State, out: seq<Chunk>, buffered: map<ChunkFp, seq<ContainerId>>, fp: ChunkFp)
    requires FlightOk(cfg, st) && ContainersOk(st1) && st.flight != []
    requires Grows(st, st1, Elements(Fps(out)))
    requires |out| == |st.flight[0]| && forall j :: 0 <= j < |out| ==> out[j].fp == st.flight[0][j].fp
    requires forall j :: 0 <= j < |out| ==> Holds(st1, out[j].id, out[j].fp)
    requires PoppedOk(st.buffered, buffered, fp, Of(fp, out))
    ensures QueueOk(cfg, st1.(buffered := buffered), fp, Of(fp, Flat(st.flight[1..])))
    ensures fp in buffered ==> forall i :: 0 <= i < |buffered[fp]| ==> KnownId(st1, buffered[fp][i], fp)
  {
    SegmentFirst(st, fp);
    OfSameFps(fp, out, st.flight[0]);
    FlightQueue(cfg, st, fp);
    QueueMoves(cfg, st, st1, out, buffered, fp, Of(fp, st.flight[0]), Of(fp, Flat(st.flight[1..])));
  }

  ghost predicate QueueKnown(st: State, buffered: map<ChunkFp, seq<ContainerId>>, fp: ChunkFp) {
    fp in buffered ==> forall i :: 0 <= i < |buffered[fp]| ==> KnownId(st, buffered[fp][i], fp)
  }

  lemma FlightQueue(cfg: Config, st: State, fp: ChunkFp)
    requires FlightOk(cfg, st)
    ensures QueueOk(cfg, st, fp, Of(fp, Flat(st.flight))) && QueueKnown(st, st.buffered, fp)
  {}

  lemma QueueMoves(cfg: Config, st: State, st1: State, out: seq<Chunk>, buffered: map<ChunkFp, seq<ContainerId>>, fp: ChunkFp,
                   first: seq<Chunk>, later: seq<Chunk>)
    requires QueueOk(cfg, st, fp, first + later) && QueueKnown(st, st.buffered, fp) && ContainersOk(st1)
    requires Grows(st, st1, Elements(Fps(out))) && |first| == |Of(fp, out)|
    requires forall j :: 0 <= j < |out| ==> Holds(st1, out[j].id, out[j].fp)
    requires PoppedOk(st.buffered, buffered, fp, Of(fp, out))
    ensures QueueOk(cfg, st1.(buffered := buffered), fp, later) && QueueKnown(st1, buffered, fp)
  {
    var mine := Of(fp, out);
    if mine == [] {
      assert first + later == later;
      QueueStays(cfg, st, st1, out, buffered, fp, later);
    } else {
      OfElements(fp, out);
      var last := mine[|mine| - 1];
      assert last in mine;
      assert Holds(st1, last.id, fp);
      QueuePopped(cfg, st, st1.(buffered := buffered), fp, first, later, |mine|, last.id);
    }
  }

  lemma QueueStays(cfg: Config, st: State, st1: State, out: seq<Chunk>, buffered: map<ChunkFp, seq<ContainerId>>, fp: ChunkFp,
                   p: seq<Chunk>)
    requires QueueOk(cfg, st, fp, p) && Grows(st, st1, Elements(Fps(out)))
    requires PoppedOk(st.buffered, buffered, fp, Of(fp, out)) && Of(fp, out) == []
    ensures QueueOk(cfg, st1.(buffered := buffered), fp, p)
  {
    OfNone(fp, out);
    StoredFrame(st, st1, st1.(buffered := buffered), fp, Elements(Fps(out)));
    QueueUntouched(cfg, st, st1.(buffered := buffered), fp, p);
  }

  /** What the segment hands on to the chunks behind it. */
  lemma MarkLeaves(cfg: Config, st: State, st1: State, out: seq<Chunk>, st': State, fp: ChunkFp)
    requires FlightOk(cfg, st) && st.flight != [] && Grows(st, st1, Elements(Fps(out)))
    requires |out| == |st.flight[0]| && forall j :: 0 <= j < |out| ==> out[j].fp == st.flight[0][j].fp
    requires PoppedOk(st.buffered, st'.buffered, fp, Of(fp, out)) && LastSettled(cfg, st, st1.open, fp, Of(fp, out))
    requires st'.open == st1.open && st'.start == st.start && st'.inherited == st.inherited
    ensures MarkOk(cfg, st', fp, Of(fp, Flat(st.flight[1..])))
  {
    var p, later := Of(fp, Flat(st.flight)), Of(fp, Flat(st.flight[1..]));
    SegmentFirst(st, fp);
    assert QueueOk(cfg, st, fp, p) && MarkOk(cfg, st, fp, p);
    OfNone(fp, out);
    OfSameFps(fp, out, st.flight[0]);
    if !cfg.rewriting && later != [] && fp in st'.buffered && st'.buffered[fp] != [] {
      forall c | c in later ensures MayHave(cfg, st', st'.buffered[fp][0], c.id) {
        assert c in p;
        assert MayHave(cfg, st, st.buffered[fp][0], c.id);
      }
    }
  }

  /** The recipe entries of one segment: its chunks in order, each with a container that holds it. */
  ghost predicate Recorded(st: State, entries: seq<Pointer>, s: seq<Chunk>) {
    && |entries| == |s|
    && (forall j :: 0 <= j < |s| ==> entries[j].fp == s[j].fp && entries[j].size == s[j].size)
    && (forall j :: 0 <= j < |s| ==> Holds(st, entries[j].id, entries[j].fp))
  }

  lemma FlightLeaves(cfg: Config, st: State, st1: State, out: seq<Chunk>, st': State)
    requires FlightOk(cfg, st) && st.flight != []
    requires FilteredOk(cfg, st, out, st1, out)
    requires |out| == |st.flight[0]| && forall j :: 0 <= j < |out| ==> out[j].fp == st.flight[0][j].fp
    requires st'.flight == st.flight[1..] && st'.open == st1.open && st'.sealed == st1.sealed
    requires forall fp :: PoppedOk(st.buffered, st'.buffered, fp, Of(fp, out))
    requires AllSettled(cfg, st, st1.open, out)
    requires st'.start == st.start && st'.inherited == st.inherited
    requires st'.chunkNum == st.chunkNum - |out|
    ensures FlightOk(cfg, st')
  {
    assert Shown(st1);
    var st2 := st1.(buffered := st'.buffered);
    forall id, fp ensures Holds(st', id, fp) == Holds(st1, id, fp) {}
    forall fp ensures QueueOk(cfg, st', fp, Of(fp, Flat(st'.flight))) && MarkOk(cfg, st', fp, Of(fp, Flat(st'.flight))) {
      MarkLeaves(cfg, st, st1, out, st', fp);
      QueueLeaves(cfg, st, st1, out, st'.buffered, fp);
      if Stored(st', fp) { var id :| Holds(st', id, fp); assert Holds(st2, id, fp); }
      QueueUntouched(cfg, st2, st', fp, Of(fp, Flat(st.flight[1..])));
    }
    forall fp | fp in st'.buffered
      ensures forall i :: 0 <= i < |st'.buffered[fp]| ==> KnownId(st', st'.buffered[fp][i], fp)
    {
      QueueLeaves(cfg, st, st1, out, st'.buffered, fp);
      forall i | 0 <= i < |st'.buffered[fp]| ensures KnownId(st', st'.buffered[fp][i], fp) {
        assert KnownId(st1, st'.buffered[fp][i], fp);
      }
    }
    forall c | c in Flat(st'.flight)
      ensures KnownId(st', c.id, c.fp) && !c.sparse && (cfg.rewriting || !c.outOfOrder)
    {
      assert c in Flat(st.flight);
    }
  }

  lemma CanPop(cfg: Config, st: State, out: seq<Chunk>)
    requires FlightOk(cfg, st) && st.flight != []
    requires |out| == |st.flight[0]| && forall j :: 0 <= j < |out| ==> out[j].fp == st.flight[0][j].fp
    ensures forall fp :: Of(fp, out) != [] ==> fp in st.buffered && |Of(fp, out)| <= |st.buffered[fp]|
  {
    forall fp | Of(fp, out) != [] ensures fp in st.buffered && |Of(fp, out)| <= |st.buffered[fp]| {
      assert QueueOk(cfg, st, fp, Of(fp, Flat(st.flight)));
      SegmentFirst(st, fp);
      OfSameFps(fp, out, st.flight[0]);
    }
  }

  /** A filter step never fails: no assert fires, the invariant is kept, and the recipe grows by exactly
      the segment's chunks, each with the id of a container that holds it. */
  lemma FilterSegmentKeeps(cfg: Config, st: State, choices: seq<Choice>)
    requires StoreOk(cfg, st) && FlightOk(cfg, st) && LiveOk(st)
    requires st.flight != [] && |choices| == |st.flight[0]|
    ensures var r := FilterSegment(cfg, st, choices);
      r.Some? &&
      var st' := r.value;
      && StoreOk(cfg, st') && FlightOk(cfg, st') && LiveOk(st')
      && st' == st.(buffered := st'.buffered, chunkNum := st'.chunkNum, flight := st.flight[1..], open := st'.open,
                    sealed := st'.sealed, next := st'.next, kv := st'.kv, recipe := st'.recipe, monitor := st'.monitor,
                    aware := st'.aware, history := st'.history)
      && (forall id, fp :: Holds(st, id, fp) ==> Holds(st', id, fp))
      && st.sealed.Keys <= st'.sealed.Keys && st.next <= st'.next
      && st.recipe <= st'.recipe
      && var entries := st'.recipe[|st.recipe|..];
      && Recorded(st', entries, st.flight[0])
      && st'.monitor == st.monitor + PointerIds(entries)
  {
    var st1, out := SegmentFiltered(cfg, st, choices);
    var st' := FilterSegment(cfg, st, choices).value;
    FlightLeaves(cfg, st, st1, out, st');
    assert Shown(st1);
    forall id, fp ensures Holds(st', id, fp) == Holds(st1, id, fp) {}
    StoresFrame(cfg, st1, st');
    assert st'.recipe[|st.recipe|..] == Pointers(out);
    IdsOfPointers(out);
  }

  lemma FilteredRelabel(cfg: Config, st: State, r: seq<Chunk>, st': State, out: seq<Chunk>)
    requires FilteredOk(cfg, st, r, st', out)
    ensures FilteredOk(cfg, st, out, st', out) && Placed(out)
  {
    assert Fps(r) == Fps(out);
    assert Shown(st');
    forall c | c in out ensures c.id >= 0 {
      assert Holds(st', c.id, c.fp);
    }
  }

  /** What FilterSegment builds its result from. */
  lemma SegmentFiltered(cfg: Config, st: State, choices: seq<Choice>) returns (st1: State, out: seq<Chunk>)
    requires StoreOk(cfg, st) && FlightOk(cfg, st) && LiveOk(st)
    requires st.flight != [] && |choices| == |st.flight[0]|
    ensures FilteredOk(cfg, st, out, st1, out) && AllSettled(cfg, st, st1.open, out)
    ensures
      && |out| == |st.flight[0]|
      && (forall j :: 0 <= j < |out| ==> out[j].fp == st.flight[0][j].fp && out[j].size == st.flight[0][j].size)
      && var r := FilterSegment(cfg, st, choices);
      && r.Some?
      && r.value == st1.(buffered := r.value.buffered, chunkNum := st.chunkNum - |out|, flight := st.flight[1..],
                         recipe := st.recipe + Pointers(out))
      && (forall fp :: PoppedOk(st.buffered, r.value.buffered, fp, Of(fp, out)))
  {
    var checked;
    checked, st1, out := SegmentLoop(cfg, st, choices);
    SegmentParts(cfg, st, choices, checked, st1, out);
    CanPop(cfg, st, out);
    PopAllKeeps(st.buffered, out);
    assert Shown(st1) && st1.buffered == st.buffered && st1.recipe == st.recipe && st1.chunkNum == st.chunkNum;
    LeavesParts(st1, st.flight[1..], out, PopAll(st.buffered, out));
  }

  /** The loop over the checked segment. */
  lemma SegmentLoop(cfg: Config, st: State, choices: seq<Choice>)
      returns (checked: seq<Chunk>, st1: State, out: seq<Chunk>)
    requires StoreOk(cfg, st) && FlightOk(cfg, st) && LiveOk(st)
    requires st.flight != [] && |choices| == |st.flight[0]|
    ensures Checked(cfg, st) == Some(checked) && |checked| == |choices|
    ensures FilterAll(cfg, st, Recent(map[], map[]), checked, choices) == Some((st1, out))
    ensures FilteredOk(cfg, st, out, st1, out) && AllSettled(cfg, st, st1.open, out) && Placed(out)
    ensures |out| == |st.flight[0]|
    ensures forall j :: 0 <= j < |out| ==> out[j].fp == st.flight[0][j].fp && out[j].size == st.flight[0][j].size
  {
    SegmentPending(cfg, st);
    checked := Checked(cfg, st).value;
    FilterAllKeeps(cfg, st, Recent(map[], map[]), checked, choices);
    var r := FilterAll(cfg, st, Recent(map[], map[]), checked, choices).value;
    st1, out := r.0, r.1;
    FilteredRelabel(cfg, st, checked, st1, out);
  }

  function Checked(cfg: Config, st: State): Option<seq<Chunk>>
    requires st.flight != []
  {
    CheckBuffer(st.buffered, HarMarkedAll(cfg, st.inherited, st.flight[0]))
  }

  lemma SegmentParts(cfg: Config, st: State, choices: seq<Choice>, checked: seq<Chunk>, st1: State, out: seq<Chunk>)
    requires st.flight != [] && |choices| == |st.flight[0]| == |checked| && Checked(cfg, st) == Some(checked)
    requires FilterAll(cfg, st, Recent(map[], map[]), checked, choices) == Some((st1, out))
    ensures FilterSegment(cfg, st, choices) == SegmentLeaves(st1, st.flight[1..], out, PopAll(st1.buffered, out))
  {}

  lemma LeavesParts(st1: State, later: seq<seq<Chunk>>, out: seq<Chunk>, popped: Option<map<ChunkFp, seq<ContainerId>>>)
    requires popped.Some? && Placed(out)
    ensures SegmentLeaves(st1, later, out, popped)
      == Some(st1.(buffered := popped.value, chunkNum := st1.chunkNum - |out|, flight := later,
                   recipe := st1.recipe + Pointers(out)))
  {}

  lemma IdsOfPointers(s: seq<Chunk>)
    ensures PointerIds(Pointers(s)) == Ids(s)
  {
    forall c | c in s ensures c.id in PointerIds(Pointers(s)) {
      var j :| 0 <= j < |s| && s[j] == c;
      assert Pointers(s)[j] in Pointers(s);
    }
  }
}
