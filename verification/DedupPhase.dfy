/** The loops of index.c, filter_phase.c, cma.c and do_delete.c over mutable state, each proved against
    the functions of DedupSpec. A loop in which a C assert fires ends without a result; the phases that call
    it have the invariant of Backups, and prove that this never happens. */
module DedupPhase {
  import opened Common
  import opened Lru
  import opened DedupSpec
  import opened DedupSafety
  import opened FilterSafety
  import opened Backups

  /** Good, behind a quantifier so that it unfolds only where Shown(st) is stated. */
  ghost predicate Kept(cfg: Config, st: State) {
    forall x {:trigger Shown(x)} :: Shown(x) && x == st ==> Good(cfg, x)
  }

  lemma KeptInitially(cfg: Config)
    ensures Kept(cfg, Initial())
  {
    InitiallyGood(cfg);
  }

  lemma KeptBegin(cfg: Config, st: State, inherited: set<ContainerId>)
    requires Kept(cfg, st) && Enabled(cfg, st, Event.BeginBackup(inherited))
    ensures Kept(cfg, Begin(st, inherited))
  {
    assert Shown(st);
    BeginKeeps(cfg, st, inherited);
  }

  lemma KeptDedup(cfg: Config, st: State, s: seq<Chunk>)
    requires Kept(cfg, st) && st.running && forall c :: c in s ==> Untouched(c)
    ensures var r := DedupSegment(cfg, st, s); r.Some? && r.value.running && Kept(cfg, r.value)
    ensures Sound(cfg, st.(flight := st.flight + [[]]))
  {
    assert Shown(st);
    DedupKeeps(cfg, st, s);
    EmptySegmentJoins(cfg, st);
  }

  lemma KeptFilter(cfg: Config, st: State, choices: seq<Choice>)
    requires Kept(cfg, st) && st.running && st.flight != [] && |choices| == |st.flight[0]|
    ensures var r := FilterSegment(cfg, st, choices); r.Some? && r.value.running && Kept(cfg, r.value)
  {
    assert Shown(st);
    FilterKeeps(cfg, st, choices);
  }

  lemma KeptEnd(cfg: Config, st: State)
    requires Kept(cfg, st) && st.running && st.flight == []
    ensures Kept(cfg, End(cfg, st))
  {
    assert Shown(st);
    EndKeeps(cfg, st);
  }

  lemma KeptDelete(cfg: Config, st: State, upTo: int)
    requires Kept(cfg, st) && !st.running
    ensures Delete(cfg, st, upTo).Some? && Reclaimed(st.manifest, upTo) <= st.sealed.Keys
    ensures Kept(cfg, Delete(cfg, st, upTo).value) <==> CleanDelete(cfg, st, upTo)
  {
    assert Shown(st);
    DeleteKeeps(cfg, st, upTo);
    assert Shown(Delete(cfg, st, upTo).value);
  }

  /** On a reachable state no loop of filter_thread ends early. */
  lemma SegmentRuns(cfg: Config, st: State, choices: seq<Choice>)
      returns (checked: seq<Chunk>, st1: State, out: seq<Chunk>, st': State)
    requires Kept(cfg, st) && st.running && st.flight != [] && |choices| == |st.flight[0]|
    ensures Checked(cfg, st) == Some(checked) && |checked| == |choices|
    ensures FilterAll(cfg, st, Recent(map[], map[]), checked, choices) == Some((st1, out))
    ensures PopAll(st1.buffered, out).Some? && Placed(out)
    ensures st' == Left(st1, st.flight[1..], out, PopAll(st1.buffered, out).value)
    ensures FilterSegment(cfg, st, choices) == Some(st') && Kept(cfg, st') && st'.running
  {
    assert Shown(st);
    checked, st1, out := SegmentLoop(cfg, st, choices);
    KeptFilter(cfg, st, choices);
    SegmentParts(cfg, st, choices, checked, st1, out);
    st' := FilterSegment(cfg, st, choices).value;
    LeavesParts(st1, st.flight[1..], out, PopAll(st1.buffered, out));
  }

  function Left(st: State, later: seq<seq<Chunk>>, out: seq<Chunk>, popped: map<ChunkFp, seq<ContainerId>>): State {
    st.(buffered := popped, chunkNum := st.chunkNum - |out|, flight := later, recipe := st.recipe + Pointers(out))
  }

  function After<T>(before: seq<T>, rest: Option<seq<T>>): Option<seq<T>> {
    if rest.None? then None else Some(before + rest.value)
  }

  lemma AfterNothing<T>(rest: Option<seq<T>>)
    ensures After([], rest) == rest
  {
    if rest.Some? { assert [] + rest.value == rest.value; }
  }

  lemma CheckFrom(buffered: map<ChunkFp, seq<ContainerId>>, s: seq<Chunk>, i: nat, r: seq<Chunk>)
    requires i < |s|
    ensures var c := CheckChunk(buffered, s[i]);
      After(r, CheckBuffer(buffered, s[i..]))
      == if c.None? then None else After(r + [c.value], CheckBuffer(buffered, s[i + 1..]))
  {
    assert s[i..][1..] == s[i + 1..];
    var c, rest := CheckChunk(buffered, s[i]), CheckBuffer(buffered, s[i + 1..]);
    if c.Some? && rest.Some? { Regroup(r, [c.value], rest.value); }
  }

  function OutAfter(before: seq<Chunk>, rest: Option<(State, seq<Chunk>)>): Option<(State, seq<Chunk>)> {
    if rest.None? then None else Some((rest.value.0, before + rest.value.1))
  }

  lemma FilterFrom(cfg: Config, st: State, recent: Recent, s: seq<Chunk>, choices: seq<Choice>, i: nat, out: seq<Chunk>)
    requires |choices| == |s| && i < |s|
    ensures OutAfter(out, FilterAll(cfg, st, recent, s[i..], choices[i..]))
      == if !MayFilter(cfg, st, recent, s[i], choices[i]) then None
         else
           var f := FilterChunk(cfg, st, recent, s[i], choices[i]);
           if f.chunk.id == TEMPORARY_ID then None
           else OutAfter(out + [f.chunk], FilterAll(cfg, f.state, f.recent, s[i + 1..], choices[i + 1..]))
  {
    assert s[i..][1..] == s[i + 1..] && choices[i..][1..] == choices[i + 1..];
    if MayFilter(cfg, st, recent, s[i], choices[i]) {
      var f := FilterChunk(cfg, st, recent, s[i], choices[i]);
      var rest := FilterAll(cfg, f.state, f.recent, s[i + 1..], choices[i + 1..]);
      if rest.Some? { Regroup(out, [f.chunk], rest.value.1); }
    }
  }

  class Pipeline {
    const cfg: Config
    var buffered: map<ChunkFp, seq<ContainerId>>
    var chunkNum: int
    var flight: seq<seq<Chunk>>
    var open: Option<Container>
    var sealed: map<ContainerId, set<ChunkFp>>
    var next: ContainerId
    var kv: map<Key, ContainerId>
    const cache: LruCache<Meta>
    const aware: LruCache<ContainerId>
    var inherited: set<ContainerId>
    ghost var start: ContainerId
    ghost var stream: seq<ChunkFp>
    var recipe: seq<Pointer>
    var monitor: set<ContainerId>
    ghost var running: bool
    var job: int
    var manifest: map<ContainerId, int>
    var recipes: map<int, seq<Pointer>>
    ghost var streams: map<int, seq<ChunkFp>>
    ghost var history: seq<Sealing>
    ghost var deletedUpTo: int

    ghost function Abs(): State
      reads this, cache, aware
    {
      State(buffered, chunkNum, flight, open, sealed, next, kv, cache.elemQueue, stream, recipe, monitor,
            aware.elemQueue, inherited, start, running, job, manifest, recipes, streams, history, deletedUpTo)
    }

    ghost predicate Wired()
      reads this, cache, aware
    {
      && cache.Valid() && cache.maxSize == cfg.cacheSize
      && aware.Valid() && aware.maxSize == cfg.restoreCache
      && (aware as object) != cache
    }

    ghost predicate Valid()
      reads this, cache, aware
    {
      Wired() && Kept(cfg, Abs())
    }

    constructor (config: Config)
      ensures Valid() && cfg == config && fresh(cache) && fresh(aware) && Abs() == Initial()
    {
      cfg := config;
      cache := new LruCache(config.cacheSize);
      aware := new LruCache(config.restoreCache);
      buffered, chunkNum, flight, open, sealed, next, kv := map[], 0, [], None, map[], 0, map[];
      stream, recipe, monitor, inherited, start := [], [], {}, {}, 0;
      running, job, manifest, recipes, streams, history, deletedUpTo := false, 0, map[], map[], map[], [], -1;
      new;
      KeptInitially(cfg);
    }

    method InitPhases(sparse: set<ContainerId>)
      requires Wired()
      modifies this`running, this`stream, this`recipe, this`monitor, this`inherited, this`start, aware
      ensures Wired() && running && stream == [] && recipe == [] && monitor == {} && aware.elemQueue == []
      ensures inherited == sparse && start == next && cache.elemQueue == old(cache.elemQueue)
    {
      running, stream, recipe, monitor := true, [], [], {};
      inherited, start := sparse, next;
      aware.Clear();
    }

    /** init_har, init_restore_aware, and the empty structures that a process begins with. */
    method BeginBackup(sparse: set<ContainerId>)
      requires Valid() && Enabled(cfg, Abs(), Event.BeginBackup(sparse))
      modifies this, aware
      ensures Valid() && Abs() == Begin(old(Abs()), sparse)
    {
      KeptBegin(cfg, Abs(), sparse);
      InitPhases(sparse);
    }

    // ---- dedup

    /** fingerprint_cache_lookup. */
    method CacheLookup(c: Chunk) returns (r: Chunk)
      requires Wired()
      modifies cache
      ensures Wired() && (cache.elemQueue, r) == FromCache(old(cache.elemQueue), c)
    {
      var hit := HasFp(c.fp);
      var m := cache.Lookup(hit);
      r := if m.Some? then c.(id := m.value.id, dup := true) else c;
    }

    /** The key-value store is asked, the container it names is prefetched, the cache is asked again. */
    method StoreLookup(c: Chunk) returns (r: Chunk)
      requires Wired() && (KeyOf(cfg, c.fp) in kv ==> kv[KeyOf(cfg, c.fp)] in sealed)
      modifies cache
      ensures Wired() && (cache.elemQueue, r) == FromStore(cfg, sealed, kv, old(cache.elemQueue), c)
    {
      var key := KeyOf(cfg, c.fp);
      r := c;
      if key in kv {
        cache.Insert(Meta(kv[key], sealed[kv[key]]));
        r := CacheLookup(c);
      }
    }

    method IdentifyChunk(chunk: Chunk) returns (c: Chunk)
      requires Wired() && CanIdentify(cfg, Abs(), chunk)
      modifies cache
      ensures Wired() && (cache.elemQueue, c) == Identify(cfg, old(Abs()), chunk)
    {
      c := chunk;
      if open.Some? && c.fp in open.value.fps {
        c := c.(id := open.value.id, dup := true, denied := true);
      }
      if c.fp in buffered && !c.dup {
        c := c.(id := buffered[c.fp][0], dup := true);
      }
      if !c.dup {
        c := CacheLookup(c);
        if !c.dup {
          c := StoreLookup(c);
        }
      }
    }

    /** One turn of index_lookup_base. */
    method LookupChunk(chunk: Chunk)
      requires Wired() && flight != [] && CanIdentify(cfg, Abs(), chunk)
      modifies this, cache
      ensures Wired() && Abs() == DedupChunk(cfg, old(Abs()), chunk)
    {
      var c := IdentifyChunk(chunk);
      JoinBuffer(c);
      assert c.fp == chunk.fp;
    }

    /** The chunk joins its fingerprint's queue and the segment. */
    method JoinBuffer(c: Chunk)
      requires flight != []
      modifies this`buffered, this`chunkNum, this`flight, this`stream
      ensures buffered == old(buffered)[c.fp := (if c.fp in old(buffered) then old(buffered)[c.fp] else []) + [c.id]]
      ensures var n := |old(flight)| - 1; flight == old(flight)[..n] + [old(flight)[n] + [c]]
      ensures chunkNum == old(chunkNum) + 1 && stream == old(stream) + [c.fp]
    {
      var tq := if c.fp in buffered then buffered[c.fp] else [];
      buffered := buffered[c.fp := tq + [c.id]];
      chunkNum := chunkNum + 1;
      var n := |flight| - 1;
      flight := flight[..n] + [flight[n] + [c]];
      stream := stream + [c.fp];
    }

    /** index_lookup on a segment: it neither peeks an empty queue nor fetches a container that is gone. */
    method IndexLookup(s: seq<Chunk>)
      requires Valid() && running && forall c :: c in s ==> Untouched(c)
      modifies this, cache
      ensures Valid() && running && Some(Abs()) == DedupSegment(cfg, old(Abs()), s)
    {
      KeptDedup(cfg, Abs(), s);
      flight := flight + [[]];
      ghost var st0 := Abs();
      assert s[0..] == s;
      var i := 0;
      while i < |s|
        invariant 0 <= i <= |s| && Wired() && flight != [] && Sound(cfg, Abs())
        invariant DedupAll(cfg, st0, s) == DedupAll(cfg, Abs(), s[i..])
      {
        assert s[i..][1..] == s[i + 1..];
        assert s[i] in s;
        OneFed(cfg, Abs(), s[i]);
        LookupChunk(s[i]);
        i := i + 1;
      }
    }

    // ---- filter

    /** The rewrite thread on a segment: har_check on every duplicate. */
    method HarCheck(s: seq<Chunk>) returns (r: seq<Chunk>)
      ensures r == HarMarkedAll(cfg, inherited, s)
    {
      r := [];
      while |r| < |s|
        invariant |r| <= |s| && forall i :: 0 <= i < |r| ==> r[i] == HarMarked(cfg, inherited, s[i])
      {
        var c := s[|r|];
        if cfg.har && c.dup {
          if c.id in inherited { c := c.(sparse := true); }
        }
        r := r + [c];
      }
    }

    /** One turn of index_check_buffer; None when assert(bq) fires. */
    method CheckTurn(chunk: Chunk) returns (r: Option<Chunk>)
      ensures r == CheckChunk(buffered, chunk)
    {
      var c := chunk;
      if (c.dup && c.id == TEMPORARY_ID) || c.outOfOrder || c.sparse {
        if c.fp !in buffered || buffered[c.fp] == [] { return None; }
        var be := buffered[c.fp][0];
        if be > c.id {
          if c.id != TEMPORARY_ID { c := c.(denied := true); }
          c := c.(id := be);
        }
      }
      r := Some(c);
    }

    /** index_check_buffer. */
    method IndexCheckBuffer(s: seq<Chunk>) returns (r: Option<seq<Chunk>>)
      ensures r == CheckBuffer(buffered, s)
    {
      var done := [];
      var i := 0;
      assert s[0..] == s;
      AfterNothing(CheckBuffer(buffered, s));
      while i < |s|
        invariant 0 <= i <= |s| && CheckBuffer(buffered, s) == After(done, CheckBuffer(buffered, s[i..]))
      {
        CheckFrom(buffered, s, i, done);
        var c := CheckTurn(s[i]);
        if c.None? { return None; }
        done := done + [c.value];
        i := i + 1;
      }
      assert done + [] == done;
      r := Some(done);
    }

    /** index_update: every feature of the container. */
    method IndexUpdate(features: set<Key>, id: ContainerId)
      modifies this`kv
      ensures kv == old(kv) + map k | k in features :: id
    {
      var left := features;
      while left != {}
        invariant left <= features
        invariant kv == old(kv) + map k | k in features - left :: id
      {
        var k := IterNext(left);
        kv := kv[k := id];
        left := left - {k};
      }
    }

    /** index_update and write_container_async. */
    method SealOpen()
      requires open.Some?
      modifies this`kv, this`sealed, this`open, this`history
      ensures var o := old(open).value;
        && kv == old(kv) + (map k | k in cfg.sample(o.id, o.listed) :: o.id) && open == None
        && sealed == old(sealed)[o.id := o.fps] && history == old(history) + [Sealing(o.id, o.listed)]
    {
      history := history + [Sealing(open.value.id, open.value.listed)];
      IndexUpdate(cfg.sample(open.value.id, open.value.listed), open.value.id);
      sealed := sealed[open.value.id := open.value.fps];
      open := None;
    }

    /** create_container. */
    method CreateContainer()
      modifies this`open, this`next
      ensures open == Some(Container(old(next), {}, [], 0, 0)) && next == old(next) + 1
    {
      open := Some(Container(next, {}, [], 0, 0));
      next := next + 1;
    }

    /** The container that takes the chunk; one that is full is handed over. */
    method MakeRoom(size: nat)
      modifies this`kv, this`sealed, this`open, this`next, this`history
      ensures Abs() == Room(cfg, old(Abs()), size)
    {
      if open.None? { CreateContainer(); }
      ghost var st1 := Abs();
      assert st1 == if old(open).None? then Create(old(Abs())) else old(Abs());
      if Overflow(open.value, size) {
        SealOpen();
        assert Abs() == Seal(cfg, st1);
        CreateContainer();
      }
    }

    /** add_chunk_to_container. */
    method AddChunkToContainer(c: Chunk) returns (added: bool)
      requires open.Some? && !Overflow(open.value, c.size)
      modifies this`open
      ensures Abs() == AddChunk(old(Abs()), c) && added == !InOpen(old(open), c.fp)
    {
      var o := open.value;
      if c.fp in o.fps { return false; }
      open := Some(Container(o.id, o.fps + {c.fp}, o.listed + [c.fp], o.dataSize + c.size, o.chunkNum + 1));
      added := true;
    }

    /** A duplicate without an id, or of a chunk that this segment has rewritten, takes the new id; None when
        assert(ruc) fires. */
    method ResolveChunk(chunk: Chunk, recent: Recent) returns (r: Option<Chunk>)
      ensures r == if CanResolve(recent, chunk) then Some(Resolve(recent, chunk)) else None
    {
      var c := chunk;
      if c.dup && c.id == TEMPORARY_ID {
        if c.fp !in recent.unique { return None; }
        c := c.(id := recent.unique[c.fp]);
      }
      if c.fp in recent.rewritten {
        c := c.(id := recent.rewritten[c.fp], denied := true);
      }
      r := Some(c);
    }

    /** The chunk goes into a container, and the table for its kind remembers it; None when it does not fit an
        empty container, or when an exact index with rewrite algorithm NO finds it there already. */
    method WriteTurn(chunk: Chunk, recent: Recent) returns (r: Option<(Chunk, Recent)>)
      modifies this`kv, this`sealed, this`open, this`next, this`history
      ensures r.Some? <==> MayDecide(cfg, old(Abs()), chunk, true)
      ensures r.Some? ==> Filtered(Abs(), r.value.1, r.value.0) == Decided(cfg, old(Abs()), recent, chunk, true)
    {
      MakeRoom(chunk.size);
      if Overflow(open.value, chunk.size) { return None; }
      var added := AddChunkToContainer(chunk);
      var c, recent' := chunk.(id := open.value.id), recent;
      if added {
        if !c.dup { recent' := recent.(unique := recent.unique[c.fp := c.id]); }
        else { recent' := recent.(rewritten := recent.rewritten[c.fp := c.id]); }
      } else if cfg.exact && !cfg.rewriting {
        return None;
      }
      r := Some((c, recent'));
    }

    /** har_monitor_update and restore_aware_update. */
    method NoteTurn(id: ContainerId)
      requires Wired()
      modifies this`monitor, aware
      ensures Wired() && Abs() == Noted(cfg, old(Abs()), id)
    {
      monitor := monitor + {id};
      var hit := aware.Lookup(ById(id));
      HitsById(old(aware.elemQueue), id);
      if hit.None? { aware.Insert(id); }
    }

    /** restore_aware_contains, for the cache-aware filter. */
    method IsCached(c: Chunk) returns (cached: bool)
      ensures cached == InCache(cfg, Abs(), c)
    {
      cached := false;
      if cfg.cacheAware {
        var hit := aware.LookupWithoutUpdate(ById(c.id));
        HitsById(aware.elemQueue, c.id);
        cached := hit.Some?;
      }
    }

    /** The decision to write, and its effect. */
    method DecideTurn(c: Chunk, recent: Recent, choice: Choice, inCache: bool) returns (r: Option<(Chunk, Recent)>)
      modifies this`kv, this`sealed, this`open, this`next, this`history
      ensures r.Some? <==> MayDecide(cfg, old(Abs()), c, Written(c, choice, inCache))
      ensures r.Some? ==>
        Filtered(Abs(), r.value.1, r.value.0) == Decided(cfg, old(Abs()), recent, c, Written(c, choice, inCache))
    {
      r := Some((c, recent));
      if !c.dup || (!c.denied && (c.sparse || (choice.enableRewrite && c.outOfOrder && !inCache))) {
        r := WriteTurn(c, recent);
      }
    }

    /** One turn of the filter loop; None when one of its asserts fires. */
    method FilterTurn(chunk: Chunk, recent: Recent, choice: Choice) returns (r: Option<(Chunk, Recent)>)
      requires Wired()
      modifies this`kv, this`sealed, this`open, this`next, this`history, this`monitor, aware
      ensures Wired() && (r.Some? <==> MayFilter(cfg, old(Abs()), recent, chunk, choice))
      ensures r.Some? ==> Filtered(Abs(), r.value.1, r.value.0) == FilterChunk(cfg, old(Abs()), recent, chunk, choice)
    {
      var inCache := IsCached(chunk);
      if inCache && chunk.id == TEMPORARY_ID { return None; }
      var resolved := ResolveChunk(chunk, recent);
      if resolved.None? { return None; }
      r := DecideTurn(resolved.value, recent, choice, inCache);
      if r.Some? { NoteTurn(r.value.0.id); }
    }

    /** The filter loop over a segment; None when one of its asserts fires. */
    method FilterChunks(s: seq<Chunk>, choices: seq<Choice>) returns (out: Option<seq<Chunk>>)
      requires Wired() && |choices| == |s|
      modifies this`kv, this`sealed, this`open, this`next, this`history, this`monitor, aware
      ensures Wired()
      ensures FilterAll(cfg, old(Abs()), Recent(map[], map[]), s, choices)
           == if out.Some? then Some((Abs(), out.value)) else None
    {
      var recent, done, i := Recent(map[], map[]), [], 0;
      ghost var goal := FilterAll(cfg, Abs(), recent, s, choices);
      assert s[0..] == s && choices[0..] == choices;
      assert goal.Some? ==> [] + goal.value.1 == goal.value.1;
      while i < |s|
        invariant 0 <= i <= |s| && Wired()
        invariant goal == OutAfter(done, FilterAll(cfg, Abs(), recent, s[i..], choices[i..]))
      {
        FilterFrom(cfg, Abs(), recent, s, choices, i, done);
        var r := FilterTurn(s[i], recent, choices[i]);
        if r.None? || r.value.0.id == TEMPORARY_ID { return None; }
        assert goal == OutAfter(done + [r.value.0], FilterAll(cfg, Abs(), r.value.1, s[i + 1..], choices[i + 1..]));
        recent, done, i := r.value.1, done + [r.value.0], i + 1;
      }
      assert done + [] == done;
      out := Some(done);
    }

    /** One turn of index_update_buffer. */
    method UpdateTurn(c: Chunk)
      requires c.fp in buffered && buffered[c.fp] != []
      modifies this`buffered, this`chunkNum
      ensures buffered == PopBuffer(old(buffered), c) && chunkNum == old(chunkNum) - 1
    {
      var bq := buffered[c.fp][1..];
      if |bq| == 0 {
        buffered := buffered - {c.fp};
      } else {
        var j := 0;
        while j < |bq|
          invariant 0 <= j <= |bq| == |old(buffered)[c.fp]| - 1
          invariant forall k :: 0 <= k < j ==> bq[k] == c.id
        {
          bq := bq[j := c.id];
          j := j + 1;
        }
        assert bq == seq(|bq|, _ => c.id);
        buffered := buffered[c.fp := bq];
      }
      chunkNum := chunkNum - 1;
    }

    /** index_update_buffer; false when a chunk has no id or no queue. */
    method IndexUpdateBuffer(s: seq<Chunk>) returns (ok: bool)
      modifies this`buffered, this`chunkNum
      ensures ok <==> PopAll(old(buffered), s).Some?
      ensures ok ==> Some(buffered) == PopAll(old(buffered), s) && chunkNum == old(chunkNum) - |s|
    {
      var i := 0;
      assert s[0..] == s;
      while i < |s|
        invariant 0 <= i <= |s| && chunkNum == old(chunkNum) - i
        invariant PopAll(buffered, s[i..]) == PopAll(old(buffered), s)
      {
        assert s[i..][1..] == s[i + 1..];
        if s[i].id == TEMPORARY_ID || s[i].fp !in buffered || buffered[s[i].fp] == [] { return false; }
        UpdateTurn(s[i]);
        i := i + 1;
      }
      ok := true;
    }

    /** The recipe entries of a segment; false when assert(cp.id >= 0) fires. */
    method WriteRecipe(s: seq<Chunk>) returns (ok: bool)
      modifies this`recipe
      ensures ok <==> Placed(s)
      ensures ok ==> recipe == old(recipe) + Pointers(s)
    {
      var i := 0;
      while i < |s|
        invariant 0 <= i <= |s| && recipe == old(recipe) + Pointers(s)[..i]
        invariant forall j :: 0 <= j < i ==> s[j].id >= 0
      {
        if s[i].id < 0 {
          assert s[i] in s;
          return false;
        }
        recipe := recipe + [Pointer(s[i].fp, s[i].id, s[i].size)];
        i := i + 1;
      }
      ok := true;
    }

    /** One segment in filter_thread, from index_check_buffer to the recipe: none of its asserts fires. */
    method FilterOldestSegment(choices: seq<Choice>)
      requires Valid() && running && flight != [] && |choices| == |flight[0]|
      modifies this, aware
      ensures Valid() && running && Some(Abs()) == FilterSegment(cfg, old(Abs()), choices)
    {
      ghost var c, st1, out, st' := SegmentRuns(cfg, Abs(), choices);
      var filtered := FilterFlight(choices, c);
      assert filtered == Some(out) && Abs() == st1;
      LeaveBuffer(filtered.value);
      assert Abs() == st';
    }

    /** The oldest segment, checked and filtered. */
    method FilterFlight(choices: seq<Choice>, ghost checked: seq<Chunk>) returns (out: Option<seq<Chunk>>)
      requires Wired() && flight != [] && Checked(cfg, Abs()) == Some(checked) && |choices| == |checked|
      modifies this`kv, this`sealed, this`open, this`next, this`history, this`monitor, aware
      ensures Wired()
      ensures FilterAll(cfg, old(Abs()), Recent(map[], map[]), checked, choices)
           == if out.Some? then Some((Abs(), out.value)) else None
    {
      var marked := HarCheck(flight[0]);
      var r := IndexCheckBuffer(marked);
      assert r == Some(checked);
      out := FilterChunks(r.value, choices);
    }

    /** The segment leaves the index buffer and enters the recipe. */
    method LeaveBuffer(out: seq<Chunk>)
      requires flight != [] && PopAll(buffered, out).Some? && Placed(out)
      modifies this`buffered, this`chunkNum, this`recipe, this`flight
      ensures Abs() == Left(old(Abs()), old(flight)[1..], out, PopAll(old(buffered), out).value)
    {
      var popped := IndexUpdateBuffer(out);
      assert popped;
      var written := WriteRecipe(out);
      assert written;
      flight := flight[1..];
    }

    // ---- the end of a backup, and deletion

    /** update_manifest. */
    method UpdateManifest()
      modifies this`manifest
      ensures manifest == old(manifest) + map id | id in monitor :: job
    {
      var left := monitor;
      while left != {}
        invariant left <= monitor
        invariant manifest == old(manifest) + map id | id in monitor - left :: job
      {
        var id := IterNext(left);
        manifest := manifest[id := job];
        left := left - {id};
      }
    }

    method CloseLast()
      modifies this`kv, this`sealed, this`open, this`history
      ensures Abs() == Closed(cfg, old(Abs()))
    {
      if open.Some? && open.value.chunkNum != 0 {
        SealOpen();
      }
      open := None;
    }

    /** The last container, close_har, and the end of the process. */
    method EndBackup()
      requires Valid() && running && flight == []
      modifies this, cache
      ensures Valid() && !running && Abs() == End(cfg, old(Abs()))
    {
      KeptEnd(cfg, Abs());
      CloseLast();
      UpdateManifest();
      EndProcess();
    }

    method EndProcess()
      requires Wired()
      modifies this`running, this`streams, this`recipes, this`job, cache
      ensures Wired() && !running && cache.elemQueue == [] && aware.elemQueue == old(aware.elemQueue)
      ensures recipes == old(recipes)[old(job) := recipe] && streams == old(streams)[old(job) := stream]
      ensures job == old(job) + 1
    {
      cache.Clear();
      recipes := recipes[job := recipe];
      running, streams := false, streams[job := stream];
      job := job + 1;
    }

    /** trunc_manifest. */
    method TruncManifest(upTo: int) returns (gone: set<ContainerId>)
      modifies this`manifest
      ensures gone == Reclaimed(old(manifest), upTo) && manifest == old(manifest) - gone
    {
      gone := {};
      var kept: map<ContainerId, int> := map[];
      var left := manifest.Keys;
      while left != {}
        invariant left <= manifest.Keys && manifest == old(manifest)
        invariant gone == set id | id in manifest.Keys - left && manifest[id] <= upTo
        invariant kept == map id | id in manifest.Keys - left && manifest[id] > upTo :: manifest[id]
      {
        var id := IterNext(left);
        if manifest[id] <= upTo {
          gone := gone + {id};
        } else {
          kept := kept[id := manifest[id]];
        }
        left := left - {id};
      }
      manifest := kept;
    }

    /** kvstore_delete with values of length one: the pair is gone, every other one stays. */
    method KvDelete(key: Key, id: ContainerId)
      modifies this`kv
      ensures kv == map k | k in old(kv) && !(k == key && old(kv)[k] == id) :: old(kv)[k]
    {
      if key in kv && kv[key] == id {
        kv := kv - {key};
      }
    }

    /** container_meta_foreach with delete_an_entry. */
    method DeleteEntries(id: ContainerId)
      requires id in sealed
      modifies this`kv
      ensures kv == map k | k in old(kv) && !(old(kv)[k] == id && k in KeysOf(cfg, sealed[id])) :: old(kv)[k]
    {
      var left := sealed[id];
      while left != {}
        invariant left <= sealed[id]
        invariant kv == map k | k in old(kv) && !(old(kv)[k] == id && k in KeysOf(cfg, sealed[id] - left)) :: old(kv)[k]
      {
        var fp := IterNext(left);
        assert KeysOf(cfg, sealed[id] - (left - {fp})) == KeysOf(cfg, sealed[id] - left) + {KeyOf(cfg, fp)} by {
          assert sealed[id] - (left - {fp}) == (sealed[id] - left) + {fp};
        }
        KvDelete(KeyOf(cfg, fp), id);
        left := left - {fp};
      }
    }

    /** Every reclaimed container in turn. */
    method DeleteAll(gone: set<ContainerId>)
      requires gone <= sealed.Keys
      modifies this`kv
      ensures kv == StoreWithout(cfg, old(kv), sealed, gone)
    {
      var left := gone;
      while left != {}
        invariant left <= gone
        invariant kv == StoreWithout(cfg, old(kv), sealed, gone - left)
      {
        var id := IterNext(left);
        DeleteEntries(id);
        left := left - {id};
      }
      assert gone - left == gone;
    }

    /** do_delete, physical locality: the metadata of every reclaimed container can be read, and what is left
        is whole if and only if the deletion is clean. */
    method DoDelete(upTo: int)
      requires Valid() && !running
      modifies this`manifest, this`kv, this`sealed, this`deletedUpTo
      ensures Some(Abs()) == Delete(cfg, old(Abs()), upTo) && !running
      ensures Valid() <==> CleanDelete(cfg, old(Abs()), upTo)
    {
      ghost var st := Abs();
      KeptDelete(cfg, st, upTo);
      DeleteBackup(upTo);
    }

    method DeleteBackup(upTo: int)
      requires Reclaimed(manifest, upTo) <= sealed.Keys
      modifies this`manifest, this`kv, this`sealed, this`deletedUpTo
      ensures var gone := Reclaimed(old(manifest), upTo);
        && manifest == old(manifest) - gone && sealed == old(sealed) - gone
        && kv == StoreWithout(cfg, old(kv), old(sealed), gone)
      ensures deletedUpTo == if upTo > old(deletedUpTo) then upTo else old(deletedUpTo)
    {
      var gone := TruncManifest(upTo);
      DeleteAll(gone);
      sealed := sealed - gone;
      deletedUpTo := if upTo > deletedUpTo then upTo else deletedUpTo;
    }
  }
}
