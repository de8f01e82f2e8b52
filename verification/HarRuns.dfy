/** What history-aware rewriting is for, over whole runs: whatever other rewriting there is, a backup refers to no
    container that the previous backup listed as sparse. */
module HarRuns {
  import opened Common
  import opened DedupSpec
  import opened DedupSafety
  import opened FilterSafety
  import opened Backups
  import Decisions

  // ---- while chunks are in flight

  /** An id from before this backup tolerates no other such id, and no temporary one. */
  predicate Agree(start: ContainerId, x: ContainerId, y: ContainerId) {
    0 <= x < start && y < start ==> x == y
  }

  /** The chunks of one fingerprint in flight, and the head of their queue, have at most one id from before this backup,
      and then no temporary one; only chunks of this backup's containers are denied. */
  ghost predicate OneOld(st: State, fp: ChunkFp, p: seq<Chunk>) {
    && (forall i, j :: 0 <= i < |p| && 0 <= j < |p| ==> Agree(st.start, p[i].id, p[j].id))
    && (fp in st.buffered && st.buffered[fp] != [] ==>
          forall i :: 0 <= i < |p| ==>
            Agree(st.start, p[i].id, st.buffered[fp][0]) && Agree(st.start, st.buffered[fp][0], p[i].id))
    && (forall i :: 0 <= i < |p| && p[i].denied ==> p[i].id >= st.start)
  }

  ghost predicate OldOk(st: State) {
    forall fp :: OneOld(st, fp, Of(fp, Flat(st.flight)))
  }

  // ---- dedup

  lemma OneJoins(cfg: Config, st: State, c: Chunk, fp: ChunkFp)
    requires StoreOk(cfg, st) && FlightOk(cfg, st) && OldOk(st) && Untouched(c) && st.flight != []
    requires CanIdentify(cfg, st, c)
    ensures var st' := DedupChunk(cfg, st, c); OneOld(st', fp, Of(fp, Flat(st'.flight)))
  {
    var st', r, p := DedupChunk(cfg, st, c), Identify(cfg, st, c).1, Of(fp, Flat(st.flight));
    FlightGrows(st, r);
    OfAppend(fp, Flat(st.flight), [r]);
    assert OneOld(st, fp, p) && QueueOk(cfg, st, fp, p);
    assert Of(fp, [r]) == if r.fp == fp then [r] else [];
    FoundNew(cfg, st, c);
    if fp == c.fp {
      JoinsOld(st, st', p, r);
    } else {
      assert p + [] == p;
    }
  }

  /** The id that a lookup gives a chunk which others in flight precede is that of the open container, or the head of
      their queue. */
  lemma FoundNew(cfg: Config, st: State, c: Chunk)
    requires ContainersOk(st) && Untouched(c) && CanIdentify(cfg, st, c)
    ensures var r := Identify(cfg, st, c).1;
      && r.fp == c.fp && (r.denied ==> r.id >= st.start)
      && (c.fp in st.buffered ==> r.id >= st.start || r.id == st.buffered[c.fp][0])
  {
    Decisions.LookupNames(cfg, st, c);
  }

  lemma JoinsOld(st: State, st': State, p: seq<Chunk>, r: Chunk)
    requires OneOld(st, r.fp, p) && st'.start == st.start && (r.denied ==> r.id >= st.start)
    requires r.fp in st.buffered <==> p != []
    requires r.fp in st.buffered ==> st.buffered[r.fp] != [] && (r.id >= st.start || r.id == st.buffered[r.fp][0])
    requires r.fp in st'.buffered && st'.buffered[r.fp] != []
    requires st'.buffered[r.fp][0] == if r.fp in st.buffered then st.buffered[r.fp][0] else r.id
    ensures OneOld(st', r.fp, p + [r])
  {}

  lemma {:induction false} DedupOld(cfg: Config, st: State, s: seq<Chunk>)
    requires StoreOk(cfg, st) && FlightOk(cfg, st) && OldOk(st) && st.flight != [] && forall c :: c in s ==> Untouched(c)
    requires DedupAll(cfg, st, s).Some?
    ensures OldOk(DedupAll(cfg, st, s).value)
    decreases |s|
  {
    if s != [] {
      assert s[0] in s;
      DedupChunkKeeps(cfg, st, s[0]);
      forall fp ensures OneOld(DedupChunk(cfg, st, s[0]), fp, Of(fp, Flat(DedupChunk(cfg, st, s[0]).flight))) {
        OneJoins(cfg, st, s[0], fp);
      }
      DedupOld(cfg, DedupChunk(cfg, st, s[0]), s[1..]);
    }
  }

  lemma SegmentOld(cfg: Config, st: State, s: seq<Chunk>)
    requires Good(cfg, st) && st.running && OldOk(st) && forall c :: c in s ==> Untouched(c)
    requires DedupSegment(cfg, st, s).Some?
    ensures OldOk(DedupSegment(cfg, st, s).value)
  {
    var st0 := st.(flight := st.flight + [[]]);
    EmptySegmentJoins(cfg, st);
    assert Shown(st0);
    FlatSnoc(st.flight, []);
    assert Flat(st0.flight) == Flat(st.flight);
    forall fp ensures OneOld(st0, fp, Of(fp, Flat(st0.flight))) { assert OneOld(st, fp, Of(fp, Flat(st.flight))); }
    DedupOld(cfg, st0, s);
  }

  // ---- the filter loop

  /** The ids in the tables, and that of the open container, are of this backup. */
  predicate RecentNew(st: State, recent: Recent) {
    && (forall fp :: fp in recent.unique ==> recent.unique[fp] >= st.start)
    && (forall fp :: fp in recent.rewritten ==> recent.rewritten[fp] >= st.start)
    && (st.open.Some? ==> st.open.value.id >= st.start) && st.next >= st.start
    && forall id :: id in st.inherited ==> 0 <= id < st.start
  }

  /** A chunk of an inherited sparse container is marked, and may be rewritten. */
  predicate WillMove(cfg: Config, st: State, c: Chunk) {
    (c.id in Sparse(cfg, st) ==> c.sparse && !c.denied) && (!c.dup ==> c.id == TEMPORARY_ID)
  }

  /** What one chunk leaves with: an id of this backup, or the one it came with, but not a sparse container's. */
  ghost predicate Moved(cfg: Config, st: State, c: Chunk, id: ContainerId) {
    (id >= st.start || id == c.id) && id !in Sparse(cfg, st)
  }

  predicate SameStart(st: State, st': State) {
    st'.start == st.start && st'.inherited == st.inherited
  }

  lemma RoomNew(cfg: Config, st: State, recent: Recent, size: nat)
    requires RecentNew(st, recent)
    ensures var st' := Room(cfg, st, size); RecentNew(st', recent) && SameStart(st, st')
  {
    var st1 := if st.open.None? then Create(st) else st;
    assert RecentNew(st1, recent) && SameStart(st, st1);
    if Overflow(st1.open.value, size) {
      assert RecentNew(Seal(cfg, st1), recent) && SameStart(st1, Seal(cfg, st1));
    }
  }

  lemma DecidedNew(cfg: Config, st: State, recent: Recent, c: Chunk, written: bool)
    requires RecentNew(st, recent)
    ensures var f := Decided(cfg, st, recent, c, written);
      && RecentNew(f.state, f.recent) && SameStart(st, f.state)
      && (if written then f.chunk == c.(id := f.chunk.id) && f.chunk.id >= st.start else f.chunk == c)
  {
    if written { RoomNew(cfg, st, recent, c.size); }
  }

  lemma TurnMoves(cfg: Config, st: State, recent: Recent, c: Chunk, choice: Choice)
    requires MayFilter(cfg, st, recent, c, choice) && RecentNew(st, recent) && WillMove(cfg, st, c)
    ensures var f := FilterChunk(cfg, st, recent, c, choice);
      RecentNew(f.state, f.recent) && SameStart(st, f.state) && Moved(cfg, st, c, f.chunk.id) && f.chunk.fp == c.fp
  {
    var c1 := Resolve(recent, c);
    Decisions.ResolvedId(recent, c);
    DecidedNew(cfg, st, recent, c1, Written(c1, choice, InCache(cfg, st, c)));
  }

  lemma {:induction false} LoopMoves(cfg: Config, st: State, recent: Recent, r: seq<Chunk>, choices: seq<Choice>)
    requires |choices| == |r| && FilterAll(cfg, st, recent, r, choices).Some? && RecentNew(st, recent)
    requires forall j :: 0 <= j < |r| ==> WillMove(cfg, st, r[j])
    ensures var (st', out) := FilterAll(cfg, st, recent, r, choices).value;
      AllMoved(cfg, st, r, out)
    decreases |r|
  {
    if r != [] {
      TurnMoves(cfg, st, recent, r[0], choices[0]);
      var f := FilterChunk(cfg, st, recent, r[0], choices[0]);
      LoopMoves(cfg, f.state, f.recent, r[1..], choices[1..]);
      MovedCons(cfg, st, f.state, r, f.chunk, FilterAll(cfg, f.state, f.recent, r[1..], choices[1..]).value.1);
    }
  }

  ghost predicate AllMoved(cfg: Config, st: State, r: seq<Chunk>, out: seq<Chunk>) {
    |out| == |r| && forall j :: 0 <= j < |r| ==> Moved(cfg, st, r[j], out[j].id) && out[j].fp == r[j].fp
  }

  lemma MovedCons(cfg: Config, st: State, mid: State, r: seq<Chunk>, c: Chunk, rest: seq<Chunk>)
    requires r != [] && SameStart(st, mid) && Moved(cfg, st, r[0], c.id) && c.fp == r[0].fp && AllMoved(cfg, mid, r[1..], rest)
    ensures AllMoved(cfg, st, r, [c] + rest)
  {
    forall j | 0 < j < |r| ensures Moved(cfg, st, r[j], ([c] + rest)[j].id) && ([c] + rest)[j].fp == r[j].fp {
      assert Moved(cfg, mid, r[1..][j - 1], rest[j - 1].id);
    }
  }

  // ---- the oldest segment

  /** After har_check and index_check_buffer. */
  lemma CheckedMoves(cfg: Config, st: State, j: nat)
    requires StoreOk(cfg, st) && FlightOk(cfg, st) && OldOk(st) && st.flight != [] && j < |st.flight[0]|
    ensures var c := st.flight[0][j];
      var r := CheckChunk(st.buffered, HarMarked(cfg, st.inherited, c));
      r.Some? && r.value.fp == c.fp && WillMove(cfg, st, r.value) && (r.value.id >= st.start || r.value.id == c.id)
  {
    var c := st.flight[0][j];
    var p := Of(c.fp, Flat(st.flight));
    PlaceInSegment(cfg, st, j);
    assert OneOld(st, c.fp, p) && QueueOk(cfg, st, c.fp, p);
    SegmentFirst(st, c.fp);
    OfPlace(st.flight[0], j);
    var i := |Of(c.fp, st.flight[0][..j])|;
    assert p[i] == c;
    assert Agree(st.start, p[i].id, st.buffered[c.fp][0]) && Agree(st.start, st.buffered[c.fp][0], p[i].id);
    assert c in Flat(st.flight);
    assert KnownId(st, c.id, c.fp);
  }

  /** The segment leaves with ids of this backup or the ones it came with, none of them a sparse container's. */
  lemma SegmentMoves(cfg: Config, st: State, choices: seq<Choice>, checked: seq<Chunk>, st1: State, out: seq<Chunk>)
    requires StoreOk(cfg, st) && FlightOk(cfg, st) && OldOk(st)
    requires st.flight != [] && |choices| == |st.flight[0]| == |checked| && Checked(cfg, st) == Some(checked)
    requires FilterAll(cfg, st, Recent(map[], map[]), checked, choices) == Some((st1, out))
    ensures |out| == |st.flight[0]|
    ensures forall j :: 0 <= j < |out| ==> Moved(cfg, st, st.flight[0][j], out[j].id) && out[j].fp == st.flight[0][j].fp
  {
    var s := HarMarkedAll(cfg, st.inherited, st.flight[0]);
    forall j | 0 <= j < |s|
      ensures WillMove(cfg, st, checked[j]) && checked[j].fp == st.flight[0][j].fp
      ensures checked[j].id >= st.start || checked[j].id == st.flight[0][j].id
    {
      CheckedMoves(cfg, st, j);
      CheckedAt(st.buffered, s, j);
    }
    LoopMoves(cfg, st, Recent(map[], map[]), checked, choices);
  }

  lemma {:induction false} CheckedAt(buffered: map<ChunkFp, seq<ContainerId>>, s: seq<Chunk>, j: nat)
    requires CheckBuffer(buffered, s).Some? && j < |s|
    ensures |CheckBuffer(buffered, s).value| == |s| && CheckChunk(buffered, s[j]) == Some(CheckBuffer(buffered, s).value[j])
  {
    if j > 0 {
      CheckedAt(buffered, s[1..], j - 1);
    } else if |s| > 1 {
      CheckedAt(buffered, s[1..], 0);
    }
  }

  lemma {:induction false} OfMoved(cfg: Config, st: State, fp: ChunkFp, s: seq<Chunk>, out: seq<Chunk>)
    requires |out| == |s| && forall j :: 0 <= j < |s| ==> Moved(cfg, st, s[j], out[j].id) && out[j].fp == s[j].fp
    ensures |Of(fp, out)| == |Of(fp, s)|
    ensures forall i :: 0 <= i < |Of(fp, s)| ==> Moved(cfg, st, Of(fp, s)[i], Of(fp, out)[i].id)
  {
    if s != [] { OfMoved(cfg, st, fp, s[1..], out[1..]); }
  }

  /** One fingerprint when its chunks of the segment have left: the head of its queue is as they left it. */
  lemma LeavesOld(cfg: Config, st: State, st': State, fp: ChunkFp, first: seq<Chunk>, later: seq<Chunk>, mine: seq<Chunk>)
    requires OneOld(st, fp, first + later) && st'.start == st.start
    requires |mine| == |first| && forall i :: 0 <= i < |first| ==> Moved(cfg, st, first[i], mine[i].id)
    requires PoppedOk(st.buffered, st'.buffered, fp, mine) && forall i :: 0 <= i < |mine| ==> mine[i].id >= 0
    ensures OneOld(st', fp, later)
  {
    if mine == [] {
      assert first + later == later;
    } else {
      var d, last := first[|first| - 1], mine[|mine| - 1];
      LaterAgree(st, fp, first, later);
      NewHead(st.buffered, st'.buffered, fp, mine);
      assert Moved(cfg, st, d, last.id);
      HeadChanges(st, st', fp, later, d.id, last.id);
    }
  }

  lemma HeadChanges(st: State, st': State, fp: ChunkFp, later: seq<Chunk>, d: ContainerId, head: ContainerId)
    requires st'.start == st.start && (head >= st.start || head == d)
    requires fp in st'.buffered ==> st'.buffered[fp] != [] && st'.buffered[fp][0] == head
    requires forall i, j :: 0 <= i < |later| && 0 <= j < |later| ==> Agree(st.start, later[i].id, later[j].id)
    requires forall i :: 0 <= i < |later| && later[i].denied ==> later[i].id >= st.start
    requires forall i :: 0 <= i < |later| ==> Agree(st.start, later[i].id, d) && Agree(st.start, d, later[i].id)
    ensures OneOld(st', fp, later)
  {}

  lemma NewHead(before: map<ChunkFp, seq<ContainerId>>, after: map<ChunkFp, seq<ContainerId>>, fp: ChunkFp, mine: seq<Chunk>)
    requires PoppedOk(before, after, fp, mine) && mine != []
    ensures fp in after ==> after[fp] != [] && after[fp][0] == mine[|mine| - 1].id
  {}

  lemma LaterAgree(st: State, fp: ChunkFp, first: seq<Chunk>, later: seq<Chunk>)
    requires OneOld(st, fp, first + later) && first != []
    ensures forall i, j :: 0 <= i < |later| && 0 <= j < |later| ==> Agree(st.start, later[i].id, later[j].id)
    ensures forall i :: 0 <= i < |later| && later[i].denied ==> later[i].id >= st.start
    ensures var d := first[|first| - 1];
      forall i :: 0 <= i < |later| ==> Agree(st.start, later[i].id, d.id) && Agree(st.start, d.id, later[i].id)
  {
    var p, n := first + later, |first|;
    assert p[n - 1] == first[n - 1];
    forall i | 0 <= i < |later| ensures later[i] == p[n + i] {}
  }

  lemma FilterOld(cfg: Config, st: State, choices: seq<Choice>)
    requires Good(cfg, st) && st.running && OldOk(st) && st.flight != [] && |choices| == |st.flight[0]|
    ensures FilterSegment(cfg, st, choices).Some?
    ensures var st' := FilterSegment(cfg, st, choices).value;
      && OldOk(st') && SameStart(st, st') && st'.running
      && st.recipe <= st'.recipe && forall p :: p in st'.recipe[|st.recipe|..] ==> p.id !in Sparse(cfg, st)
  {
    var checked, st1, out := SegmentLoop(cfg, st, choices);
    SegmentParts(cfg, st, choices, checked, st1, out);
    SegmentMoves(cfg, st, choices, checked, st1, out);
    CanPop(cfg, st, out);
    PopAllKeeps(st.buffered, out);
    assert Shown(st1) && st1.buffered == st.buffered && st1.recipe == st.recipe;
    LeavesParts(st1, st.flight[1..], out, PopAll(st.buffered, out));
    var st' := FilterSegment(cfg, st, choices).value;
    forall fp ensures OneOld(st', fp, Of(fp, Flat(st'.flight))) {
      SegmentFirst(st, fp);
      OfMoved(cfg, st, fp, st.flight[0], out);
      OfElements(fp, out);
      PlacedOf(fp, out);
      assert OneOld(st, fp, Of(fp, Flat(st.flight))) && QueueOk(cfg, st, fp, Of(fp, Flat(st.flight)));
      LeavesOld(cfg, st, st', fp, Of(fp, st.flight[0]), Of(fp, Flat(st.flight[1..])), Of(fp, out));
    }
    RecipeMoved(cfg, st, out);
    assert st'.recipe[|st.recipe|..] == Pointers(out);
  }

  lemma {:induction false} PlacedOf(fp: ChunkFp, out: seq<Chunk>)
    requires Placed(out)
    ensures forall i :: 0 <= i < |Of(fp, out)| ==> Of(fp, out)[i].id >= 0
  {
    if out != [] {
      assert out[0] in out && forall c :: c in out[1..] ==> c in out;
      PlacedOf(fp, out[1..]);
    }
  }

  lemma RecipeMoved(cfg: Config, st: State, out: seq<Chunk>)
    requires st.flight != [] && |out| == |st.flight[0]|
    requires forall j :: 0 <= j < |out| ==> Moved(cfg, st, st.flight[0][j], out[j].id)
    ensures forall p :: p in Pointers(out) ==> p.id !in Sparse(cfg, st)
  {
    forall p | p in Pointers(out) ensures p.id !in Sparse(cfg, st) {
      var j :| 0 <= j < |out| && Pointers(out)[j] == p;
      assert Moved(cfg, st, st.flight[0][j], out[j].id);
    }
  }

  // ---- whole runs

  /** The recipe so far refers to no container that the previous backup listed as sparse. */
  ghost predicate Avoiding(cfg: Config, st: State) {
    st.running && cfg.har ==> forall p :: p in st.recipe ==> p.id !in st.inherited
  }

  lemma FlagOld(st: State, flight: seq<seq<Chunk>>)
    requires OldOk(st) && SameButMarks(Flat(flight), Flat(st.flight))
    ensures OldOk(st.(flight := flight))
  {
    var st' := st.(flight := flight);
    forall fp ensures OneOld(st', fp, Of(fp, Flat(flight))) {
      OfMarked(fp, Flat(flight), Flat(st.flight));
      SameIds(st, st', fp, Of(fp, Flat(st.flight)), Of(fp, Flat(flight)));
    }
  }

  lemma SameIds(st: State, st': State, fp: ChunkFp, p: seq<Chunk>, q: seq<Chunk>)
    requires OneOld(st, fp, p) && SameButMarks(q, p) && st'.start == st.start && st'.buffered == st.buffered
    ensures OneOld(st', fp, q)
  {
    forall i | 0 <= i < |p| ensures q[i].id == p[i].id && q[i].denied == p[i].denied {}
  }

  lemma NothingOld(st: State)
    requires Flat(st.flight) == []
    ensures OldOk(st)
  {}

  lemma HarStep(cfg: Config, st: State, e: Event)
    requires Good(cfg, st) && OldOk(st) && Avoiding(cfg, st) && Enabled(cfg, st, e) && Step(cfg, st, e).Some?
    ensures OldOk(Step(cfg, st, e).value) && Avoiding(cfg, Step(cfg, st, e).value)
  {
    match e
    case BeginBackup(inherited) => NothingOld(Begin(st, inherited));
    case DedupStep(s) =>
      SegmentOld(cfg, st, s);
      DedupSegmentKeeps(cfg, st, s);
    case Flag(flight) =>
      FlatMarked(flight, st.flight);
      FlagOld(st, flight);
    case FilterStep(choices) =>
      FilterOld(cfg, st, choices);
      StillAvoiding(cfg, st, FilterSegment(cfg, st, choices).value);
    case EndBackup => NothingOld(End(cfg, st));
    case DeleteBackup(upTo) => NothingOld(Delete(cfg, st, upTo).value);
  }

  lemma StillAvoiding(cfg: Config, st: State, st': State)
    requires Avoiding(cfg, st) && st.running && SameStart(st, st') && st.recipe <= st'.recipe
    requires forall p :: p in st'.recipe[|st.recipe|..] ==> p.id !in Sparse(cfg, st)
    ensures Avoiding(cfg, st')
  {
    assert st'.recipe == st.recipe + st'.recipe[|st.recipe|..];
  }

  /** With HAR, whatever other rewriting there is, no backup refers to a container that the previous backup listed as
      sparse. */
  lemma {:induction false} HarAvoidsSparse(cfg: Config, events: seq<Event>)
    requires CleanRun(cfg, events) && Run(cfg, events).At?
    ensures OldOk(Run(cfg, events).state) && Avoiding(cfg, Run(cfg, events).state)
  {
    if events == [] {
      NothingOld(Initial());
    } else {
      var n := |events| - 1;
      CleanPrefix(cfg, events, n);
      HarAvoidsSparse(cfg, events[..n]);
      EveryRun(cfg, events[..n]);
      HarStep(cfg, Run(cfg, events[..n]).state, events[n]);
    }
  }
}
