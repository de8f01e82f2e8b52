/** What the spec's sizes mean: in every run whose chunks have the sizes of their contents, every container that
    is sealed fits, and every recipe entry has the size of its chunk. */
module Sizes {
  import opened Common
  import opened DedupSpec

  type Content = map<ChunkFp, seq<Byte>>

  predicate SizedOf(content: Content, fp: ChunkFp, size: nat) {
    fp in content && |content[fp]| == size
  }

  predicate AllSized(content: Content, s: seq<Chunk>) {
    forall i :: 0 <= i < |s| ==> SizedOf(content, s[i].fp, s[i].size)
  }

  predicate PointersSized(content: Content, r: seq<Pointer>) {
    forall i :: 0 <= i < |r| ==> SizedOf(content, r[i].fp, r[i].size)
  }

  predicate Known(content: Content, listed: seq<ChunkFp>) {
    forall i :: 0 <= i < |listed| ==> listed[i] in content
  }

  /** The bytes of the listed chunks. */
  function Total(content: Content, listed: seq<ChunkFp>): nat
    requires Known(content, listed)
  {
    if listed == [] then 0 else Total(content, listed[..|listed| - 1]) + |content[listed[|listed| - 1]]|
  }

  lemma TotalSnoc(content: Content, listed: seq<ChunkFp>, fp: ChunkFp)
    requires Known(content, listed) && fp in content
    ensures Known(content, listed + [fp]) && Total(content, listed + [fp]) == Total(content, listed) + |content[fp]|
  {
    assert (listed + [fp])[..|listed|] == listed;
  }

  lemma {:induction false} TotalPrefix(content: Content, listed: seq<ChunkFp>, n: nat)
    requires Known(content, listed) && n <= |listed|
    ensures Known(content, listed[..n]) && Total(content, listed[..n]) <= Total(content, listed)
  {
    if n == |listed| {
      assert listed[..n] == listed;
    } else {
      var m := |listed| - 1;
      TotalPrefix(content, listed[..m], n);
      assert listed[..m][..n] == listed[..n];
    }
  }

  predicate NoRepeat(listed: seq<ChunkFp>) {
    forall i, j :: 0 <= i < j < |listed| ==> listed[i] != listed[j]
  }

  /** The chunks fit a container, each once. */
  predicate ListFits(content: Content, listed: seq<ChunkFp>) {
    && NoRepeat(listed) && Known(content, listed)
    && Total(content, listed) <= DATA_AREA && CONTAINER_META_ENTRY * |listed| + 16 <= CONTAINER_META_SIZE
  }

  predicate OpenFits(content: Content, open: Option<Container>) {
    open.Some? ==>
      var o := open.value;
      && ListFits(content, o.listed)
      && o.dataSize == Total(content, o.listed) && o.chunkNum == |o.listed| && Elements(o.listed) == o.fps
  }

  predicate HistoryFits(content: Content, history: seq<Sealing>) {
    forall i :: 0 <= i < |history| ==> ListFits(content, history[i].listed)
  }

  predicate FlightSized(content: Content, flight: seq<seq<Chunk>>) {
    forall k :: 0 <= k < |flight| ==> AllSized(content, flight[k])
  }

  predicate SizesOk(content: Content, st: State) {
    && OpenFits(content, st.open) && HistoryFits(content, st.history) && FlightSized(content, st.flight)
    && PointersSized(content, st.recipe)
    && forall j :: j in st.recipes ==> PointersSized(content, st.recipes[j])
  }

  // ---- dedup

  lemma {:induction false} DedupSizes(cfg: Config, content: Content, st: State, s: seq<Chunk>)
    requires st.flight != [] && DedupAll(cfg, st, s).Some? && FlightSized(content, st.flight) && AllSized(content, s)
    ensures var st' := DedupAll(cfg, st, s).value;
      && FlightSized(content, st'.flight) && st'.open == st.open && st'.history == st.history
      && st'.recipe == st.recipe && st'.recipes == st.recipes
    decreases |s|
  {
    if s != [] {
      ChunkSizes(cfg, content, st, s[0]);
      DedupSizes(cfg, content, DedupChunk(cfg, st, s[0]), s[1..]);
    }
  }

  lemma SameSize(cfg: Config, st: State, c: Chunk)
    requires CanIdentify(cfg, st, c)
    ensures Identify(cfg, st, c).1.fp == c.fp && Identify(cfg, st, c).1.size == c.size
  {}

  lemma ChunkSizes(cfg: Config, content: Content, st: State, c: Chunk)
    requires st.flight != [] && CanIdentify(cfg, st, c) && FlightSized(content, st.flight) && SizedOf(content, c.fp, c.size)
    ensures var st' := DedupChunk(cfg, st, c);
      && FlightSized(content, st'.flight) && st'.open == st.open && st'.history == st.history
      && st'.recipe == st.recipe && st'.recipes == st.recipes
  {
    SameSize(cfg, st, c);
    var c' := Identify(cfg, st, c).1;
    var n := |st.flight| - 1;
    assert AllSized(content, st.flight[n] + [c']);
  }

  // ---- filter

  lemma AddFits(content: Content, st: State, c: Chunk)
    requires st.open.Some? && OpenFits(content, st.open) && SizedOf(content, c.fp, c.size)
    requires !Overflow(st.open.value, c.size)
    ensures OpenFits(content, AddChunk(st, c).open)
  {
    var o := st.open.value;
    if c.fp !in o.fps {
      TotalSnoc(content, o.listed, c.fp);
      assert Elements(o.listed + [c.fp]) == o.fps + {c.fp};
    }
  }

  lemma RoomFits(cfg: Config, content: Content, st: State, size: nat)
    requires OpenFits(content, st.open) && HistoryFits(content, st.history)
    ensures var st1 := Room(cfg, st, size); OpenFits(content, st1.open) && HistoryFits(content, st1.history)
  {
    var st1 := if st.open.None? then Create(st) else st;
    CreateFits(content, st);
    if Overflow(st1.open.value, size) {
      SealFits(cfg, content, st1);
      CreateFits(content, Seal(cfg, st1));
    }
  }

  lemma CreateFits(content: Content, st: State)
    ensures OpenFits(content, Create(st).open) && Create(st).history == st.history
  {
    assert ListFits(content, []);
  }

  lemma SealFits(cfg: Config, content: Content, st: State)
    requires st.open.Some? && OpenFits(content, st.open) && HistoryFits(content, st.history)
    ensures HistoryFits(content, Seal(cfg, st).history)
  {
    assert Seal(cfg, st).history == st.history + [Sealing(st.open.value.id, st.open.value.listed)];
  }

  /** What the filter loop leaves alone. */
  predicate SameRecipes(st: State, st': State) {
    st'.recipe == st.recipe && st'.recipes == st.recipes
  }

  lemma RoomSame(cfg: Config, st: State, size: nat)
    ensures SameRecipes(st, Room(cfg, st, size))
  {
    var st1 := if st.open.None? then Create(st) else st;
    assert SameRecipes(st, st1);
    if Overflow(st1.open.value, size) {
      assert SameRecipes(st1, Seal(cfg, st1));
      assert SameRecipes(Seal(cfg, st1), Create(Seal(cfg, st1)));
    }
  }

  /** What one turn of the filter loop keeps. */
  ghost predicate TurnFits(content: Content, st: State, c: Chunk, f: Filtered) {
    && OpenFits(content, f.state.open) && HistoryFits(content, f.state.history) && SameRecipes(st, f.state)
    && f.chunk.fp == c.fp && f.chunk.size == c.size
  }

  lemma DecidedSizes(cfg: Config, content: Content, st: State, recent: Recent, c: Chunk, written: bool)
    requires OpenFits(content, st.open) && HistoryFits(content, st.history) && SizedOf(content, c.fp, c.size)
    requires MayDecide(cfg, st, c, written)
    ensures TurnFits(content, st, c, Decided(cfg, st, recent, c, written))
  {
    if written {
      RoomFits(cfg, content, st, c.size);
      RoomSame(cfg, st, c.size);
      AddFits(content, Room(cfg, st, c.size), c);
    }
  }

  lemma NotedSizes(cfg: Config, content: Content, st: State, c: Chunk, f: Filtered)
    requires TurnFits(content, st, c, f)
    ensures TurnFits(content, st, c, f.(state := Noted(cfg, f.state, f.chunk.id)))
  {}

  lemma ResolvedSize(recent: Recent, c: Chunk)
    requires CanResolve(recent, c)
    ensures Resolve(recent, c).fp == c.fp && Resolve(recent, c).size == c.size
  {}

  lemma TurnSizes(cfg: Config, content: Content, st: State, recent: Recent, c: Chunk, choice: Choice)
    requires OpenFits(content, st.open) && HistoryFits(content, st.history) && SizedOf(content, c.fp, c.size)
    requires MayFilter(cfg, st, recent, c, choice)
    ensures TurnFits(content, st, c, FilterChunk(cfg, st, recent, c, choice))
  {
    var c1 := Resolve(recent, c);
    ResolvedSize(recent, c);
    var written := Written(c1, choice, InCache(cfg, st, c));
    DecidedSizes(cfg, content, st, recent, c1, written);
    NotedSizes(cfg, content, st, c, Decided(cfg, st, recent, c1, written));
  }

  lemma {:induction false} FilterSizes(cfg: Config, content: Content, st: State, recent: Recent, s: seq<Chunk>, choices: seq<Choice>)
    requires |choices| == |s| && FilterAll(cfg, st, recent, s, choices).Some?
    requires OpenFits(content, st.open) && HistoryFits(content, st.history) && AllSized(content, s)
    ensures var (st', out) := FilterAll(cfg, st, recent, s, choices).value;
      && OpenFits(content, st'.open) && HistoryFits(content, st'.history) && SameRecipes(st, st') && AllSized(content, out)
    decreases |s|
  {
    if s != [] {
      TurnSizes(cfg, content, st, recent, s[0], choices[0]);
      var f := FilterChunk(cfg, st, recent, s[0], choices[0]);
      FilterSizes(cfg, content, f.state, f.recent, s[1..], choices[1..]);
    }
  }

  lemma {:induction false} CheckSizes(content: Content, buffered: map<ChunkFp, seq<ContainerId>>, s: seq<Chunk>)
    requires CheckBuffer(buffered, s).Some? && AllSized(content, s)
    ensures AllSized(content, CheckBuffer(buffered, s).value)
  {
    if s != [] { CheckSizes(content, buffered, s[1..]); }
  }

  lemma SegmentSizes(cfg: Config, content: Content, st: State, choices: seq<Choice>)
    requires st.flight != [] && |choices| == |st.flight[0]| && FilterSegment(cfg, st, choices).Some? && SizesOk(content, st)
    ensures SizesOk(content, FilterSegment(cfg, st, choices).value)
  {
    var marked := HarMarkedAll(cfg, st.inherited, st.flight[0]);
    CheckSizes(content, st.buffered, marked);
    var checked := CheckBuffer(st.buffered, marked).value;
    FilterSizes(cfg, content, st, Recent(map[], map[]), checked, choices);
    var (st1, out) := FilterAll(cfg, st, Recent(map[], map[]), checked, choices).value;
    LeavesSizes(content, st, st1, out, PopAll(st1.buffered, out));
  }

  lemma LeavesSizes(content: Content, st: State, st1: State, out: seq<Chunk>, popped: Option<map<ChunkFp, seq<ContainerId>>>)
    requires SizesOk(content, st) && st.flight != []
    requires OpenFits(content, st1.open) && HistoryFits(content, st1.history) && SameRecipes(st, st1) && AllSized(content, out)
    requires SegmentLeaves(st1, st.flight[1..], out, popped).Some?
    ensures SizesOk(content, SegmentLeaves(st1, st.flight[1..], out, popped).value)
  {
    assert PointersSized(content, Pointers(out));
  }

  // ---- every run

  /** The chunks that are fed to dedup have the sizes of their contents. */
  predicate EventSized(content: Content, e: Event) {
    e.DedupStep? ==> AllSized(content, e.segment)
  }

  lemma DedupStepSizes(cfg: Config, content: Content, st: State, s: seq<Chunk>)
    requires DedupSegment(cfg, st, s).Some? && SizesOk(content, st) && AllSized(content, s)
    ensures SizesOk(content, DedupSegment(cfg, st, s).value)
  {
    DedupSizes(cfg, content, st.(flight := st.flight + [[]]), s);
  }

  lemma FlagSizes(content: Content, st: State, flight: seq<seq<Chunk>>)
    requires SizesOk(content, st) && |flight| == |st.flight|
    requires forall k :: 0 <= k < |flight| ==> SameButMarks(flight[k], st.flight[k])
    ensures SizesOk(content, st.(flight := flight))
  {
    forall k | 0 <= k < |flight| ensures AllSized(content, flight[k]) {
      assert SameButMarks(flight[k], st.flight[k]) && AllSized(content, st.flight[k]);
    }
  }

  lemma EndSizes(cfg: Config, content: Content, st: State)
    requires SizesOk(content, st)
    ensures SizesOk(content, End(cfg, st))
  {
    if st.open.Some? && st.open.value.chunkNum != 0 { SealFits(cfg, content, st); }
  }

  lemma StepSizes(cfg: Config, content: Content, st: State, e: Event)
    requires Enabled(cfg, st, e) && Step(cfg, st, e).Some? && SizesOk(content, st) && EventSized(content, e)
    ensures SizesOk(content, Step(cfg, st, e).value)
  {
    match e
    case BeginBackup(_) =>
    case DedupStep(s) => DedupStepSizes(cfg, content, st, s);
    case Flag(flight) => FlagSizes(content, st, flight);
    case FilterStep(choices) => SegmentSizes(cfg, content, st, choices);
    case EndBackup => EndSizes(cfg, content, st);
    case DeleteBackup(_) =>
  }

  lemma {:induction false} RunSizes(cfg: Config, content: Content, events: seq<Event>)
    requires Run(cfg, events).At? && forall i :: 0 <= i < |events| ==> EventSized(content, events[i])
    ensures SizesOk(content, Run(cfg, events).state)
  {
    if events != [] {
      var n := |events| - 1;
      RunSizes(cfg, content, events[..n]);
      StepSizes(cfg, content, Run(cfg, events[..n]).state, events[n]);
    }
  }
}
