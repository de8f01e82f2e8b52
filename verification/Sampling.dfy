/** Which features sampling_method.c selects, and when they are safe to delete by. */
module Sampling {
  import opened Common
  import opened DedupSpec
  import opened Backups

  function Sampled(keySize: KeySize, fps: set<ChunkFp>): set<Key> {
    set fp | fp in fps :: fp.hash[..keySize]
  }

  /** The key of zeros that is inserted when nothing was sampled. */
  function Fallback(keySize: KeySize): Key {
    seq(keySize, _ => 0)
  }

  function OrFallback(keySize: KeySize, features: set<Key>): set<Key> {
    if features == {} then {Fallback(keySize)} else features
  }

  /** Every ratio-th chunk. */
  function Uniform(keySize: KeySize, ratio: nat, listed: seq<ChunkFp>): set<Key>
    requires ratio > 0
  {
    OrFallback(keySize, Sampled(keySize, set i | 0 <= i < |listed| && i % ratio == 0 :: listed[i]))
  }

  /** Bytes 16 to 19 of the digest as a little-endian two's complement int. */
  function Head(fp: ChunkFp): int {
    var u: int := 0x100_0000 * fp.hash[19] as int + 0x1_0000 * fp.hash[18] as int
                  + 0x100 * fp.hash[17] as int + fp.hash[16] as int;
    if u < 0x8000_0000 then u else u - 0x1_0000_0000
  }

  predicate Hit(ratio: nat, fp: ChunkFp)
    requires ratio > 0
  {
    Head(fp) % ratio == 0
  }

  /** Every chunk whose head is a multiple of the ratio. */
  function Random(keySize: KeySize, ratio: nat, listed: seq<ChunkFp>): set<Key>
    requires ratio > 0
  {
    OrFallback(keySize, Sampled(keySize, set fp | fp in listed && Hit(ratio, fp)))
  }

  function UniformSample(keySize: KeySize, ratio: nat): (ContainerId, seq<ChunkFp>) -> set<Key>
    requires ratio > 0
  {
    (id, listed) => Uniform(keySize, ratio, listed)
  }

  function RandomSample(keySize: KeySize, ratio: nat): (ContainerId, seq<ChunkFp>) -> set<Key>
    requires ratio > 0
  {
    (id, listed) => Random(keySize, ratio, listed)
  }

  /** The loop of index_sampling_uniform: of a container that is not empty, the keys of the chunks at multiples of the
      ratio, and no other key. */
  method IndexSamplingUniform(keySize: KeySize, ratio: nat, listed: seq<ChunkFp>) returns (features: set<Key>)
    requires ratio > 0
    ensures features == Uniform(keySize, ratio, listed)
    ensures listed != [] ==>
      forall k :: k in features <==> exists i :: 0 <= i < |listed| && i % ratio == 0 && k == listed[i].hash[..keySize]
    ensures listed == [] ==> features == {seq(keySize, _ => 0)}
  {
    features := {};
    var i := 0;
    while i < |listed|
      invariant 0 <= i <= |listed|
      invariant forall k :: k in features <==> exists j :: 0 <= j < i && j % ratio == 0 && k == listed[j].hash[..keySize]
    {
      if i % ratio == 0 {
        features := features + {listed[i].hash[..keySize]};
      }
      i := i + 1;
    }
    if listed != [] {
      assert 0 % ratio == 0 && listed[0].hash[..keySize] in features;
    }
    UniformTakes(keySize, ratio, listed, features);
    if features == {} {
      features := {Fallback(keySize)};
    }
  }

  lemma UniformTakes(keySize: KeySize, ratio: nat, listed: seq<ChunkFp>, features: set<Key>)
    requires ratio > 0
    requires forall k :: k in features <==>
      exists i :: 0 <= i < |listed| && i % ratio == 0 && k == listed[i].hash[..keySize]
    ensures features == Sampled(keySize, set i | 0 <= i < |listed| && i % ratio == 0 :: listed[i])
  {
    var taken := set i | 0 <= i < |listed| && i % ratio == 0 :: listed[i];
    forall k | k in features ensures k in Sampled(keySize, taken) {
      var i :| 0 <= i < |listed| && i % ratio == 0 && k == listed[i].hash[..keySize];
      assert listed[i] in taken;
    }
  }

  /** The loop of index_sampling_random: the keys of the chunks whose head the ratio divides, or the key of zeros. */
  method IndexSamplingRandom(keySize: KeySize, ratio: nat, listed: seq<ChunkFp>) returns (features: set<Key>)
    requires ratio > 0
    ensures features == Random(keySize, ratio, listed)
    ensures (exists fp :: fp in listed && Head(fp) % ratio == 0) ==>
      forall k :: k in features <==> exists fp :: fp in listed && Head(fp) % ratio == 0 && k == fp.hash[..keySize]
    ensures (forall fp :: fp in listed ==> Head(fp) % ratio != 0) ==> features == {seq(keySize, _ => 0)}
  {
    features := {};
    ghost var taken: set<ChunkFp> := {};
    var i := 0;
    while i < |listed|
      invariant 0 <= i <= |listed| && features == Sampled(keySize, taken)
      invariant forall fp :: fp in taken <==> fp in listed[..i] && Hit(ratio, fp)
    {
      assert listed[..i + 1] == listed[..i] + [listed[i]];
      if Head(listed[i]) % ratio == 0 {
        features := features + {listed[i].hash[..keySize]};
        taken := taken + {listed[i]};
      }
      i := i + 1;
    }
    assert listed[..i] == listed;
    assert taken == set fp | fp in listed && Hit(ratio, fp);
    forall fp | fp in listed && Head(fp) % ratio == 0 ensures fp.hash[..keySize] in features {
      assert fp in taken;
    }
    if features == {} {
      features := {Fallback(keySize)};
    }
  }

  /** Uniform sampling always takes the first chunk, so its features belong; with ratio 1 and whole
      digests the index is exact. */
  lemma UniformIsSafe(cfg: Config, ratio: nat)
    requires ratio > 0 && cfg.sample == UniformSample(cfg.keySize, ratio)
    ensures AlwaysBelongs(cfg)
    ensures ratio == 1 && cfg.exact && cfg.keySize == 20 && !cfg.rewriting && !cfg.har ==> Exact(cfg)
  {
    forall id: ContainerId, listed: seq<ChunkFp> | listed != []
      ensures cfg.sample(id, listed) <= KeysOf(cfg, Elements(listed))
      ensures ratio == 1 ==> cfg.sample(id, listed) == KeysOf(cfg, Elements(listed))
    {
      assert cfg.sample(id, listed) == Uniform(cfg.keySize, ratio, listed);
      assert KeysOf(cfg, Elements(listed)) == Sampled(cfg.keySize, Elements(listed));
      var taken := set i | 0 <= i < |listed| && i % ratio == 0 :: listed[i];
      assert listed[0] in taken;
      assert listed[0].hash[..cfg.keySize] in Sampled(cfg.keySize, taken);
      if ratio == 1 {
        forall fp | fp in listed ensures fp in taken {
          var i :| 0 <= i < |listed| && listed[i] == fp;
          assert i % ratio == 0;
        }
        assert taken == Elements(listed);
      }
    }
  }

  /** Random sampling's features belong to the container exactly when some chunk was sampled or the
      fallback happens to be a chunk's key. */
  lemma RandomIsSafeWhen(keySize: KeySize, ratio: nat, listed: seq<ChunkFp>)
    requires ratio > 0
    ensures Random(keySize, ratio, listed) <= Sampled(keySize, Elements(listed))
       <==> (exists fp :: fp in listed && Hit(ratio, fp)) || Fallback(keySize) in Sampled(keySize, Elements(listed))
  {
    var taken := set fp | fp in listed && Hit(ratio, fp);
    if fp :| fp in listed && Hit(ratio, fp) {
      assert fp in taken;
      assert fp.hash[..keySize] in Sampled(keySize, taken);
    } else {
      assert taken == {};
      assert Fallback(keySize) in Random(keySize, ratio, listed);
    }
  }

  /** Some chunk of the container is sampled, or the fallback is by chance the key of one. */
  predicate Represented(keySize: KeySize, ratio: nat, listed: seq<ChunkFp>)
    requires ratio > 0
  {
    (exists fp :: fp in listed && Hit(ratio, fp)) || Fallback(keySize) in Sampled(keySize, Elements(listed))
  }

  /** With random sampling, a run whose every sealed container is represented has clean deletions only; the
      features of all its containers belong to them exactly then. */
  lemma RandomRunIsSafe(cfg: Config, ratio: nat, events: seq<Event>)
    requires ratio > 0 && cfg.sample == RandomSample(cfg.keySize, ratio) && Run(cfg, events).At?
    ensures var st := Run(cfg, events).state;
      (forall x :: x in st.history ==> Represented(cfg.keySize, ratio, x.listed)) <==> Belonging(cfg, st)
    ensures (forall x :: x in Run(cfg, events).state.history ==> Represented(cfg.keySize, ratio, x.listed))
      ==> CleanRun(cfg, events)
  {
    var st := Run(cfg, events).state;
    forall x | x in st.history
      ensures Represented(cfg.keySize, ratio, x.listed) <==> cfg.sample(x.id, x.listed) <= KeysOf(cfg, Elements(x.listed))
    {
      RandomIsSafeWhen(cfg.keySize, ratio, x.listed);
      assert KeysOf(cfg, Elements(x.listed)) == Sampled(cfg.keySize, Elements(x.listed));
    }
    if Belonging(cfg, st) { BelongingRun(cfg, events); }
  }

  // ---- the entry that outlives its container

  const LONELY: ChunkFp := Digest([1, 1, 1, 1, 1, 1, 1, 1, 1, 1, 1, 1, 1, 1, 1, 1, 1, 1, 1, 1])
  const FED := Chunk(LONELY, 1, TEMPORARY_ID, false, false, false, false)
  const STORED := Chunk(LONELY, 1, 0, false, false, false, false)

  function Begun(): State {
    Begin(Initial(), {})
  }

  function InFlight(): State {
    Begun().(buffered := map[LONELY := [TEMPORARY_ID]], chunkNum := 1, flight := [[FED]], stream := [LONELY])
  }

  function InContainer(): State {
    Begun().(open := Some(Container(0, {LONELY}, [LONELY], 1, 1)), next := 1, stream := [LONELY],
             recipe := [Pointer(LONELY, 0, 1)], monitor := {0}, aware := [0])
  }

  function LonelyConfig(): Config {
    Config(false, 20, 0, false, false, false, 0, RandomSample(20, 2))
  }

  lemma LonelyDedup(cfg: Config)
    ensures DedupSegment(cfg, Begun(), [FED]) == Some(InFlight())
  {
    var s0 := Begun().(flight := [[]]);
    assert Begun().flight + [[]] == [[]];
    assert Identify(cfg, s0, FED) == ([], FED);
    assert [] + [TEMPORARY_ID] == [TEMPORARY_ID] && [] + [FED] == [FED] && [] + [LONELY] == [LONELY];
    assert s0.flight[..0] + [[FED]] == [[FED]];
    assert DedupChunk(cfg, s0, FED) == InFlight();
    assert DedupAll(cfg, InFlight(), []) == Some(InFlight()) && [FED][1..] == [];
    assert DedupAll(cfg, s0, [FED]) == Some(InFlight());
  }

  lemma LonelyFilter(cfg: Config)
    requires !cfg.har
    ensures FilterSegment(cfg, InFlight(), [Choice(false)]) == Some(InContainer())
  {
    var st, recent, choice := InFlight(), Recent(map[], map[]), Choice(false);
    assert [FED][1..] == [] && [choice][1..] == [] && [[FED]][1..] == [] && [STORED][1..] == [];
    assert HarMarkedAll(cfg, st.inherited, [FED]) == [FED];
    assert CheckBuffer(st.buffered, []) == Some([]) && [FED] + [] == [FED];
    var st1 := Room(cfg, st, 1);
    assert st1 == Create(st);
    var f := FilterChunk(cfg, st, recent, FED, choice);
    assert {} + {LONELY} == {LONELY} && {} + {0} == {0} && [] + [LONELY] == [LONELY];
    assert f.chunk == STORED && f.state.aware == [0];
    assert FilterAll(cfg, f.state, f.recent, [], []) == Some((f.state, [])) && [STORED] + [] == [STORED];
    assert FilterAll(cfg, st, recent, [FED], [choice]) == Some((f.state, [STORED]));
    assert st.buffered - {LONELY} == map[];
    assert PopAll(st.buffered, [STORED]) == Some(map[]);
    assert Pointers([STORED]) == [Pointer(LONELY, 0, 1)] && [] + Pointers([STORED]) == Pointers([STORED]);
  }

  lemma RunOn(cfg: Config, events: seq<Event>, st: State, e: Event)
    requires Run(cfg, events) == At(st) && Enabled(cfg, st, e) && Step(cfg, st, e).Some?
    ensures Run(cfg, events + [e]) == At(Step(cfg, st, e).value)
  {
    assert (events + [e])[..|events|] == events;
  }

  /** With random sampling, a backup of one chunk that is not sampled, followed by the deletion of that
      backup, leaves an entry that names the reclaimed container. */
  lemma FallbackDangles() returns (events: seq<Event>, k: Key)
    ensures var o := Run(LonelyConfig(), events);
      o.At? && k in o.state.kv && o.state.kv[k] !in o.state.sealed
  {
    var cfg := LonelyConfig();
    LonelyDedup(cfg);
    LonelyFilter(cfg);
    RunOn(cfg, [], Initial(), BeginBackup({}));
    events := [] + [BeginBackup({})];
    RunOn(cfg, events, Begun(), DedupStep([FED]));
    events := events + [DedupStep([FED])];
    RunOn(cfg, events, InFlight(), FilterStep([Choice(false)]));
    events := events + [FilterStep([Choice(false)])];
    RunOn(cfg, events, InContainer(), EndBackup);
    events := events + [EndBackup];
    k := Fallback(20);
    LonelyDelete(cfg, End(cfg, InContainer()));
    RunOn(cfg, events, End(cfg, InContainer()), DeleteBackup(0));
    events := events + [DeleteBackup(0)];
  }

  lemma LonelyDelete(cfg: Config, st: State)
    requires cfg == LonelyConfig() && st == End(cfg, InContainer())
    ensures Enabled(cfg, st, DeleteBackup(0))
    ensures var r := Delete(cfg, st, 0); r.Some? && Fallback(20) in r.value.kv && r.value.kv[Fallback(20)] !in r.value.sealed
  {
    var sampled := set fp | fp in [LONELY] && Hit(2, fp);
    assert sampled == {};
    assert cfg.sample(0, [LONELY]) == {Fallback(20)};
    assert st.sealed == map[0 := {LONELY}] && st.kv == map[Fallback(20) := 0];
    assert Reclaimed(st.manifest, 0) == {0};
    assert LONELY.hash[..20][0] == 1 && Fallback(20)[0] == 0;
    assert Fallback(20) !in KeysOf(cfg, {LONELY});
  }
}
