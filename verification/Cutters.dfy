/** The cut-point searches: fixed-size, Rabin, normalized Rabin and TTTD. */
module Cutters {
  import opened Words
  import opened Common
  import opened Rolling

  datatype Algorithm = Fixed | Rabin | Normalized | Tttd

  /** chunk_min_size, chunk_avg_size and chunk_max_size. */
  datatype Config = Config(min: nat, avg: nat, max: nat)

  predicate ValidConfig(alg: Algorithm, cfg: Config) {
    if alg.Fixed? then 1 <= cfg.avg == cfg.max < 0x4000_0000 else 1 <= cfg.min <= cfg.avg <= cfg.max < 0x4000_0000
  }

  /** No cut but the last is shorter. */
  function Least(alg: Algorithm, cfg: Config): nat {
    if alg.Fixed? then cfg.avg else cfg.min
  }

  /** An int mask as it meets a 64-bit fingerprint: a negative one is sign-extended. */
  function Mask(m: int): Word
    requires -1 <= m < WORD_SIZE
  {
    if m < 0 then WORD_SIZE - 1 else m
  }

  function RabinMask(cfg: Config): Word
    requires ValidConfig(Rabin, cfg)
  {
    Mask(cfg.avg - 1)
  }

  function SmallMask(cfg: Config): Word
    requires ValidConfig(Rabin, cfg)
  {
    Mask(cfg.avg * 2 - 1)
  }

  function LargeMask(cfg: Config): Word
    requires ValidConfig(Rabin, cfg)
  {
    Mask(cfg.avg / 2 - 1)
  }

  // ---- what a cut point is, in terms of the slow fingerprint

  /** The fingerprint of the 48 bytes in front of position i; the search only ever looks at
      bytes from min - 1 on. */
  ghost function FpAt(s: seq<Byte>, min: nat, i: nat): Word
    requires 1 <= min <= i <= |s|
  {
    DefaultModulus([]);
    Fingerprint(LastWindow(s[min - 1..i]), FINGERPRINT_PT)
  }

  /** f lists the fingerprints in front of every position of s that a search may visit. */
  ghost predicate ListsFps(f: seq<Word>, s: seq<Byte>, min: nat)
    requires 1 <= min
  {
    |f| == |s| + 1 && forall i: nat {:trigger FpAt(s, min, i)} :: min <= i <= |s| ==> f[i] == FpAt(s, min, i)
  }

  ghost function Fps(s: seq<Byte>, min: nat): (f: seq<Word>)
    requires 1 <= min
    ensures ListsFps(f, s, min)
  {
    seq(|s| + 1, i requires 0 <= i <= |s| => if min <= i then FpAt(s, min, i) else 0)
  }

  predicate Tested(mask: Word) { true }

  /** fp matches the break mark under the mask; carried unopened until Tested is mentioned. */
  ghost predicate BreaksAt(fp: Word, mask: Word) {
    forall m: Word {:trigger Tested(m)} :: Tested(m) && m == mask ==> And(fp, m) == BREAKMARK_VALUE
  }

  method BreakTest(fp: Word, mask: Word) returns (b: bool)
    ensures b <==> BreaksAt(fp, mask)
  {
    b := And(fp, mask) == BREAKMARK_VALUE;
    assert Tested(mask);
  }

  function MaskAt(alg: Algorithm, cfg: Config, i: nat): Word
    requires ValidConfig(Rabin, cfg)
  {
    if !alg.Normalized? then RabinMask(cfg) else if i < cfg.avg then SmallMask(cfg) else LargeMask(cfg)
  }

  ghost predicate Hit(alg: Algorithm, cfg: Config, f: seq<Word>, i: nat)
    requires ValidConfig(Rabin, cfg) && i < |f|
  {
    && BreaksAt(f[i], MaskAt(alg, cfg, i))
    && (alg.Tttd? ==> Backup(cfg, f, i))
  }

  /** TTTD's second, looser divisor. */
  ghost predicate Backup(cfg: Config, f: seq<Word>, i: nat)
    requires ValidConfig(Rabin, cfg) && i < |f|
  {
    BreaksAt(f[i], LargeMask(cfg))
  }

  /** No position looks further than n or than the maximal size. */
  function End(cfg: Config, n: nat): nat {
    if n > cfg.max then cfg.max else n
  }

  ghost predicate NoHit(alg: Algorithm, cfg: Config, f: seq<Word>, hi: nat)
    requires ValidConfig(Rabin, cfg) && hi <= |f|
  {
    forall j: nat :: cfg.min <= j < hi ==> !Hit(alg, cfg, f, j)
  }

  ghost predicate NoBackup(cfg: Config, f: seq<Word>, lo: nat, hi: nat)
    requires ValidConfig(Rabin, cfg) && hi <= |f|
  {
    forall j: nat :: lo <= j < hi ==> !Backup(cfg, f, j)
  }

  /** The first hit in [min, end), and end when there is none. */
  ghost predicate FirstHit(alg: Algorithm, cfg: Config, f: seq<Word>, end: nat, r: nat)
    requires ValidConfig(Rabin, cfg) && end < |f|
  {
    cfg.min <= r <= end && NoHit(alg, cfg, f, r) && (r < end ==> Hit(alg, cfg, f, r))
  }

  /** The last backup match in [min, end), and end when there is none. */
  ghost predicate LastBackup(cfg: Config, f: seq<Word>, end: nat, r: nat)
    requires ValidConfig(Rabin, cfg) && end < |f|
  {
    && cfg.min <= r <= end
    && (if r < end then Backup(cfg, f, r) && NoBackup(cfg, f, r + 1, end) else NoBackup(cfg, f, cfg.min, end))
  }

  /** Where a content-defined search of a buffer of n > min bytes with fingerprints f ends. */
  ghost predicate SearchResult(alg: Algorithm, cfg: Config, f: seq<Word>, n: nat, r: nat)
    requires ValidConfig(Rabin, cfg) && n < |f|
  {
    var end := End(cfg, n);
    if alg.Tttd? && NoHit(Tttd, cfg, f, end) then LastBackup(cfg, f, end, r)
    else FirstHit(alg, cfg, f, end, r)
  }

  /** r is where the algorithm cuts the buffer s. */
  ghost predicate IsCut(alg: Algorithm, cfg: Config, s: seq<Byte>, r: nat)
    requires ValidConfig(alg, cfg)
  {
    if alg.Fixed? then r == (if cfg.avg > |s| then |s| else cfg.avg)
    else if |s| <= cfg.min then r == |s|
    else SearchResult(alg, cfg, Fps(s, cfg.min), |s|, r)
  }

  // ---- the cuts, spelled out on the bytes and the configured sizes

  /** The fingerprint in front of position i carries the break mark: under the average size, under twice the average
      before the average size and half of it from there on, or, for TTTD, under the average and half of it. */
  ghost predicate Marked(alg: Algorithm, cfg: Config, s: seq<Byte>, i: nat)
    requires ValidConfig(Rabin, cfg) && cfg.min <= i <= |s|
  {
    var fp := FpAt(s, cfg.min, i);
    match alg
    case Normalized => if i < cfg.avg then And(fp, cfg.avg * 2 - 1) == BREAKMARK_VALUE else LooselyMarked(cfg, s, i)
    case Tttd => And(fp, cfg.avg - 1) == BREAKMARK_VALUE && LooselyMarked(cfg, s, i)
    case _ => And(fp, cfg.avg - 1) == BREAKMARK_VALUE
  }

  /** Half of 1 is 0: the mask of such an average is -1, all bits of the fingerprint. */
  ghost predicate LooselyMarked(cfg: Config, s: seq<Byte>, i: nat)
    requires ValidConfig(Rabin, cfg) && cfg.min <= i <= |s|
  {
    And(FpAt(s, cfg.min, i), if cfg.avg == 1 then WORD_SIZE - 1 else cfg.avg / 2 - 1) == BREAKMARK_VALUE
  }

  lemma HitIsMark(alg: Algorithm, cfg: Config, s: seq<Byte>)
    requires !alg.Fixed? && ValidConfig(Rabin, cfg) && |s| > cfg.min
    ensures forall j: nat :: cfg.min <= j <= |s| ==> (Hit(alg, cfg, Fps(s, cfg.min), j) <==> Marked(alg, cfg, s, j))
    ensures forall j: nat :: cfg.min <= j <= |s| ==> (Backup(cfg, Fps(s, cfg.min), j) <==> LooselyMarked(cfg, s, j))
  {
    forall j: nat | cfg.min <= j <= |s|
      ensures Hit(alg, cfg, Fps(s, cfg.min), j) <==> Marked(alg, cfg, s, j)
      ensures Backup(cfg, Fps(s, cfg.min), j) <==> LooselyMarked(cfg, s, j)
    {
      assert Tested(MaskAt(alg, cfg, j)) && Tested(LargeMask(cfg));
      assert Fps(s, cfg.min)[j] == FpAt(s, cfg.min, j);
    }
  }

  /** Rabin and normalized Rabin cut at the first mark, and without one exactly at the end of the buffer or of the
      maximum size. */
  lemma FirstMarkCutIs(alg: Algorithm, cfg: Config, s: seq<Byte>, r: nat)
    requires (alg.Rabin? || alg.Normalized?) && ValidConfig(Rabin, cfg) && |s| > cfg.min
    ensures IsCut(alg, cfg, s, r) <==>
      && cfg.min <= r <= |s| && r <= cfg.max
      && (r == |s| || r == cfg.max || Marked(alg, cfg, s, r))
      && forall j: nat :: cfg.min <= j < r ==> !Marked(alg, cfg, s, j)
  {
    var end := if |s| < cfg.max then |s| else cfg.max;
    FirstSearchIs(alg, cfg, Fps(s, cfg.min), |s|, end, r);
    if cfg.min <= r <= end { FirstMarks(alg, cfg, s, r); }
  }

  lemma FirstSearchIs(alg: Algorithm, cfg: Config, f: seq<Word>, n: nat, end: nat, r: nat)
    requires !alg.Tttd? && ValidConfig(Rabin, cfg) && cfg.min < n < |f| && end == End(cfg, n)
    ensures SearchResult(alg, cfg, f, n, r) <==>
      cfg.min <= r <= end && (r == end || Hit(alg, cfg, f, r)) && NoHit(alg, cfg, f, r)
  {}

  lemma FirstMarks(alg: Algorithm, cfg: Config, s: seq<Byte>, r: nat)
    requires !alg.Fixed? && ValidConfig(Rabin, cfg) && |s| > cfg.min && cfg.min <= r <= |s|
    ensures Hit(alg, cfg, Fps(s, cfg.min), r) <==> Marked(alg, cfg, s, r)
    ensures NoHit(alg, cfg, Fps(s, cfg.min), r) <==> forall j: nat :: cfg.min <= j < r ==> !Marked(alg, cfg, s, j)
  {
    HitIsMark(alg, cfg, s);
  }

  /** TTTD cuts at the first mark under both masks; without one in front of the end of the buffer or of the maximum
      size, at the last mark under the looser mask; without that, at the end. */
  lemma TttdCutIs(cfg: Config, s: seq<Byte>, r: nat)
    requires ValidConfig(Rabin, cfg) && |s| > cfg.min
    ensures IsCut(Tttd, cfg, s, r) <==>
      && cfg.min <= r <= |s| && r <= cfg.max
      && (forall j: nat :: cfg.min <= j < r ==> !Marked(Tttd, cfg, s, j))
      && (if r == |s| || r == cfg.max then NoneMarked(cfg, s, cfg.min, r)
          else
            && LooselyMarked(cfg, s, r)
            && (Marked(Tttd, cfg, s, r) || NoneMarked(cfg, s, r + 1, if |s| < cfg.max then |s| else cfg.max)))
  {
    var f, end := Fps(s, cfg.min), if |s| < cfg.max then |s| else cfg.max;
    TttdSearchIs(cfg, f, |s|, end, r);
    if cfg.min <= r <= end { TttdMarks(cfg, s, end, r); }
  }

  lemma TttdSearchIs(cfg: Config, f: seq<Word>, n: nat, end: nat, r: nat)
    requires ValidConfig(Rabin, cfg) && cfg.min < n < |f| && end == End(cfg, n)
    ensures SearchResult(Tttd, cfg, f, n, r) <==>
      && cfg.min <= r <= end && NoHit(Tttd, cfg, f, r)
      && (if r == end then NoBackup(cfg, f, cfg.min, r)
          else Backup(cfg, f, r) && (Hit(Tttd, cfg, f, r) || NoBackup(cfg, f, r + 1, end)))
  {}

  /** The same on the marks. */
  lemma TttdMarks(cfg: Config, s: seq<Byte>, end: nat, r: nat)
    requires ValidConfig(Rabin, cfg) && |s| > cfg.min && cfg.min <= r <= end <= |s|
    ensures var f := Fps(s, cfg.min);
      && (NoHit(Tttd, cfg, f, r) <==> forall j: nat :: cfg.min <= j < r ==> !Marked(Tttd, cfg, s, j))
      && (NoBackup(cfg, f, cfg.min, r) <==> NoneMarked(cfg, s, cfg.min, r))
      && (NoBackup(cfg, f, r + 1, end) <==> NoneMarked(cfg, s, r + 1, end))
      && (Backup(cfg, f, r) <==> LooselyMarked(cfg, s, r)) && (Hit(Tttd, cfg, f, r) <==> Marked(Tttd, cfg, s, r))
  {
    HitIsMark(Tttd, cfg, s);
  }

  /** No mark under the looser mask, and so none under both. */
  ghost predicate NoneMarked(cfg: Config, s: seq<Byte>, lo: nat, hi: nat)
    requires ValidConfig(Rabin, cfg) && cfg.min <= lo && hi <= |s|
  {
    forall j: nat :: lo <= j < hi ==> !LooselyMarked(cfg, s, j)
  }

  lemma CutBounds(alg: Algorithm, cfg: Config, s: seq<Byte>, r: nat)
    requires ValidConfig(alg, cfg) && IsCut(alg, cfg, s, r)
    ensures r <= |s| && r <= cfg.max && (s != [] ==> r > 0)
    ensures r < |s| ==> r >= Least(alg, cfg)
  {}

  lemma CutUnique(alg: Algorithm, cfg: Config, s: seq<Byte>, r: nat, r': nat)
    requires ValidConfig(alg, cfg) && IsCut(alg, cfg, s, r) && IsCut(alg, cfg, s, r')
    ensures r == r'
  {
    if !alg.Fixed? && |s| > cfg.min {
      SearchUnique(alg, cfg, Fps(s, cfg.min), |s|, r, r');
      SearchUnique(alg, cfg, Fps(s, cfg.min), |s|, r', r);
    }
  }

  lemma SearchUnique(alg: Algorithm, cfg: Config, f: seq<Word>, n: nat, r: nat, r': nat)
    requires ValidConfig(Rabin, cfg) && n < |f| && SearchResult(alg, cfg, f, n, r) && SearchResult(alg, cfg, f, n, r')
    ensures r <= r'
  {}

  /** A cut looks at no byte beyond the first max: buffers that agree there are cut alike. */
  lemma CutPrefix(alg: Algorithm, cfg: Config, s: seq<Byte>, t: seq<Byte>, r: nat)
    requires ValidConfig(alg, cfg)
    requires |s| >= cfg.max && |t| >= cfg.max && s[..cfg.max] == t[..cfg.max]
    requires IsCut(alg, cfg, s, r)
    ensures IsCut(alg, cfg, t, r)
  {
    if !alg.Fixed? && cfg.min < cfg.max {
      var f, g := Fps(s, cfg.min), Fps(t, cfg.min);
      forall j: nat | cfg.min <= j <= cfg.max ensures f[j] == g[j] {
        FpPrefix(s, t, cfg.min, cfg.max, j);
      }
      SearchPrefix(alg, cfg, f, g, |s|, |t|, r);
    }
  }

  lemma FpPrefix(s: seq<Byte>, t: seq<Byte>, min: nat, max: nat, j: nat)
    requires 1 <= min <= j <= max <= |s| && max <= |t| && s[..max] == t[..max]
    ensures FpAt(s, min, j) == FpAt(t, min, j)
  {
    assert s[min - 1..j] == s[..max][min - 1..j];
    assert t[min - 1..j] == t[..max][min - 1..j];
  }

  lemma SearchPrefix(alg: Algorithm, cfg: Config, f: seq<Word>, g: seq<Word>, n: nat, m: nat, r: nat)
    requires ValidConfig(Rabin, cfg) && cfg.max <= n < |f| && cfg.max <= m < |g|
    requires forall j: nat :: cfg.min <= j <= cfg.max ==> f[j] == g[j]
    requires SearchResult(alg, cfg, f, n, r)
    ensures SearchResult(alg, cfg, g, m, r)
  {
    forall j: nat | cfg.min <= j <= cfg.max ensures Hit(alg, cfg, f, j) == Hit(alg, cfg, g, j) {}
    forall j: nat | cfg.min <= j <= cfg.max ensures Backup(cfg, f, j) == Backup(cfg, g, j) {}
  }

  // ---- the loops

  method FixedChunkData(cfg: Config, s: seq<Byte>) returns (r: nat)
    requires ValidConfig(Fixed, cfg)
    ensures IsCut(Fixed, cfg, s, r)
  {
    r := if cfg.avg > |s| then |s| else cfg.avg;
  }

  method ChunkAlgInit() returns (tables: Tables)
    ensures Initialised(tables) && tables.poly == FINGERPRINT_PT
  {
    DefaultModulus([]);
    tables := WindowInit(FINGERPRINT_PT);
  }

  function Before(s: seq<Byte>, min: nat, i: nat): seq<Byte>
    requires 1 <= min <= i <= |s| + 1
  {
    if i == min then [] else s[min - 1..i - 1]
  }

  /** The ring and fp cover exactly the bytes s[min - 1..i - 1]. */
  ghost predicate Scanned(s: seq<Byte>, min: nat, i: nat, fp: Word, bufPos: int, buf: array<Byte>)
    requires 1 <= min <= i <= |s| + 1
    reads buf
  {
    Covers(Before(s, min, i), FINGERPRINT_PT, fp, bufPos, buf)
  }

  method StartScan(ghost s: seq<Byte>, ghost min: nat) returns (buf: array<Byte>)
    requires 1 <= min <= |s|
    ensures fresh(buf) && Scanned(s, min, min, 0, -1, buf)
  {
    DefaultModulus([]);
    buf := NewRing(FINGERPRINT_PT);
  }

  /** Takes in byte i - 1, so that fp covers s[min - 1..i]. */
  method SlideTo(tables: Tables, s: seq<Byte>, ghost f: seq<Word>, min: nat, i: nat, fp: Word,
                 bufPos: int, buf: array<Byte>)
    returns (fp': Word, bufPos': int)
    requires Initialised(tables) && tables.poly == FINGERPRINT_PT
    requires 1 <= min <= i <= |s| && Scanned(s, min, i, fp, bufPos, buf) && ListsFps(f, s, min)
    modifies buf
    ensures Scanned(s, min, i + 1, fp', bufPos', buf)
    ensures fp' == f[i]
  {
    fp', bufPos' := SlideOver(tables, Before(s, min, i), s[i - 1], fp, bufPos, buf);
    Extend(s, min, i);
    assert Seen(Before(s, min, i + 1));
  }

  lemma Extend(s: seq<Byte>, min: nat, i: nat)
    requires 1 <= min <= i <= |s|
    ensures Before(s, min, i + 1) == s[min - 1..i]
    ensures Before(s, min, i + 1) == Before(s, min, i) + [s[i - 1]]
    ensures FpAt(s, min, i) == (DefaultModulus([]); Fingerprint(LastWindow(Before(s, min, i + 1)), FINGERPRINT_PT))
  {
    assert s[min - 1..i] == Before(s, min, i) + [s[i - 1]];
  }

  method RabinChunkData(tables: Tables, cfg: Config, s: seq<Byte>, ghost f: seq<Word>) returns (r: nat)
    requires ValidConfig(Rabin, cfg) && Initialised(tables) && tables.poly == FINGERPRINT_PT
    requires ListsFps(f, s, cfg.min)
    ensures if |s| <= cfg.min then r == |s| else SearchResult(Rabin, cfg, f, |s|, r)
  {
    if |s| <= cfg.min { return |s|; }
    var buf := StartScan(s, cfg.min);
    var bufPos, fp := -1, 0;
    var i := cfg.min;
    var end := if |s| > cfg.max then cfg.max else |s|;
    assert end == End(cfg, |s|);
    while i < end
      invariant cfg.min <= i <= end
      invariant fresh(buf) && Scanned(s, cfg.min, i, fp, bufPos, buf)
      invariant NoHit(Rabin, cfg, f, i)
    {
      fp, bufPos := SlideTo(tables, s, f, cfg.min, i, fp, bufPos, buf);
      var hit := BreakTest(fp, RabinMask(cfg));
      if hit { break; }
      i := i + 1;
    }
    r := i;
  }

  method NormalizedRabinChunkData(tables: Tables, cfg: Config, s: seq<Byte>, ghost f: seq<Word>) returns (r: nat)
    requires ValidConfig(Normalized, cfg) && Initialised(tables) && tables.poly == FINGERPRINT_PT
    requires ListsFps(f, s, cfg.min)
    ensures if |s| <= cfg.min then r == |s| else SearchResult(Normalized, cfg, f, |s|, r)
  {
    if |s| <= cfg.min { return |s|; }
    var buf := StartScan(s, cfg.min);
    var bufPos, fp := -1, 0;
    var i := cfg.min;
    var end := if |s| > cfg.max then cfg.max else |s|;
    assert end == End(cfg, |s|);
    while i < end
      invariant cfg.min <= i <= end
      invariant fresh(buf) && Scanned(s, cfg.min, i, fp, bufPos, buf)
      invariant NoHit(Normalized, cfg, f, i)
    {
      fp, bufPos := SlideTo(tables, s, f, cfg.min, i, fp, bufPos, buf);
      if i < cfg.avg {
        var hit := BreakTest(fp, SmallMask(cfg));
        if hit { break; }
        i := i + 1;
      } else {
        var hit := BreakTest(fp, LargeMask(cfg));
        if hit { break; }
        i := i + 1;
      }
    }
    r := i;
  }

  /** The last backup match before i; 0 stands for none. */
  ghost predicate LastIs(cfg: Config, f: seq<Word>, m: nat, i: nat)
    requires ValidConfig(Rabin, cfg) && i <= |f|
  {
    if m == 0 then NoBackup(cfg, f, cfg.min, i)
    else cfg.min <= m < i && Backup(cfg, f, m) && NoBackup(cfg, f, m + 1, i)
  }

  lemma LastMoves(cfg: Config, f: seq<Word>, m: nat, i: nat)
    requires ValidConfig(Rabin, cfg) && cfg.min <= i < |f| && LastIs(cfg, f, m, i) && NoHit(Tttd, cfg, f, i)
    ensures LastIs(cfg, f, if Backup(cfg, f, i) then i else m, i + 1)
    ensures !Hit(Tttd, cfg, f, i) ==> NoHit(Tttd, cfg, f, i + 1)
  {}

  method TttdChunkData(tables: Tables, cfg: Config, s: seq<Byte>, ghost f: seq<Word>) returns (r: nat)
    requires ValidConfig(Tttd, cfg) && Initialised(tables) && tables.poly == FINGERPRINT_PT
    requires ListsFps(f, s, cfg.min)
    ensures if |s| <= cfg.min then r == |s| else SearchResult(Tttd, cfg, f, |s|, r)
  {
    if |s| <= cfg.min { return |s|; }
    var buf := StartScan(s, cfg.min);
    var bufPos, fp := -1, 0;
    var i: nat, m: nat := cfg.min, 0;
    var end := if |s| > cfg.max then cfg.max else |s|;
    assert end == End(cfg, |s|);
    while i < end
      invariant cfg.min <= i <= end
      invariant fresh(buf) && Scanned(s, cfg.min, i, fp, bufPos, buf)
      invariant NoHit(Tttd, cfg, f, i)
      invariant LastIs(cfg, f, m, i)
    {
      LastMoves(cfg, f, m, i);
      fp, bufPos := SlideTo(tables, s, f, cfg.min, i, fp, bufPos, buf);
      var hit := BreakTest(fp, LargeMask(cfg));
      if hit {
        var isTrue := BreakTest(fp, RabinMask(cfg));
        if isTrue {
          assert Hit(Tttd, cfg, f, i);
          return i;
        }
        m := i;
      }
      i := i + 1;
    }
    r := if m != 0 then m else i;
  }

  /** The call through the function pointer that start_chunk_phase sets. */
  method Chunking(alg: Algorithm, tables: Tables, cfg: Config, s: seq<Byte>) returns (r: nat)
    requires ValidConfig(alg, cfg) && Initialised(tables) && tables.poly == FINGERPRINT_PT
    ensures IsCut(alg, cfg, s, r)
  {
    match alg
    case Fixed => r := FixedChunkData(cfg, s);
    case Rabin => r := RabinChunkData(tables, cfg, s, Fps(s, cfg.min));
    case Normalized => r := NormalizedRabinChunkData(tables, cfg, s, Fps(s, cfg.min));
    case Tttd => r := TttdChunkData(tables, cfg, s, Fps(s, cfg.min));
  }

  // ---- comparing the cutters on one buffer

  /** A match under more mask bits is a match under fewer, while the break mark itself survives. */
  lemma LooserMask(x: Word, n: nat, n': nat)
    requires 7 <= n' <= n <= 32
    requires And(x, Pow2(n) - 1) == BREAKMARK_VALUE
    ensures And(x, Pow2(n') - 1) == BREAKMARK_VALUE
  {
    AndMask(x, n);
    AndMask(x, n');
    var p, q := Pow2(n'), Pow2(n - n');
    Pow2Add(n', n - n');
    assert Pow2(7) == 128;
    Pow2Monotone(7, n');
    ModOfMod(x, p, q);
    ModUnique(BREAKMARK_VALUE, p, 0, BREAKMARK_VALUE);
  }

  lemma {:induction false} Pow2Monotone(a: nat, b: nat)
    requires a <= b
    ensures Pow2(a) <= Pow2(b)
  {
    if a < b { Pow2Monotone(a, b - 1); }
  }

  lemma ModOfMod(x: nat, p: nat, q: nat)
    requires p > 0 && q > 0 && p * q > 0
    ensures x % (p * q) % p == x % p
  {
    var a, r := x / (p * q), x % (p * q);
    assert x == (p * q) * a + r;
    MulSwap(p, q, a);
    var b := r / p;
    Distribute(p, q * a, b);
    ModUnique(x, p, q * a + b, r % p);
  }

  lemma MulSwap(p: int, q: int, a: int)
    ensures (p * q) * a == p * (q * a)
  {}

  lemma MaskPowers(cfg: Config, n: nat)
    requires ValidConfig(Rabin, cfg) && cfg.avg == Pow2(n) && 8 <= n
    ensures n <= 30
    ensures RabinMask(cfg) == Pow2(n) - 1 && SmallMask(cfg) == Pow2(n + 1) - 1 && LargeMask(cfg) == Pow2(n - 1) - 1
  {
    if n > 30 {
      Pow2Monotone(30, n);
      Pow2Add(24, 6);
      assert Pow2(6) == 64;
      RabinPolyValues();
    }
  }

  lemma RabinPolyValues()
    ensures Pow2(24) == 0x100_0000
  {
    Pow2Word();
    Pow2Add(8, 8);
    Pow2Add(16, 8);
  }

  lemma RelatedHits(cfg: Config, f: seq<Word>, n: nat, j: nat)
    requires ValidConfig(Rabin, cfg) && cfg.avg == Pow2(n) && 8 <= n && j < |f|
    ensures j < cfg.avg && Hit(Normalized, cfg, f, j) ==> Hit(Rabin, cfg, f, j)
    ensures j >= cfg.avg && Hit(Rabin, cfg, f, j) ==> Hit(Normalized, cfg, f, j)
    ensures Hit(Tttd, cfg, f, j) <==> Hit(Rabin, cfg, f, j)
  {
    MaskPowers(cfg, n);
    assert Tested(SmallMask(cfg)) && Tested(RabinMask(cfg));
    if BreaksAt(f[j], SmallMask(cfg)) { LooserMask(f[j], n + 1, n); }
    if BreaksAt(f[j], RabinMask(cfg)) { LooserMask(f[j], n, n - 1); }
  }

  /** Normalized chunking pulls every cut towards the average size. */
  lemma NormalizedAgainstRabin(cfg: Config, s: seq<Byte>, n: nat, r: nat, q: nat)
    requires ValidConfig(Rabin, cfg) && cfg.avg == Pow2(n) && cfg.avg >= 256
    requires IsCut(Rabin, cfg, s, r) && IsCut(Normalized, cfg, s, q)
    ensures r >= cfg.avg ==> cfg.avg <= q <= r
    ensures r < cfg.avg ==> r <= q
  {
    AtLeast256(n);
    if |s| > cfg.min {
      var f := Fps(s, cfg.min);
      if q < r { RelatedHits(cfg, f, n, q); }
      if r < q && r >= cfg.avg { RelatedHits(cfg, f, n, r); }
    }
  }

  lemma AtLeast256(n: nat)
    requires Pow2(n) >= 256
    ensures n >= 8
  {
    assert Pow2(7) == 128;
    if n < 8 { Pow2Monotone(n, 7); }
  }

  /** TTTD cuts where plain Rabin finds a true match; without one, at the last backup match. */
  lemma TttdAgainstRabin(cfg: Config, s: seq<Byte>, n: nat, r: nat, q: nat)
    requires ValidConfig(Rabin, cfg) && cfg.avg == Pow2(n) && cfg.avg >= 256 && |s| > cfg.min
    requires IsCut(Rabin, cfg, s, r) && IsCut(Tttd, cfg, s, q)
    ensures r < End(cfg, |s|) ==> q == r
    ensures r == End(cfg, |s|) ==> LastBackup(cfg, Fps(s, cfg.min), End(cfg, |s|), q)
  {
    AtLeast256(n);
    var f, end := Fps(s, cfg.min), End(cfg, |s|);
    forall j: nat | cfg.min <= j < end ensures Hit(Tttd, cfg, f, j) <==> Hit(Rabin, cfg, f, j) {
      RelatedHits(cfg, f, n, j);
    }
    if r < end {
      assert Hit(Tttd, cfg, f, r);
      assert SearchResult(Tttd, cfg, f, |s|, r);
      SearchUnique(Tttd, cfg, f, |s|, q, r);
      SearchUnique(Tttd, cfg, f, |s|, r, q);
    }
  }
}
