/** recipestore.c: segment ids, the recipe file with its segment flags, and the record file. */
module RecipeStore {
  import opened Common
  import opened Bytes

  // ---- segment ids

  /** A 64-bit two's complement integer. */
  function Wrapped(x: int): (r: int)
    ensures -0x8000_0000_0000_0000 <= r < 0x8000_0000_0000_0000
  {
    var u := x % 0x1_0000_0000_0000_0000;
    if u < 0x8000_0000_0000_0000 then u else u - 0x1_0000_0000_0000_0000
  }

  /** 16 bits of backup number, 32 of offset, 16 of size; shifts and sums wrap. */
  function MakeSegmentId(bid: nat, off: nat, size: nat): (id: int)
    ensures -0x8000_0000_0000_0000 <= id < 0x8000_0000_0000_0000
  {
    Wrapped(bid * 0x1_0000_0000_0000 + off * 0x1_0000 + size)
  }

  function IdToSize(id: int): nat { id % 0x1_0000 }

  function IdToOff(id: int): nat { id / 0x1_0000 % 0x1_0000_0000 }

  /** An arithmetic shift: the result has the sign of the id. */
  function IdToBnum(id: int): int { id / 0x1_0000_0000_0000 }

  predicate InRange(bid: nat, off: nat, size: nat) {
    size < 0x1_0000 && off < 0x1_0000_0000 && bid < 0x8000
  }

  /** A segment id gives back its three fields exactly when all of them are in range. */
  lemma SegmentIdRoundTrip(bid: nat, off: nat, size: nat)
    ensures var id := MakeSegmentId(bid, off, size);
      (IdToSize(id) == size && IdToOff(id) == off && IdToBnum(id) == bid) <==> InRange(bid, off, size)
  {
    var id := MakeSegmentId(bid, off, size);
    BackupNumberFits(id);
    if InRange(bid, off, size) {
      var high := bid * 0x1_0000_0000 + off;
      assert id == high * 0x1_0000 + size;
      assert (high * 0x1_0000 + size) / 0x1_0000 == high;
      assert high % 0x1_0000_0000 == off;
    }
  }

  lemma BackupNumberFits(id: int)
    requires -0x8000_0000_0000_0000 <= id < 0x8000_0000_0000_0000
    ensures -0x8000 <= IdToBnum(id) < 0x8000
  {}

  /** The number that comes back is the low 16 bits, signed. */
  lemma SegmentIdWraps(bid: nat, off: nat, size: nat)
    requires size < 0x1_0000 && off < 0x1_0000_0000
    ensures var (id, b) := (MakeSegmentId(bid, off, size), bid % 0x1_0000);
      && IdToBnum(id) == (if b < 0x8000 then b else b - 0x1_0000)
      && (b == off % 0x1_0000 == size == 0xffff && off == 0xffff_ffff ==> id == TEMPORARY_ID)
  {
    var b, q, low := bid % 0x1_0000, bid / 0x1_0000, off * 0x1_0000 + size;
    var x, u := bid * 0x1_0000_0000_0000 + low, b * 0x1_0000_0000_0000 + low;
    assert x == q * 0x1_0000_0000_0000_0000 + u;
    assert 0 <= u < 0x1_0000_0000_0000_0000;
    assert x % 0x1_0000_0000_0000_0000 == u;
  }

  /** From backup 32768 on the number is lost, and the last segment id of backup 65535 is TEMPORARY_ID. */
  lemma SegmentIdLosesBackup()
    ensures IdToBnum(MakeSegmentId(0x8000, 0, 0)) == -0x8000
    ensures IdToBnum(MakeSegmentId(0x1_0000, 0, 0)) == 0
    ensures MakeSegmentId(0xffff, 0xffff_ffff, 0xffff) == TEMPORARY_ID
  {
    SegmentIdWraps(0x8000, 0, 0);
    SegmentIdWraps(0x1_0000, 0, 0);
    SegmentIdWraps(0xffff, 0xffff_ffff, 0xffff);
  }

  // ---- the recipe file

  const POINTER_SIZE: nat := 32
  const SEGMENT_START: int := 4
  const SEGMENT_END: int := 8

  /** The fields fit their 8 and 4 bytes. */
  predicate Storable(p: Pointer) {
    -0x8000_0000_0000_0000 <= p.id < 0x8000_0000_0000_0000 && p.size < 0x8000_0000
  }

  predicate AllStorable(s: seq<Pointer>) {
    forall i :: 0 <= i < |s| ==> Storable(s[i])
  }

  /** Every entry is a chunk: it names a container and is no flag. */
  predicate AllNamed(s: seq<Pointer>) {
    forall i :: 0 <= i < |s| ==> s[i].id >= 0
  }

  function PointerImage(p: Pointer): (s: Text)
    requires Storable(p)
    ensures |s| == POINTER_SIZE
  {
    Pow256Values();
    p.fp.hash + Signed(p.id, 8) + Signed(p.size, 4)
  }

  function ParsePointer(s: Text): Pointer
    requires |s| >= POINTER_SIZE
  {
    var size := FromSigned(s[28..32]);
    Pointer(Digest(s[..20]), FromSigned(s[20..28]), if size < 0 then 0 else size)
  }

  const NO_FP: ChunkFp := Digest([0, 0, 0, 0, 0, 0, 0, 0, 0, 0, 0, 0, 0, 0, 0, 0, 0, 0, 0, 0])

  function Flag(flag: int, size: nat): Pointer {
    Pointer(NO_FP, 0 - flag, size)
  }

  lemma PointerRoundTrip(p: Pointer, rest: Text)
    requires Storable(p)
    ensures ParsePointer(PointerImage(p) + rest) == p && (PointerImage(p) + rest)[POINTER_SIZE..] == rest
  {
    Pow256Values();
    var a, b, c := p.fp.hash, Signed(p.id, 8), Signed(p.size, 4);
    var s := a + b + c + rest;
    assert s[..20] == a && s[20..28] == b && s[28..32] == c;
    SignedRoundTrip(p.id, 8);
    SignedRoundTrip(p.size, 4);
  }

  /** 32-bit sizes, 64-bit ids, fewer chunks than the flag's size field can say. */
  predicate ValidSegment(s: seq<Pointer>) {
    |s| < 0x8000_0000 && AllStorable(s) && AllNamed(s)
  }

  function PointersImage(s: seq<Pointer>): (r: Text)
    requires AllStorable(s)
    ensures |r| == POINTER_SIZE * |s|
  {
    if s == [] then [] else PointerImage(s[0]) + PointersImage(s[1..])
  }

  function SegmentImage(s: seq<Pointer>): (r: Text)
    requires ValidSegment(s)
    ensures |r| == POINTER_SIZE * (|s| + 2)
  {
    PointerImage(Flag(SEGMENT_START, |s|)) + PointersImage(s) + PointerImage(Flag(SEGMENT_END, 0))
  }

  function RecipeImage(segments: seq<seq<Pointer>>): Text
    requires forall i :: 0 <= i < |segments| ==> ValidSegment(segments[i])
  {
    if segments == [] then [] else SegmentImage(segments[0]) + RecipeImage(segments[1..])
  }

  // ---- reading chunks across the flags

  predicate IsFlag(p: Pointer) {
    p.id == 0 - SEGMENT_START || p.id == 0 - SEGMENT_END
  }

  /** read_next_n_chunk_pointers for one chunk: segment flags are skipped. */
  function NextChunk(file: Text): Option<(Pointer, Text)>
    decreases |file|
  {
    if |file| < POINTER_SIZE then None
    else
      var p := ParsePointer(file);
      if IsFlag(p) then NextChunk(file[POINTER_SIZE..]) else Some((p, file[POINTER_SIZE..]))
  }

  function ReadChunks(file: Text, n: nat): Option<seq<Pointer>>
    decreases n
  {
    if n == 0 then Some([])
    else
      var next := NextChunk(file);
      if next.None? then None
      else
        var rest := ReadChunks(next.value.1, n - 1);
        if rest.None? then None else Some([next.value.0] + rest.value)
  }

  /** What a reader has left after a flag or a chunk of the file. */
  lemma SkipFlag(flag: Pointer, rest: Text)
    requires Storable(flag) && IsFlag(flag)
    ensures NextChunk(PointerImage(flag) + rest) == NextChunk(rest)
  {
    PointerRoundTrip(flag, rest);
  }

  lemma {:induction false} ReadsSame(a: Text, b: Text, n: nat)
    requires NextChunk(a) == NextChunk(b)
    ensures ReadChunks(a, n) == ReadChunks(b, n)
  {}

  lemma {:induction false} ReadsPointers(file: Text, s: seq<Pointer>, rest: Text, n: nat, more: seq<Pointer>)
    requires AllStorable(s) && AllNamed(s) && file == PointersImage(s) + rest
    requires ReadChunks(rest, n) == Some(more)
    ensures ReadChunks(file, |s| + n) == Some(s + more)
    decreases |s|
  {
    if s == [] {
      assert file == rest && s + more == more;
    } else {
      ReadsPointers(PointersImage(s[1..]) + rest, s[1..], rest, n, more);
      ReadsFirst(file, s[0], PointersImage(s[1..]), rest, |s| - 1 + n, s[1..], more);
      assert s == [s[0]] + s[1..];
    }
  }

  lemma ReadsFirst(file: Text, p: Pointer, image: Text, rest: Text, n: nat, tail: seq<Pointer>, more: seq<Pointer>)
    requires Storable(p) && p.id >= 0 && file == PointerImage(p) + image + rest
    requires ReadChunks(image + rest, n) == Some(tail + more)
    ensures ReadChunks(file, n + 1) == Some([p] + tail + more)
  {
    Regroup(PointerImage(p), image, rest);
    Regroup([p], tail, more);
    ReadsOne(file, p, image + rest, n, tail + more);
  }

  lemma ReadsOne(file: Text, p: Pointer, tail: Text, n: nat, more: seq<Pointer>)
    requires Storable(p) && p.id >= 0 && file == PointerImage(p) + tail && ReadChunks(tail, n) == Some(more)
    ensures ReadChunks(file, n + 1) == Some([p] + more)
  {
    PointerRoundTrip(p, tail);
  }

  /** A whole segment in front of what can be read. */
  lemma ReadsSegment(s: seq<Pointer>, rest: Text, n: nat)
    requires ValidSegment(s) && ReadChunks(rest, n).Some?
    ensures ReadChunks(SegmentImage(s) + rest, |s| + n) == Some(s + ReadChunks(rest, n).value)
  {
    var start, end := Flag(SEGMENT_START, |s|), Flag(SEGMENT_END, 0);
    var tail := PointerImage(end) + rest;
    var body := PointersImage(s) + tail;
    SkipFlag(end, rest);
    ReadsSame(tail, rest, n);
    ReadsPointers(body, s, tail, n, ReadChunks(rest, n).value);
    SkipFlag(start, body);
    ReadsSame(PointerImage(start) + body, body, |s| + n);
    Regroup4(PointerImage(start), PointersImage(s), PointerImage(end), rest);
  }

  /** Whatever the segmentation, reading as many chunks as were written gives exactly those, in order. */
  lemma {:induction false} RecipeReadsBack(segments: seq<seq<Pointer>>)
    requires forall i :: 0 <= i < |segments| ==> ValidSegment(segments[i])
    ensures ReadChunks(RecipeImage(segments), |Flat(segments)|) == Some(Flat(segments))
  {
    if segments != [] {
      RecipeReadsBack(segments[1..]);
      ReadsSegment(segments[0], RecipeImage(segments[1..]), |Flat(segments[1..])|);
    }
  }

  // ---- reading one segment

  /** The pairs of a segment recipe: the last pointer of a fingerprint wins. */
  function Pairs(s: seq<Pointer>): map<ChunkFp, Pointer> {
    if s == [] then map[] else var n := |s| - 1; Pairs(s[..n])[s[n].fp := s[n]]
  }

  /** Exactly the fingerprints of the segment, each with the last pointer that has it. */
  lemma {:induction false} PairsLast(s: seq<Pointer>, fp: ChunkFp)
    ensures fp in Pairs(s) <==> exists i :: 0 <= i < |s| && s[i].fp == fp
    ensures fp in Pairs(s) ==>
      exists i :: 0 <= i < |s| && s[i].fp == fp && Pairs(s)[fp] == s[i] && forall j :: i < j < |s| ==> s[j].fp != fp
  {
    if s != [] {
      var n := |s| - 1;
      PairsLast(s[..n], fp);
      if s[n].fp != fp && fp in Pairs(s) {
        var i :| 0 <= i < n && s[..n][i].fp == fp && Pairs(s[..n])[fp] == s[..n][i]
          && forall j :: i < j < n ==> s[..n][j].fp != fp;
        assert s[i].fp == fp;
      }
    }
  }

  datatype SegmentRecipe = SegmentRecipe(id: int, pairs: map<ChunkFp, Pointer>)

  /** NoMore: no segment starts here. Broken: a pointer without a container or a missing end flag. */
  datatype SegmentRead = NoMore | Broken | Read(recipe: SegmentRecipe, rest: Text)

  function ReadPairs(file: Text, n: nat, acc: map<ChunkFp, Pointer>): (r: Option<(map<ChunkFp, Pointer>, Text)>)
    ensures r.Some? ==> |r.value.1| <= |file|
    decreases n
  {
    if n == 0 then Some((acc, file))
    else if |file| < POINTER_SIZE || ParsePointer(file).id <= TEMPORARY_ID then None
    else var p := ParsePointer(file); ReadPairs(file[POINTER_SIZE..], n - 1, acc[p.fp := p])
  }

  /** read_next_segment with the file at offset off. */
  function ReadSegment(bid: nat, off: nat, file: Text): (r: SegmentRead)
    ensures r.Read? ==> |r.rest| <= |file|
  {
    if |file| < POINTER_SIZE || ParsePointer(file).id != 0 - SEGMENT_START then NoMore
    else
      var n := ParsePointer(file).size;
      var body := ReadPairs(file[POINTER_SIZE..], n, map[]);
      if body.None? then Broken
      else
        var rest := body.value.1;
        if |rest| < POINTER_SIZE || ParsePointer(rest).id != 0 - SEGMENT_END then Broken
        else Read(SegmentRecipe(MakeSegmentId(bid, off, n), body.value.0), rest[POINTER_SIZE..])
  }

  lemma {:induction false} ReadsPairs(s: seq<Pointer>, rest: Text, before: seq<Pointer>)
    requires AllStorable(s) && AllNamed(s)
    ensures ReadPairs(PointersImage(s) + rest, |s|, Pairs(before)) == Some((Pairs(before + s), rest))
  {
    if s == [] {
      assert before + s == before && PointersImage(s) + rest == rest;
    } else {
      var tail := PointersImage(s[1..]) + rest;
      assert PointersImage(s) + rest == PointerImage(s[0]) + tail;
      PointerRoundTrip(s[0], tail);
      assert (before + [s[0]])[..|before|] == before;
      assert Pairs(before + [s[0]]) == Pairs(before)[s[0].fp := s[0]];
      ReadsPairs(s[1..], rest, before + [s[0]]);
      assert before + [s[0]] + s[1..] == before + s;
    }
  }

  lemma PointerAt(file: Text, p: Pointer, rest: Text)
    requires Storable(p) && file == PointerImage(p) + rest
    ensures |file| >= POINTER_SIZE && ParsePointer(file) == p && file[POINTER_SIZE..] == rest
  {
    PointerRoundTrip(p, rest);
  }

  lemma SegmentSplit(s: seq<Pointer>, rest: Text, tail: Text, body: Text)
    requires ValidSegment(s) && tail == PointerImage(Flag(SEGMENT_END, 0)) + rest && body == PointersImage(s) + tail
    ensures SegmentImage(s) + rest == PointerImage(Flag(SEGMENT_START, |s|)) + body
  {
    Regroup4(PointerImage(Flag(SEGMENT_START, |s|)), PointersImage(s), PointerImage(Flag(SEGMENT_END, 0)), rest);
  }

  lemma Regroup4(a: Text, b: Text, c: Text, d: Text)
    ensures a + b + c + d == a + (b + (c + d))
  {}

  lemma SegmentReadsBack(bid: nat, off: nat, s: seq<Pointer>, rest: Text)
    requires ValidSegment(s)
    ensures ReadSegment(bid, off, SegmentImage(s) + rest)
      == Read(SegmentRecipe(MakeSegmentId(bid, off, |s|), Pairs(s)), rest)
  {
    var tail := PointerImage(Flag(SEGMENT_END, 0)) + rest;
    var body := PointersImage(s) + tail;
    var file := SegmentImage(s) + rest;
    SegmentSplit(s, rest, tail, body);
    PointerAt(tail, Flag(SEGMENT_END, 0), rest);
    PointerAt(file, Flag(SEGMENT_START, |s|), body);
    PairsFromStart(s, tail);
    ReadParts(bid, off, file, |s|, body, Pairs(s), tail, rest);
  }

  lemma PairsFromStart(s: seq<Pointer>, tail: Text)
    requires AllStorable(s) && AllNamed(s)
    ensures ReadPairs(PointersImage(s) + tail, |s|, map[]) == Some((Pairs(s), tail))
  {
    ReadsPairs(s, tail, []);
    assert [] + s == s;
  }

  lemma ReadParts(bid: nat, off: nat, file: Text, n: nat, body: Text, pairs: map<ChunkFp, Pointer>, tail: Text, rest: Text)
    requires |file| >= POINTER_SIZE && ParsePointer(file) == Flag(SEGMENT_START, n) && file[POINTER_SIZE..] == body
    requires ReadPairs(body, n, map[]) == Some((pairs, tail))
    requires |tail| >= POINTER_SIZE && ParsePointer(tail) == Flag(SEGMENT_END, 0) && tail[POINTER_SIZE..] == rest
    ensures ReadSegment(bid, off, file) == Read(SegmentRecipe(MakeSegmentId(bid, off, n), pairs), rest)
  {}

  /** The offset at which segment k of the recipe starts. */
  function Offset(segments: seq<seq<Pointer>>, k: nat): nat
    requires k <= |segments|
  {
    if k == 0 then 0 else Offset(segments, k - 1) + POINTER_SIZE * (|segments[k - 1]| + 2)
  }

  predicate ValidRecipe(segments: seq<seq<Pointer>>) {
    forall i :: 0 <= i < |segments| ==> ValidSegment(segments[i])
  }

  lemma {:induction false} RecipeFrom(segments: seq<seq<Pointer>>, k: nat)
    requires k <= |segments| && ValidRecipe(segments)
    ensures Offset(segments, k) <= |RecipeImage(segments)|
    ensures RecipeImage(segments)[Offset(segments, k)..] == RecipeImage(segments[k..])
  {
    if k == 0 {
      assert segments[0..] == segments;
    } else {
      RecipeFrom(segments, k - 1);
      assert segments[k - 1..][1..] == segments[k..];
      SkipFirst(RecipeImage(segments), Offset(segments, k - 1), SegmentImage(segments[k - 1]), RecipeImage(segments[k..]));
    }
  }

  lemma SkipFirst(file: Text, off: nat, first: Text, rest: Text)
    requires off <= |file| && file[off..] == first + rest
    ensures off + |first| <= |file| && file[off + |first|..] == rest
  {
    assert file[off + |first|..] == file[off..][|first|..];
  }

  /** Segment k as it should be read. */
  function RecipeAt(bid: nat, segments: seq<seq<Pointer>>, k: nat): SegmentRecipe
    requires k < |segments|
  {
    SegmentRecipe(MakeSegmentId(bid, Offset(segments, k), |segments[k]|), Pairs(segments[k]))
  }

  lemma SegmentAhead(bid: nat, segments: seq<seq<Pointer>>, k: nat)
    requires k < |segments| && ValidRecipe(segments)
    ensures var file, rest := RecipeImage(segments[k..]), RecipeImage(segments[k + 1..]);
      && ReadSegment(bid, Offset(segments, k), file) == Read(RecipeAt(bid, segments, k), rest)
      && Offset(segments, k) + (|file| - |rest|) == Offset(segments, k + 1)
  {
    assert segments[k..][1..] == segments[k + 1..];
    SegmentReadsBack(bid, Offset(segments, k), segments[k], RecipeImage(segments[k + 1..]));
  }

  /** The id that append_segment_flag returned for segment k leads back to segment k, which is read with
      that same id, whenever the backup number, the offset and the length are in range. */
  lemma SegmentFoundById(bid: nat, segments: seq<seq<Pointer>>, k: nat)
    requires k < |segments| && ValidRecipe(segments)
    requires InRange(bid, Offset(segments, k), |segments[k]|)
    ensures var id := MakeSegmentId(bid, Offset(segments, k), |segments[k]|);
      && IdToBnum(id) == bid && IdToOff(id) <= |RecipeImage(segments)|
      && ReadSegment(bid, IdToOff(id), RecipeImage(segments)[IdToOff(id)..])
         == Read(SegmentRecipe(id, Pairs(segments[k])), RecipeImage(segments[k + 1..]))
  {
    SegmentIdRoundTrip(bid, Offset(segments, k), |segments[k]|);
    RecipeFrom(segments, k);
    SegmentAhead(bid, segments, k);
  }

  /** The loop of prefetch_segments from an offset, with n turns to go; None is one of its asserts, and the
      first turn must find a segment. */
  function Prefetch(bid: nat, off: nat, file: Text, n: nat, first: bool): Option<seq<SegmentRecipe>>
    decreases n
  {
    if n == 0 then Some([])
    else
      match ReadSegment(bid, off, file)
      case NoMore => if first then None else Some([])
      case Broken => None
      case Read(sr, rest) =>
        var more := Prefetch(bid, off + (|file| - |rest|), rest, n - 1, false);
        if more.None? then None else Some([sr] + more.value)
  }

  /** Segment k onwards as it is prefetched. */
  function Recipes(bid: nat, segments: seq<seq<Pointer>>, k: nat, n: nat): seq<SegmentRecipe>
    requires k <= |segments|
    decreases n
  {
    if n == 0 || k == |segments| then []
    else [RecipeAt(bid, segments, k)] + Recipes(bid, segments, k + 1, n - 1)
  }

  lemma PrefetchStep(bid: nat, off: nat, file: Text, n: nat, first: bool, sr: SegmentRecipe, rest: Text, next: nat,
                     more: seq<SegmentRecipe>)
    requires n > 0 && ReadSegment(bid, off, file) == Read(sr, rest)
    requires next == off + (|file| - |rest|) && Prefetch(bid, next, rest, n - 1, false) == Some(more)
    ensures Prefetch(bid, off, file, n, first) == Some([sr] + more)
  {}

  /** Prefetching n segments from segment k gives exactly the next n segments, or all that are left, each
      with its own id; its asserts hold unless something is asked for behind the last segment. */
  lemma {:induction false} PrefetchReadsNext(bid: nat, segments: seq<seq<Pointer>>, k: nat, n: nat, first: bool)
    requires k <= |segments| && ValidRecipe(segments)
    ensures Prefetch(bid, Offset(segments, k), RecipeImage(segments[k..]), n, first)
      == if first && k == |segments| && n > 0 then None else Some(Recipes(bid, segments, k, n))
    decreases n
  {
    if n == 0 {
    } else if k == |segments| {
      assert segments[k..] == [];
      PrefetchNothing(bid, Offset(segments, k), n, first);
    } else {
      PrefetchReadsNext(bid, segments, k + 1, n - 1, false);
      PrefetchOne(bid, segments, k, n, first, Recipes(bid, segments, k + 1, n - 1));
    }
  }

  lemma PrefetchNothing(bid: nat, off: nat, n: nat, first: bool)
    requires n > 0
    ensures Prefetch(bid, off, [], n, first) == if first then None else Some([])
  {}

  lemma PrefetchOne(bid: nat, segments: seq<seq<Pointer>>, k: nat, n: nat, first: bool, more: seq<SegmentRecipe>)
    requires k < |segments| && ValidRecipe(segments) && n > 0
    requires Prefetch(bid, Offset(segments, k + 1), RecipeImage(segments[k + 1..]), n - 1, false) == Some(more)
    ensures Prefetch(bid, Offset(segments, k), RecipeImage(segments[k..]), n, first)
      == Some([RecipeAt(bid, segments, k)] + more)
  {
    SegmentAhead(bid, segments, k);
    PrefetchStep(bid, Offset(segments, k), RecipeImage(segments[k..]), n, first, RecipeAt(bid, segments, k),
                 RecipeImage(segments[k + 1..]), Offset(segments, k + 1), more);
  }

  // ---- the record file

  /** The runs that have ended: an id is logged when the next chunk is in another container. */
  function Ended(ids: seq<ContainerId>): seq<ContainerId> {
    if |ids| <= 1 then []
    else
      var n := |ids| - 1;
      Ended(ids[..n]) + (if ids[n - 1] != ids[n] then [ids[n - 1]] else [])
  }

  /** All runs, the last one included. */
  function Runs(ids: seq<ContainerId>): seq<ContainerId> {
    if ids == [] then [] else Ended(ids) + [ids[|ids| - 1]]
  }

  /** The ids without adjacent repetitions, read from the front. */
  function Squeezed(ids: seq<ContainerId>): seq<ContainerId> {
    if |ids| <= 1 then ids
    else if ids[0] == ids[1] then Squeezed(ids[1..]) else [ids[0]] + Squeezed(ids[1..])
  }

  lemma {:induction false} SqueezedSnoc(ids: seq<ContainerId>, x: ContainerId)
    ensures Squeezed(ids + [x]) == if ids != [] && ids[|ids| - 1] == x then Squeezed(ids) else Squeezed(ids) + [x]
  {
    if |ids| <= 1 {
      assert ids + [x] == if ids == [] then [x] else [ids[0], x];
      assert (ids + [x])[1..] == if ids == [] then [] else [x];
    } else {
      assert (ids + [x])[1..] == ids[1..] + [x];
      SqueezedSnoc(ids[1..], x);
    }
  }

  /** The record file is the access sequence with adjacent repetitions removed. */
  lemma {:induction false} RunsAreSqueezed(ids: seq<ContainerId>)
    ensures Runs(ids) == Squeezed(ids)
    ensures ids != [] ==> Squeezed(ids) != [] && Squeezed(ids)[|Squeezed(ids)| - 1] == ids[|ids| - 1]
  {
    if |ids| > 1 {
      var n := |ids| - 1;
      RunsAreSqueezed(ids[..n]);
      SqueezedSnoc(ids[..n], ids[n]);
      assert ids[..n] + [ids[n]] == ids;
    }
  }

  function RecordsImage(ids: seq<ContainerId>): (r: Text)
    requires forall i :: 0 <= i < |ids| ==> IdFits(ids[i])
    ensures |r| == 8 * |ids|
  {
    if ids == [] then [] else IdImage(ids[0]) + RecordsImage(ids[1..])
  }

  predicate IdFits(id: ContainerId) {
    -0x8000_0000_0000_0000 <= id < 0x8000_0000_0000_0000
  }

  function IdImage(id: ContainerId): (r: Text)
    requires IdFits(id)
    ensures |r| == 8
  {
    Pow256Values();
    Signed(id, 8)
  }

  lemma {:induction false} RecordsSnoc(ids: seq<ContainerId>, id: ContainerId)
    requires IdFits(id) && forall i :: 0 <= i < |ids| ==> IdFits(ids[i])
    ensures RecordsImage(ids + [id]) == RecordsImage(ids) + IdImage(id)
  {
    if ids == [] {
      assert ids + [id] == [id] && [id][1..] == [];
    } else {
      assert (ids + [id])[1..] == ids[1..] + [id];
      RecordsSnoc(ids[1..], id);
    }
  }

  const RECORD_BUF: nat := 65536

  function IdsOf(s: seq<Pointer>): seq<ContainerId> {
    seq(|s|, i requires 0 <= i < |s| => s[i].id)
  }

  // ---- writing

  /** One more access ends the run before it exactly when it goes elsewhere. */
  lemma EndedSnoc(ids: seq<ContainerId>, id: ContainerId)
    ensures Ended(ids + [id])
      == if ids != [] && ids[|ids| - 1] != id then Ended(ids) + [ids[|ids| - 1]] else Ended(ids)
  {
    EndedStep(ids + [id], ids, |ids|);
  }

  lemma EndedStep(all: seq<ContainerId>, ids: seq<ContainerId>, n: nat)
    requires |all| == n + 1 && all[..n] == ids
    ensures Ended(all) == if n > 0 && ids[n - 1] != all[n] then Ended(ids) + [ids[n - 1]] else Ended(ids)
  {
    if n > 0 {
      assert all[n - 1] == ids[n - 1];
    }
  }

  /** The record file, its write buffer, and access_record. */
  class RecordLog {
    var file: Text
    var buf: Text
    var accessRecord: ContainerId
    ghost var ids: seq<ContainerId>

    ghost predicate Valid()
      reads this
    {
      && |buf| <= RECORD_BUF
      && (forall i :: 0 <= i < |ids| ==> 0 <= ids[i] && IdFits(ids[i]))
      && accessRecord == (if ids == [] then TEMPORARY_ID else ids[|ids| - 1])
      && (forall i :: 0 <= i < |Ended(ids)| ==> IdFits(Ended(ids)[i]))
      && file + buf == RecordsImage(Ended(ids))
    }

    constructor ()
      ensures Valid() && ids == []
    {
      file, buf, accessRecord, ids := [], [], TEMPORARY_ID, [];
    }

    /** The part of append_n_chunk_pointers that logs accesses. */
    method Access(id: ContainerId)
      requires Valid() && id >= 0 && IdFits(id)
      modifies this
      ensures Valid() && ids == old(ids) + [id]
    {
      EndedSnoc(ids, id);
      if accessRecord != TEMPORARY_ID && accessRecord != id {
        RecordsSnoc(Ended(ids), accessRecord);
        Put(accessRecord);
      }
      accessRecord, ids := id, ids + [id];
    }

    method Put(id: ContainerId)
      requires |buf| <= RECORD_BUF && IdFits(id)
      modifies this`file, this`buf
      ensures |buf| <= RECORD_BUF && file + buf == old(file + buf) + IdImage(id)
    {
      ghost var written := file + buf;
      if |buf| + 8 > RECORD_BUF {
        file, buf := file + buf, [];
        assert file + buf == written;
      }
      buf := buf + IdImage(id);
      assert file + buf == written + IdImage(id);
    }

    /** The part of update_backup_version that finishes the record file: the last run and an end mark. */
    method Finish()
      requires Valid()
      modifies this
      ensures (forall i :: 0 <= i < |Runs(ids)| ==> IdFits(Runs(ids)[i])) && ids == old(ids)
      ensures file == RecordsImage(Runs(ids) + [TEMPORARY_ID]) && accessRecord == TEMPORARY_ID
    {
      file, buf := file + buf, [];
      if accessRecord != TEMPORARY_ID {
        RecordsSnoc(Ended(ids), accessRecord);
        file := file + IdImage(accessRecord);
      }
      accessRecord := TEMPORARY_ID;
      RecordsSnoc(Runs(ids), TEMPORARY_ID);
      file := file + IdImage(TEMPORARY_ID);
    }
  }

  lemma {:induction false} PointersSnoc(s: seq<Pointer>, p: Pointer)
    requires AllStorable(s) && Storable(p)
    ensures PointersImage(s + [p]) == PointersImage(s) + PointerImage(p)
  {
    if s == [] {
      assert s + [p] == [p] && [p][1..] == [];
    } else {
      assert (s + [p])[1..] == s[1..] + [p];
      PointersSnoc(s[1..], p);
    }
  }

  lemma {:induction false} RecipeSnoc(segments: seq<seq<Pointer>>, s: seq<Pointer>)
    requires ValidRecipe(segments) && ValidSegment(s)
    ensures ValidRecipe(segments + [s])
    ensures RecipeImage(segments + [s]) == RecipeImage(segments) + SegmentImage(s)
  {
    if segments == [] {
      assert segments + [s] == [s] && [s][1..] == [];
    } else {
      assert (segments + [s])[1..] == segments[1..] + [s];
      RecipeSnoc(segments[1..], s);
    }
  }

  /** What segmentbuf holds between append_segment_flag calls. */
  ghost predicate Buffered(buf: Text, off: nat, size: nat, s: seq<Pointer>) {
    && |s| <= size < 0x8000_0000
    && AllStorable(s) && AllNamed(s)
    && |buf| == POINTER_SIZE * (size + 2)
    && off == POINTER_SIZE * (|s| + 1)
    && buf[..off] == PointerImage(Flag(SEGMENT_START, size)) + PointersImage(s)
  }

  lemma BufferedStart(buf: Text, size: nat)
    requires |buf| == POINTER_SIZE * (size + 2) && size < 0x8000_0000
    ensures Buffered(Overlay(buf, 0, PointerImage(Flag(SEGMENT_START, size))), POINTER_SIZE, size, [])
  {
    var flag := PointerImage(Flag(SEGMENT_START, size));
    assert Overlay(buf, 0, flag)[..POINTER_SIZE] == flag && flag + [] == flag;
  }

  lemma BufferedSnoc(buf: Text, off: nat, size: nat, s: seq<Pointer>, p: Pointer)
    requires Buffered(buf, off, size, s) && |s| < size && Storable(p) && p.id >= 0
    ensures Buffered(Overlay(buf, off, PointerImage(p)), off + POINTER_SIZE, size, s + [p])
  {
    PointersSnoc(s, p);
    var r := Overlay(buf, off, PointerImage(p));
    assert r[..off + POINTER_SIZE] == buf[..off] + PointerImage(p);
    assert buf[..off] + PointerImage(p) == PointerImage(Flag(SEGMENT_START, size)) + PointersImage(s + [p]);
  }

  lemma BufferedFull(buf: Text, off: nat, size: nat, s: seq<Pointer>)
    requires Buffered(buf, off, size, s) && |s| == size
    ensures ValidSegment(s) && Overlay(buf, off, PointerImage(Flag(SEGMENT_END, 0))) == SegmentImage(s)
  {
    var end := PointerImage(Flag(SEGMENT_END, 0));
    assert Overlay(buf, off, end) == buf[..off] + end;
  }

  class BackupVersion {
    const bvNum: nat
    var recipeFile: Text
    var segmentBuf: array<Byte>
    var segmentOff: nat
    var numberOfChunks: nat
    ghost var segments: seq<seq<Pointer>>
    ghost var expected: nat
    ghost var current: Option<seq<Pointer>>

    ghost predicate Valid()
      reads this, segmentBuf
    {
      && ValidRecipe(segments) && recipeFile == RecipeImage(segments)
      && numberOfChunks == |Flat(segments)| + (if current.Some? then |current.value| else 0)
      && (current.Some? ==> Buffered(segmentBuf[..], segmentOff, expected, current.value))
    }

    constructor (number: nat)
      ensures Valid() && bvNum == number && segments == [] && current.None? && fresh(segmentBuf)
    {
      bvNum, recipeFile, segmentOff, numberOfChunks := number, [], 0, 0;
      segmentBuf := new Byte[0];
      segments, expected, current := [], 0, None;
    }

    /** append_segment_flag(CHUNK_SEGMENT_START): the id says where the segment will be. */
    method StartSegment(size: nat) returns (id: int)
      requires Valid() && current.None? && size < 0x8000_0000
      modifies this
      ensures Valid() && current == Some([]) && expected == size && segments == old(segments)
      ensures fresh(segmentBuf)
      ensures id == MakeSegmentId(bvNum, Offset(segments, |segments|), size)
      ensures InRange(bvNum, Offset(segments, |segments|), size) <==>
        (IdToBnum(id) == bvNum && IdToOff(id) == Offset(segments, |segments|) && IdToSize(id) == size)
    {
      RecipeFrom(segments, |segments|);
      assert segments[|segments|..] == [];
      segmentBuf := new Byte[POINTER_SIZE * (size + 2)](_ => 0);
      BufferedStart(segmentBuf[..], size);
      CopyIn(segmentBuf, 0, PointerImage(Flag(SEGMENT_START, size)));
      segmentOff, current, expected := POINTER_SIZE, Some([]), size;
      id := MakeSegmentId(bvNum, |recipeFile|, size);
      SegmentIdRoundTrip(bvNum, Offset(segments, |segments|), size);
    }

    /** append_n_chunk_pointers for one pointer; its assert is the bound on the id. */
    method AppendChunkPointer(p: Pointer, log: RecordLog)
      requires Valid() && log.Valid() && current.Some? && |current.value| < expected && Storable(p) && p.id >= 0
      modifies this`segmentOff, this`numberOfChunks, this`current, segmentBuf, log
      ensures Valid() && log.Valid() && segments == old(segments) && expected == old(expected)
      ensures current == Some(old(current).value + [p]) && log.ids == old(log.ids) + [p.id]
    {
      BufferedSnoc(segmentBuf[..], segmentOff, expected, current.value, p);
      log.Access(p.id);
      CopyIn(segmentBuf, segmentOff, PointerImage(p));
      segmentOff := segmentOff + POINTER_SIZE;
      current := Some(current.value + [p]);
      numberOfChunks := numberOfChunks + 1;
    }

    /** append_segment_flag(CHUNK_SEGMENT_END): the whole buffer goes to the file. */
    method EndSegment()
      requires Valid() && current.Some? && |current.value| == expected
      modifies this, segmentBuf
      ensures Valid() && current.None? && segments == old(segments) + [old(current).value]
      ensures segmentBuf == old(segmentBuf)
    {
      BufferedFull(segmentBuf[..], segmentOff, expected, current.value);
      CopyIn(segmentBuf, segmentOff, PointerImage(Flag(SEGMENT_END, 0)));
      recipeFile := recipeFile + segmentBuf[..];
      RecipeSnoc(segments, current.value);
      FlatSnoc(segments, current.value);
      segments, current := segments + [current.value], None;
    }
  }

  // ---- reading

  /** A reader of the recipe file: read_next_n_chunk_pointers with its count of chunks read. */
  class RecipeReader {
    var file: Text
    var readChunkNum: nat
    const numberOfChunks: nat
    ghost var left: seq<Pointer>

    ghost predicate Valid()
      reads this
    {
      readChunkNum + |left| == numberOfChunks && ReadChunks(file, |left|) == Some(left)
    }

    constructor (recipeFile: Text, chunks: nat, ghost segments: seq<seq<Pointer>>)
      requires ValidRecipe(segments) && recipeFile == RecipeImage(segments) && chunks == |Flat(segments)|
      ensures Valid() && left == Flat(segments)
    {
      RecipeReadsBack(segments);
      file, readChunkNum, numberOfChunks, left := recipeFile, 0, chunks, Flat(segments);
    }

    /** One chunk pointer; segment boundaries are ignored. */
    method ReadOne() returns (cp: Pointer)
      requires left != [] && ReadChunks(file, |left|) == Some(left)
      modifies this`file, this`left
      ensures cp == old(left)[0] && left == old(left)[1..] && ReadChunks(file, |left|) == Some(left)
    {
      while IsFlag(ParsePointer(file))
        invariant ReadChunks(file, |left|) == Some(left) && left == old(left)
        decreases |file|
      {
        ReadsSame(file, file[POINTER_SIZE..], |left|);
        file := file[POINTER_SIZE..];
      }
      cp := ParsePointer(file);
      file := file[POINTER_SIZE..];
      left := left[1..];
    }

    /** read_next_n_chunk_pointers. */
    method ReadNext(n: nat) returns (cps: seq<Pointer>)
      requires Valid()
      modifies this
      ensures Valid() && |cps| == (if n < |old(left)| then n else |old(left)|)
      ensures cps == old(left)[..|cps|] && left == old(left)[|cps|..]
    {
      var num := if numberOfChunks - readChunkNum > n then n else numberOfChunks - readChunkNum;
      cps := [];
      while |cps| < num
        modifies this`file, this`left
        invariant |cps| <= num
        invariant cps == old(left)[..|cps|] && left == old(left)[|cps|..]
        invariant ReadChunks(file, |left|) == Some(left)
      {
        var cp := ReadOne();
        cps := cps + [cp];
      }
      readChunkNum := readChunkNum + num;
    }
  }

  function ParseId(s: Text): ContainerId
    requires |s| >= 8
  {
    FromSigned(s[..8])
  }

  lemma IdRoundTrip(id: ContainerId, rest: Text)
    requires IdFits(id)
    ensures ParseId(IdImage(id) + rest) == id && (IdImage(id) + rest)[8..] == rest
  {
    Pow256Values();
    SignedRoundTrip(id, 8);
    assert (IdImage(id) + rest)[..8] == IdImage(id);
  }

  /** A reader of the record file: read_next_n_records with its end flag. */
  class RecordReader {
    var file: Text
    var end: bool
    ghost var left: seq<ContainerId>

    /** What is left ends in the one end mark. */
    ghost predicate Valid()
      reads this
    {
      && (forall i :: 0 <= i < |left| ==> IdFits(left[i])) && file == RecordsImage(left)
      && (end <==> left == [])
      && (forall i :: 0 <= i < |left| ==> (left[i] == TEMPORARY_ID <==> i == |left| - 1))
    }

    constructor (recordFile: Text, ghost ids: seq<ContainerId>)
      requires forall i :: 0 <= i < |ids| ==> ids[i] >= 0 && IdFits(ids[i])
      requires recordFile == RecordsImage(ids + [TEMPORARY_ID])
      ensures Valid() && left == ids + [TEMPORARY_ID]
    {
      file, end, left := recordFile, false, ids + [TEMPORARY_ID];
    }

    /** None once the end mark has been read. */
    method ReadNext(n: nat) returns (r: Option<seq<ContainerId>>)
      requires Valid() && n > 0
      modifies this
      ensures Valid() && (r.None? <==> old(left) == []) && (r.None? ==> left == [])
      ensures r.Some? ==> 0 < |r.value| == (if n < |old(left)| then n else |old(left)|)
      ensures r.Some? ==> r.value == old(left)[..|r.value|] && left == old(left)[|r.value|..]
    {
      if end { return None; }
      var ids: seq<ContainerId> := [];
      while |ids| < n && |file| >= 8
        modifies this`file, this`left
        invariant |ids| <= n && |ids| <= |old(left)|
        invariant ids == old(left)[..|ids|] && left == old(left)[|ids|..]
        invariant forall i :: 0 <= i < |left| ==> IdFits(left[i])
        invariant file == RecordsImage(left)
        decreases |file|
      {
        IdRoundTrip(left[0], RecordsImage(left[1..]));
        ids := ids + [ParseId(file)];
        file := file[8..];
        left := left[1..];
      }
      end := ids[|ids| - 1] == TEMPORARY_ID;
      r := Some(ids);
    }
  }
}
