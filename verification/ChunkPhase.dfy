/** The chunking thread: a refill buffer between blocks as they were read and chunks as they are cut. */
module ChunkPhase {
  import opened Common
  import opened Rolling
  import opened Cutters

  const DEFAULT_BLOCK_SIZE: nat := 1048576

  /** What travels on read_queue (Data holds a block) and on chunk_queue (Data holds a chunk). */
  datatype Packet = FileStart(name: string) | Data(bytes: seq<Byte>) | FileEnd

  datatype File = File(name: string, blocks: seq<seq<Byte>>)

  /** IsCut, carried unopened until Seen is mentioned, as Scanned is. */
  ghost predicate CutHere(alg: Algorithm, cfg: Config, s: seq<Byte>, r: nat)
    requires ValidConfig(alg, cfg)
  {
    forall t: seq<Byte> {:trigger Seen(t)} :: Seen(t) && t == s ==> IsCut(alg, cfg, t, r)
  }

  /** The chunks are what cutting s again and again from the front gives, as far as they go. */
  ghost predicate CutsFront(alg: Algorithm, cfg: Config, s: seq<Byte>, chunks: seq<seq<Byte>>)
    requires ValidConfig(alg, cfg)
  {
    chunks == []
    || (s != [] && chunks[0] <= s && CutHere(alg, cfg, s, |chunks[0]|)
        && CutsFront(alg, cfg, s[|chunks[0]|..], chunks[1..]))
  }

  /** Cutting the whole of s in one piece. */
  ghost predicate IsChunking(alg: Algorithm, cfg: Config, s: seq<Byte>, chunks: seq<seq<Byte>>)
    requires ValidConfig(alg, cfg)
  {
    CutsFront(alg, cfg, s, chunks) && Flat(chunks) == s
  }

  lemma {:induction false} CutsFrontAppend(alg: Algorithm, cfg: Config, s: seq<Byte>, chunks: seq<seq<Byte>>,
                                           rest: seq<Byte>, c: seq<Byte>)
    requires ValidConfig(alg, cfg) && CutsFront(alg, cfg, s, chunks) && Flat(chunks) + rest == s
    requires rest != [] && c <= rest && CutHere(alg, cfg, rest, |c|)
    ensures CutsFront(alg, cfg, s, chunks + [c])
  {
    if chunks == [] {
      assert s == rest;
      assert [c][1..] == [];
    } else {
      var k := |chunks[0]|;
      assert s[k..] == Flat(chunks[1..]) + rest;
      CutsFrontAppend(alg, cfg, s[k..], chunks[1..], rest, c);
      assert (chunks + [c])[1..] == chunks[1..] + [c];
    }
  }

  lemma {:induction false} ChunkingUnique(alg: Algorithm, cfg: Config, s: seq<Byte>,
                                          a: seq<seq<Byte>>, b: seq<seq<Byte>>)
    requires ValidConfig(alg, cfg) && IsChunking(alg, cfg, s, a) && IsChunking(alg, cfg, s, b)
    ensures a == b
  {
    if s == [] {
      assert a == [] && b == [];
    } else {
      assert Seen(s);
      CutUnique(alg, cfg, s, |a[0]|, |b[0]|);
      ChunkingUnique(alg, cfg, s[|a[0]|..], a[1..], b[1..]);
    }
  }

  /** Chunks are never empty and never longer than max; only a file's last one may be below min. */
  lemma {:induction false} ChunkSizes(alg: Algorithm, cfg: Config, s: seq<Byte>, chunks: seq<seq<Byte>>, i: nat)
    requires ValidConfig(alg, cfg) && IsChunking(alg, cfg, s, chunks) && i < |chunks|
    ensures 1 <= |chunks[i]| <= cfg.max
    ensures i + 1 < |chunks| ==> |chunks[i]| >= Least(alg, cfg)
  {
    assert Seen(s);
    CutBounds(alg, cfg, s, |chunks[0]|);
    if i == 0 {
      assert CutsFront(alg, cfg, s[|chunks[0]|..], chunks[1..]);
    } else {
      ChunkSizes(alg, cfg, s[|chunks[0]|..], chunks[1..], i - 1);
    }
  }

  // ---- streams

  /** What is left of a queue inside a file: the blocks to come, the end mark, and the later files. */
  function FileTail(parts: seq<seq<Byte>>, tail: seq<Packet>): seq<Packet> {
    if parts == [] then [FileEnd] + tail else [Data(parts[0])] + FileTail(parts[1..], tail)
  }

  function Stream(files: seq<File>): seq<Packet> {
    if files == [] then [] else [FileStart(files[0].name)] + FileTail(files[0].blocks, Stream(files[1..]))
  }

  /** out is, file by file, the file's name, the chunks of its whole content, and an end mark. */
  ghost predicate IsOutput(alg: Algorithm, cfg: Config, files: seq<File>, out: seq<Packet>)
    requires ValidConfig(alg, cfg)
  {
    if files == [] then out == []
    else
      exists chunks, rest :: out == [FileStart(files[0].name)] + FileTail(chunks, rest)
        && IsChunking(alg, cfg, Flat(files[0].blocks), chunks) && IsOutput(alg, cfg, files[1..], rest)
  }

  predicate SameContents(files: seq<File>, files': seq<File>) {
    |files| == |files'| && forall i :: 0 <= i < |files| ==>
      files[i].name == files'[i].name && Flat(files[i].blocks) == Flat(files'[i].blocks)
  }

  /** How the files were split into blocks cannot be seen in the chunk stream. */
  lemma {:induction false} BlockIndependence(alg: Algorithm, cfg: Config, files: seq<File>, files': seq<File>,
                                             out: seq<Packet>, out': seq<Packet>)
    requires ValidConfig(alg, cfg) && SameContents(files, files')
    requires IsOutput(alg, cfg, files, out) && IsOutput(alg, cfg, files', out')
    ensures out == out'
  {
    if files != [] {
      var chunks, rest :| out == [FileStart(files[0].name)] + FileTail(chunks, rest)
        && IsChunking(alg, cfg, Flat(files[0].blocks), chunks) && IsOutput(alg, cfg, files[1..], rest);
      var chunks', rest' :| out' == [FileStart(files'[0].name)] + FileTail(chunks', rest')
        && IsChunking(alg, cfg, Flat(files'[0].blocks), chunks') && IsOutput(alg, cfg, files'[1..], rest');
      ChunkingUnique(alg, cfg, Flat(files[0].blocks), chunks, chunks');
      BlockIndependence(alg, cfg, files[1..], files'[1..], rest, rest');
    }
  }

  // ---- the thread

  ghost predicate SmallBlocks(blocks: seq<seq<Byte>>) {
    forall i :: 0 <= i < |blocks| ==> |blocks[i]| <= DEFAULT_BLOCK_SIZE
  }

  /** The queue while a file is being read: blocks are still to come, or its end mark was popped. */
  ghost predicate Reading(queue: seq<Packet>, blocks: seq<seq<Byte>>, tail: seq<Packet>, ended: bool) {
    SmallBlocks(blocks) && (if ended then blocks == [] && queue == tail else queue == FileTail(blocks, tail))
  }

  /** memmove of the leftover to the front, memcpy of the new block behind it. */
  method Take(leftbuf: array<Byte>, off: nat, len: nat, data: seq<Byte>)
    requires off + len <= leftbuf.Length && len + |data| <= leftbuf.Length
    modifies leftbuf
    ensures leftbuf[..len + |data|] == old(leftbuf[off..off + len]) + data
  {
    forall k | 0 <= k < len { leftbuf[k] := leftbuf[off + k]; }
    ghost var kept := leftbuf[..len];
    forall k | 0 <= k < |data| { leftbuf[len + k] := data[k]; }
    assert leftbuf[..len] == kept;
    assert leftbuf[len..len + |data|] == data;
  }

  /** Pops blocks until max bytes are left in the buffer or the file has ended. */
  method Refill(cfg: Config, queue: seq<Packet>, leftbuf: array<Byte>, leftlen: nat, leftoff: nat,
                ended: bool, ghost blocks: seq<seq<Byte>>, ghost tail: seq<Packet>)
    returns (queue': seq<Packet>, leftlen': nat, leftoff': nat, ended': bool, ghost blocks': seq<seq<Byte>>)
    requires leftbuf.Length == DEFAULT_BLOCK_SIZE + cfg.max && leftoff + leftlen <= leftbuf.Length
    requires Reading(queue, blocks, tail, ended)
    modifies leftbuf
    ensures Reading(queue', blocks', tail, ended')
    ensures leftoff' + leftlen' <= leftbuf.Length && (leftlen' >= cfg.max || ended')
    ensures leftbuf[leftoff'..leftoff' + leftlen'] + Flat(blocks')
         == old(leftbuf[leftoff..leftoff + leftlen]) + Flat(blocks)
  {
    queue', leftlen', leftoff', ended', blocks' := queue, leftlen, leftoff, ended, blocks;
    ghost var all := leftbuf[leftoff..leftoff + leftlen] + Flat(blocks);
    while leftlen' < cfg.max && !ended'
      invariant Reading(queue', blocks', tail, ended')
      invariant leftoff' + leftlen' <= leftbuf.Length
      invariant leftbuf[leftoff'..leftoff' + leftlen'] + Flat(blocks') == all
      decreases !ended', |blocks'|
    {
      var c := queue'[0];
      queue' := queue'[1..];
      if c.FileEnd? {
        ended' := true;
      } else {
        ghost var kept := leftbuf[leftoff'..leftoff' + leftlen'];
        Take(leftbuf, leftoff', leftlen', c.bytes);
        leftoff' := 0;
        leftlen' := leftlen' + |c.bytes|;
        blocks' := blocks'[1..];
        Regroup(kept, c.bytes, Flat(blocks'));
      }
    }
  }

  /** The chunks so far are right, and rest is the part of the content that is still uncut. */
  ghost predicate CutSoFar(alg: Algorithm, cfg: Config, s: seq<Byte>, chunks: seq<seq<Byte>>, rest: seq<Byte>)
    requires ValidConfig(alg, cfg)
  {
    CutsFront(alg, cfg, s, chunks) && Flat(chunks) + rest == s
  }

  /** The buffered bytes are cut as the whole rest of the file would be. */
  method CutBuffered(alg: Algorithm, cfg: Config, tables: Tables, buffered: seq<Byte>, ghost rest: seq<Byte>, ghost ended: bool)
    returns (chunk: seq<Byte>)
    requires ValidConfig(alg, cfg) && Initialised(tables) && tables.poly == FINGERPRINT_PT
    requires buffered != [] && buffered <= rest && (if ended then buffered == rest else |buffered| >= cfg.max)
    ensures chunk <= buffered && chunk != [] && CutHere(alg, cfg, rest, |chunk|)
  {
    var chunkSize := Chunking(alg, tables, cfg, buffered);
    CutBounds(alg, cfg, buffered, chunkSize);
    if |buffered| >= cfg.max { CutPrefix(alg, cfg, buffered, rest, chunkSize); }
    chunk := buffered[..chunkSize];
  }

  /** One turn of the cutting loop. */
  method CutOne(alg: Algorithm, cfg: Config, tables: Tables, buffered: seq<Byte>, ghost ended: bool,
                ghost s: seq<Byte>, ghost chunks: seq<seq<Byte>>, ghost rest: seq<Byte>)
    returns (chunk: seq<Byte>)
    requires ValidConfig(alg, cfg) && Initialised(tables) && tables.poly == FINGERPRINT_PT
    requires buffered != [] && buffered <= rest && (if ended then buffered == rest else |buffered| >= cfg.max)
    requires CutSoFar(alg, cfg, s, chunks, rest)
    ensures chunk <= buffered && chunk != []
    ensures CutSoFar(alg, cfg, s, chunks + [chunk], rest[|chunk|..])
  {
    chunk := CutBuffered(alg, cfg, tables, buffered, rest, ended);
    CutsFrontAppend(alg, cfg, s, chunks, rest, chunk);
    FlatSnoc(chunks, chunk);
    assert rest == chunk + rest[|chunk|..];
    Regroup(Flat(chunks), chunk, rest[|chunk|..]);
  }

  /** The part of the loop between a file's start and end marks. */
  method ChunkFile(alg: Algorithm, cfg: Config, tables: Tables, queue: seq<Packet>, leftbuf: array<Byte>,
                   ghost blocks: seq<seq<Byte>>, ghost tail: seq<Packet>)
    returns (queue': seq<Packet>, chunks: seq<seq<Byte>>)
    requires ValidConfig(alg, cfg) && Initialised(tables) && tables.poly == FINGERPRINT_PT
    requires leftbuf.Length == DEFAULT_BLOCK_SIZE + cfg.max
    requires Reading(queue, blocks, tail, false)
    modifies leftbuf
    ensures IsChunking(alg, cfg, Flat(blocks), chunks)
    ensures queue' == tail
  {
    chunks := [];
    var leftlen: nat, ended;
    ghost var toCome;
    queue', leftlen, ended, toCome := FirstBlock(cfg, queue, leftbuf, blocks, tail);
    var leftoff: nat := 0;
    ghost var rest := Flat(blocks);
    while true
      invariant leftoff + leftlen <= leftbuf.Length
      invariant Reading(queue', toCome, tail, ended)
      invariant rest == leftbuf[leftoff..leftoff + leftlen] + Flat(toCome)
      invariant CutSoFar(alg, cfg, Flat(blocks), chunks, rest)
      decreases |rest|
    {
      queue', leftlen, leftoff, ended, toCome := Refill(cfg, queue', leftbuf, leftlen, leftoff, ended, toCome, tail);
      if leftlen == 0 {
        assert ended && rest == [];
        break;
      }
      var buffered := leftbuf[leftoff..leftoff + leftlen];
      var chunk := CutOne(alg, cfg, tables, buffered, ended, Flat(blocks), chunks, rest);
      DropFront(leftbuf[..], leftoff, leftlen, |chunk|, Flat(toCome));
      chunks := chunks + [chunk];
      leftlen := leftlen - |chunk|;
      leftoff := leftoff + |chunk|;
      rest := rest[|chunk|..];
    }
  }

  lemma DropFront(b: seq<Byte>, off: nat, len: nat, k: nat, rest: seq<Byte>)
    requires off + len <= |b| && k <= len
    ensures (b[off..off + len] + rest)[k..] == b[off + k..off + len] + rest
  {}

  method FirstBlock(cfg: Config, queue: seq<Packet>, leftbuf: array<Byte>, ghost blocks: seq<seq<Byte>>, ghost tail: seq<Packet>)
    returns (queue': seq<Packet>, leftlen: nat, ended: bool, ghost toCome: seq<seq<Byte>>)
    requires leftbuf.Length == DEFAULT_BLOCK_SIZE + cfg.max
    requires Reading(queue, blocks, tail, false)
    modifies leftbuf
    ensures leftlen <= leftbuf.Length && Reading(queue', toCome, tail, ended)
    ensures leftbuf[..leftlen] + Flat(toCome) == Flat(blocks)
  {
    var c := queue[0];
    queue', leftlen, ended, toCome := queue[1..], 0, false, blocks;
    if c.FileEnd? {
      ended := true;
    } else {
      Take(leftbuf, 0, 0, c.bytes);
      leftlen := leftlen + |c.bytes|;
      toCome := blocks[1..];
    }
  }

  /** out, extended by the outputs of the files to come, is the output of all files. */
  ghost predicate Prefixes(alg: Algorithm, cfg: Config, files: seq<File>, todo: seq<File>, out: seq<Packet>)
    requires ValidConfig(alg, cfg)
  {
    forall rest :: IsOutput(alg, cfg, todo, rest) ==> IsOutput(alg, cfg, files, out + rest)
  }

  lemma {:induction false} FileTailConcat(parts: seq<seq<Byte>>, tail: seq<Packet>)
    ensures FileTail(parts, tail) == FileTail(parts, []) + tail
  {
    if parts != [] { FileTailConcat(parts[1..], tail); }
  }

  lemma OutputOfFirst(alg: Algorithm, cfg: Config, todo: seq<File>, chunks: seq<seq<Byte>>, rest: seq<Packet>)
    requires ValidConfig(alg, cfg) && todo != []
    requires IsChunking(alg, cfg, Flat(todo[0].blocks), chunks) && IsOutput(alg, cfg, todo[1..], rest)
    ensures IsOutput(alg, cfg, todo, [FileStart(todo[0].name)] + FileTail(chunks, rest))
  {}

  lemma PrefixesNext(alg: Algorithm, cfg: Config, files: seq<File>, todo: seq<File>, out: seq<Packet>, chunks: seq<seq<Byte>>)
    requires ValidConfig(alg, cfg) && Prefixes(alg, cfg, files, todo, out) && todo != []
    requires IsChunking(alg, cfg, Flat(todo[0].blocks), chunks)
    ensures Prefixes(alg, cfg, files, todo[1..], out + [FileStart(todo[0].name)] + FileTail(chunks, []))
  {
    var start := [FileStart(todo[0].name)];
    forall rest | IsOutput(alg, cfg, todo[1..], rest)
      ensures IsOutput(alg, cfg, files, (out + start + FileTail(chunks, [])) + rest)
    {
      OutputOfFirst(alg, cfg, todo, chunks, rest);
      FileTailConcat(chunks, rest);
      Regroup4(out, start, FileTail(chunks, []), rest);
    }
  }

  method ChunkThread(alg: Algorithm, cfg: Config, tables: Tables, readQueue: seq<Packet>, ghost files: seq<File>)
    returns (out: seq<Packet>)
    requires ValidConfig(alg, cfg) && Initialised(tables) && tables.poly == FINGERPRINT_PT
    requires readQueue == Stream(files) && forall i :: 0 <= i < |files| ==> SmallBlocks(files[i].blocks)
    ensures IsOutput(alg, cfg, files, out)
  {
    var leftbuf := new Byte[DEFAULT_BLOCK_SIZE + cfg.max];
    var queue := readQueue;
    ghost var todo := files;
    out := [];
    assert forall rest: seq<Packet> :: [] + rest == rest;
    while queue != []
      invariant queue == Stream(todo) && forall i :: 0 <= i < |todo| ==> SmallBlocks(todo[i].blocks)
      invariant Prefixes(alg, cfg, files, todo, out)
      decreases |todo|
    {
      var c := queue[0];
      assert queue[1..] == FileTail(todo[0].blocks, Stream(todo[1..]));
      var chunks;
      queue, chunks := ChunkFile(alg, cfg, tables, queue[1..], leftbuf, todo[0].blocks, Stream(todo[1..]));
      PrefixesNext(alg, cfg, files, todo, out, chunks);
      out := out + [c] + FileTail(chunks, []);
      todo := todo[1..];
    }
    assert IsOutput(alg, cfg, todo, []);
    assert out + [] == out;
  }
}
