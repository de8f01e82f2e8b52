/** containerstore.c: chunks are laid out in a container, written to the pool and read back. */
module ContainerStore {
  import opened Common
  import opened Bytes

  /** A metaEntry. */
  datatype Entry = Entry(len: nat, off: nat)
  type Entries = map<ChunkFp, Entry>

  const HEAD: nat := 16

  /** The table's keys in the order the hash table gives them. */
  predicate IsOrder(m: Entries, order: seq<ChunkFp>) {
    |order| == |m| && (set fp | fp in order) == m.Keys
  }

  function EntryImage(fp: ChunkFp, e: Entry): (s: Text)
    ensures |s| == CONTAINER_META_ENTRY
  {
    fp.hash + Little(e.len, 4) + Little(e.off, 4)
  }

  function EntriesImage(m: Entries, order: seq<ChunkFp>): (s: Text)
    requires forall fp :: fp in order ==> fp in m
    ensures |s| == CONTAINER_META_ENTRY * |order|
  {
    if order == [] then [] else EntryImage(order[0], m[order[0]]) + EntriesImage(m, order[1..])
  }

  function MetaImage(id: nat, dataSize: nat, m: Entries, order: seq<ChunkFp>): (s: Text)
    requires IsOrder(m, order)
    ensures |s| == HEAD + CONTAINER_META_ENTRY * |m|
  {
    Big(id, 8) + Big(|m|, 4) + Big(dataSize, 4) + EntriesImage(m, order)
  }

  // ---- reading

  function ParseEntry(s: Text): (ChunkFp, Entry)
    requires |s| >= CONTAINER_META_ENTRY
  {
    (Digest(s[..20]), Entry(FromLittle(s[20..24]), FromLittle(s[24..28])))
  }

  function ParseEntries(s: Text, n: nat, acc: Entries): Entries
    requires |s| >= CONTAINER_META_ENTRY * n
    decreases n
  {
    if n == 0 then acc
    else var (fp, e) := ParseEntry(s); ParseEntries(s[28..], n - 1, acc[fp := e])
  }

  datatype StoredMeta = StoredMeta(id: nat, dataSize: nat, entries: Entries)

  /** None when the count runs past the metadata area. */
  function ParseMeta(s: Text): Option<StoredMeta>
    requires |s| == CONTAINER_META_SIZE
  {
    var n := FromBig(s[8..12]);
    if HEAD + CONTAINER_META_ENTRY * n > CONTAINER_META_SIZE then None
    else Some(StoredMeta(FromBig(s[..8]), FromBig(s[12..16]), ParseEntries(s[16..], n, map[])))
  }

  function Position(id: nat): nat {
    id * CONTAINER_SIZE + 8
  }

  /** retrieve_container_by_id: the metadata and the 4 MB block; None when the assert on the id fails. */
  function Retrieve(pool: Text, id: nat): Option<(StoredMeta, Text)> {
    if Position(id + 1) > |pool| then None
    else
      var block := pool[Position(id)..Position(id + 1)];
      var meta := ParseMeta(block[DATA_AREA..]);
      if meta.None? || meta.value.id != id then None else Some((meta.value, block))
  }

  /** retrieve_container_meta_by_id when the container is not queued. */
  function RetrieveMeta(pool: Text, id: nat): Option<StoredMeta> {
    if Position(id + 1) > |pool| then None
    else
      var meta := ParseMeta(pool[Position(id + 1) - CONTAINER_META_SIZE..Position(id + 1)]);
      if meta.None? || meta.value.id != id then None else meta
  }

  lemma MetaAgrees(pool: Text, id: nat)
    ensures RetrieveMeta(pool, id) == (if Retrieve(pool, id).Some? then Some(Retrieve(pool, id).value.0) else None)
  {
    if Position(id + 1) <= |pool| {
      assert pool[Position(id)..Position(id + 1)][DATA_AREA..] == pool[Position(id + 1) - CONTAINER_META_SIZE..Position(id + 1)];
    }
  }

  /** get_chunk_in_container: the bytes; None is its assert. */
  function ChunkBytes(c: (StoredMeta, Text), fp: ChunkFp): Option<Text> {
    if fp !in c.0.entries then None
    else
      var e := c.0.entries[fp];
      if e.off + e.len > |c.1| then None else Some(c.1[e.off..e.off + e.len])
  }

  // ---- the metadata round trip

  predicate Small(m: Entries) {
    forall fp :: fp in m ==> m[fp].len < 0x1_0000_0000 && m[fp].off < 0x1_0000_0000
  }

  lemma EntryRoundTrip(fp: ChunkFp, e: Entry, rest: Text)
    requires e.len < 0x1_0000_0000 && e.off < 0x1_0000_0000
    ensures ParseEntry(EntryImage(fp, e) + rest) == (fp, e)
    ensures (EntryImage(fp, e) + rest)[28..] == rest
  {
    Pow256Values();
    LittleRoundTrip(e.len, 4);
    LittleRoundTrip(e.off, 4);
    var s := EntryImage(fp, e) + rest;
    assert s[..20] == fp.hash && s[20..24] == Little(e.len, 4) && s[24..28] == Little(e.off, 4);
  }

  function Chosen(m: Entries, order: seq<ChunkFp>): Entries
    requires forall fp :: fp in order ==> fp in m
  {
    map fp | fp in order :: m[fp]
  }

  lemma {:induction false} EntriesRoundTrip(m: Entries, order: seq<ChunkFp>, rest: Text, acc: Entries)
    requires Small(m) && forall fp :: fp in order ==> fp in m
    ensures ParseEntries(EntriesImage(m, order) + rest, |order|, acc) == acc + Chosen(m, order)
  {
    if order == [] {
      assert acc + Chosen(m, order) == acc;
    } else {
      var fp, tail := order[0], EntriesImage(m, order[1..]) + rest;
      Regroup(EntryImage(fp, m[fp]), EntriesImage(m, order[1..]), rest);
      EntryRoundTrip(fp, m[fp], tail);
      EntriesRoundTrip(m, order[1..], rest, acc[fp := m[fp]]);
      ChosenFirst(m, order, acc);
    }
  }

  lemma ChosenFirst(m: Entries, order: seq<ChunkFp>, acc: Entries)
    requires order != [] && forall fp :: fp in order ==> fp in m
    ensures acc[order[0] := m[order[0]]] + Chosen(m, order[1..]) == acc + Chosen(m, order)
  {}

  lemma Fields(a: Text, b: Text, c: Text, d: Text, rest: Text)
    requires |a| == 8 && |b| == 4 && |c| == 4
    ensures var s := a + b + c + d + rest;
      s[..8] == a && s[8..12] == b && s[12..16] == c && s[16..] == d + rest
  {}

  /** Whatever order the hash table iterates in, the metadata reads back. */
  lemma MetaRoundTrip(id: nat, dataSize: nat, m: Entries, order: seq<ChunkFp>, rest: Text)
    requires IsOrder(m, order) && Small(m) && id < 0x1_0000_0000_0000_0000 && dataSize < 0x1_0000_0000
    requires HEAD + CONTAINER_META_ENTRY * |m| + |rest| == CONTAINER_META_SIZE
    ensures ParseMeta(MetaImage(id, dataSize, m, order) + rest) == Some(StoredMeta(id, dataSize, m))
  {
    Pow256Values();
    BigRoundTrip(id, 8);
    BigRoundTrip(|m|, 4);
    BigRoundTrip(dataSize, 4);
    Fields(Big(id, 8), Big(|m|, 4), Big(dataSize, 4), EntriesImage(m, order), rest);
    EntriesRoundTrip(m, order, rest, map[]);
    assert map[] + Chosen(m, order) == m;
  }

  // ---- the pool

  /** A block of the pool: the data area, then the metadata, then what is left of the metadata area. */
  ghost predicate IsBlock(block: Text, id: nat, dataSize: nat, m: Entries, area: Text) {
    |block| == CONTAINER_SIZE && block[..DATA_AREA] == area
    && ParseMeta(block[DATA_AREA..]) == Some(StoredMeta(id, dataSize, m))
  }

  /** After a container is written, it is what its id retrieves, and every other container is untouched. */
  lemma WriteThenRetrieve(pool: Text, id: nat, dataSize: nat, m: Entries, area: Text, block: Text, other: nat)
    requires IsBlock(block, id, dataSize, m, area)
    ensures var pool' := WriteAt(pool, Position(id), block);
      && Retrieve(pool', id) == Some((StoredMeta(id, dataSize, m), block))
      && (other != id && Retrieve(pool, other).Some? ==> Retrieve(pool', other) == Retrieve(pool, other))
  {
    var pool' := WriteAt(pool, Position(id), block);
    ReadAfterWrite(pool, Position(id), block);
    if other != id && Retrieve(pool, other).Some? {
      var t := pool[Position(other)..Position(other + 1)];
      ReadElsewhere(pool, Position(id), block, Position(other), t);
    }
  }

  /** The count of containers in the first 8 bytes is outside every container. */
  lemma CountIsElsewhere(pool: Text, count: Text, id: nat)
    requires |count| == 8 && Retrieve(pool, id).Some?
    ensures Retrieve(WriteAt(pool, 0, count), id) == Retrieve(pool, id)
  {
    ReadElsewhere(pool, 0, count, Position(id), pool[Position(id)..Position(id + 1)]);
  }

  // ---- filling a container

  /** The chunks in the order they were added tile the data area without gap or overlap. */
  ghost predicate Tiles(m: Entries, listed: seq<ChunkFp>, size: nat) {
    if listed == [] then size == 0
    else
      var n := |listed| - 1;
      listed[n] in m && m[listed[n]].off + m[listed[n]].len == size && Tiles(m, listed[..n], m[listed[n]].off)
  }

  lemma {:induction false} TilesFrame(m: Entries, m': Entries, listed: seq<ChunkFp>, size: nat)
    requires Tiles(m, listed, size) && forall fp :: fp in m ==> fp in m' && m'[fp] == m[fp]
    ensures Tiles(m', listed, size)
  {
    if listed != [] {
      var n := |listed| - 1;
      TilesFrame(m, m', listed[..n], m[listed[n]].off);
    }
  }

  /** No range reaches past the size, and two ranges never overlap. */
  lemma {:induction false} TilesApart(m: Entries, listed: seq<ChunkFp>, size: nat, i: nat, j: nat)
    requires Tiles(m, listed, size) && i <= j < |listed|
    ensures listed[i] in m && listed[j] in m && m[listed[j]].off + m[listed[j]].len <= size
    ensures i < j ==> m[listed[i]].off + m[listed[i]].len <= m[listed[j]].off
  {
    var n := |listed| - 1;
    if j < n {
      TilesApart(m, listed[..n], m[listed[n]].off, i, j);
    } else if i < n {
      TilesApart(m, listed[..n], m[listed[n]].off, i, i);
    }
  }

  /** Every byte below the size belongs to a chunk. */
  lemma {:induction false} TilesCover(m: Entries, listed: seq<ChunkFp>, size: nat, b: nat) returns (i: nat)
    requires Tiles(m, listed, size) && b < size
    ensures i < |listed| && listed[i] in m && Within(m[listed[i]], b)
  {
    var n := |listed| - 1;
    if b < m[listed[n]].off {
      i := TilesCover(m, listed[..n], m[listed[n]].off, b);
    } else {
      i := n;
    }
  }

  predicate Within(e: Entry, b: nat) {
    e.off <= b < e.off + e.len
  }

  /** The chunk's bytes are where its entry says, below the size. */
  predicate Held(data: Text, e: Entry, chunk: Text, size: nat) {
    e.off + e.len <= size <= |data| && e.len == |chunk| && data[e.off..e.off + e.len] == chunk
  }

  ghost predicate AllHeld(data: Text, m: Entries, bytes: map<ChunkFp, Text>, size: nat) {
    m.Keys == bytes.Keys && forall fp :: fp in m ==> Held(data, m[fp], bytes[fp], size)
  }

  /** What a container holds: the chunks tile the area below size, each where its entry says. */
  ghost predicate Layout(data: Text, m: Entries, listed: seq<ChunkFp>, bytes: map<ChunkFp, Text>, size: nat) {
    && IsOrder(m, listed)
    && Tiles(m, listed, size)
    && AllHeld(data, m, bytes, size)
  }

  /** All of a container's layout as one value. */
  datatype Shape = Shape(data: Text, entries: Entries, listed: seq<ChunkFp>, bytes: map<ChunkFp, Text>, size: nat)

  predicate Seen(x: Shape) { true }

  /** Layout, behind a quantifier so that it unfolds only where Seen(x) is stated. */
  ghost predicate LaidOut(x: Shape) {
    forall y {:trigger Seen(y)} :: Seen(y) && y == x ==> Layout(y.data, y.entries, y.listed, y.bytes, y.size)
  }

  function Grown(x: Shape, fp: ChunkFp, chunk: Text): Shape
    requires x.size + |chunk| <= |x.data|
  {
    Shape(Overlay(x.data, x.size, chunk), x.entries[fp := Entry(|chunk|, x.size)], x.listed + [fp],
          x.bytes[fp := chunk], x.size + |chunk|)
  }

  lemma HeldBelow(data: Text, e: Entry, b: Text, size: nat, chunk: Text)
    requires Held(data, e, b, size) && size + |chunk| <= |data|
    ensures Held(Overlay(data, size, chunk), e, b, size + |chunk|)
  {
    assert Overlay(data, size, chunk)[e.off..e.off + e.len] == data[e.off..e.off + e.len];
  }

  lemma AllHeldGrows(data: Text, m: Entries, bytes: map<ChunkFp, Text>, size: nat, fp: ChunkFp, chunk: Text)
    requires AllHeld(data, m, bytes, size) && size + |chunk| <= |data| && fp !in m
    ensures AllHeld(Overlay(data, size, chunk), m[fp := Entry(|chunk|, size)], bytes[fp := chunk], size + |chunk|)
  {
    forall f | f in m ensures Held(Overlay(data, size, chunk), m[f], bytes[f], size + |chunk|) {
      HeldBelow(data, m[f], bytes[f], size, chunk);
    }
    assert Overlay(data, size, chunk)[size..size + |chunk|] == chunk;
  }

  lemma TilesGrow(m: Entries, listed: seq<ChunkFp>, size: nat, fp: ChunkFp, len: nat)
    requires Tiles(m, listed, size) && fp !in m
    ensures Tiles(m[fp := Entry(len, size)], listed + [fp], size + len)
  {
    TilesFrame(m, m[fp := Entry(len, size)], listed, size);
    assert (listed + [fp])[..|listed|] == listed;
  }

  lemma OrderGrows(m: Entries, listed: seq<ChunkFp>, fp: ChunkFp, e: Entry)
    requires IsOrder(m, listed) && fp !in m
    ensures IsOrder(m[fp := e], listed + [fp])
  {
    assert m[fp := e].Keys == m.Keys + {fp};
    assert (set f | f in listed + [fp]) == (set f | f in listed) + {fp};
  }

  /** Copying a new chunk behind the others keeps them. */
  lemma LaidOutGrows(x: Shape, fp: ChunkFp, chunk: Text)
    requires LaidOut(x) && x.size + |chunk| <= |x.data| && fp !in x.entries
    ensures LaidOut(Grown(x, fp, chunk))
  {
    assert Seen(x);
    AllHeldGrows(x.data, x.entries, x.bytes, x.size, fp, chunk);
    TilesGrow(x.entries, x.listed, x.size, fp, |chunk|);
    OrderGrows(x.entries, x.listed, fp, Entry(|chunk|, x.size));
    var y := Grown(x, fp, chunk);
    assert Layout(y.data, y.entries, y.listed, y.bytes, y.size);
  }

  /** Writing past the size keeps the chunks. */
  lemma LaidOutBelow(x: Shape, pos: nat, s: Text)
    requires LaidOut(x) && x.size <= pos && pos + |s| <= |x.data|
    ensures LaidOut(x.(data := Overlay(x.data, pos, s)))
  {
    assert Seen(x);
    var data' := Overlay(x.data, pos, s);
    forall fp | fp in x.entries ensures Held(data', x.entries[fp], x.bytes[fp], x.size) {
      var e := x.entries[fp];
      assert data'[e.off..e.off + e.len] == x.data[e.off..e.off + e.len];
    }
  }

  lemma {:induction false} EntriesSnoc(m: Entries, order: seq<ChunkFp>, fp: ChunkFp)
    requires fp in m && forall f :: f in order ==> f in m
    ensures EntriesImage(m, order + [fp]) == EntriesImage(m, order) + EntryImage(fp, m[fp])
  {
    if order == [] {
      assert order + [fp] == [fp] && [fp][1..] == [];
    } else {
      assert (order + [fp])[1..] == order[1..] + [fp];
      EntriesSnoc(m, order[1..], fp);
    }
  }

  lemma SmallEntries(x: Shape)
    requires LaidOut(x) && x.size < 0x1_0000_0000
    ensures Small(x.entries)
  {
    assert Seen(x);
  }

  lemma BytesOfEntries(x: Shape)
    requires LaidOut(x)
    ensures x.bytes.Keys == x.entries.Keys
  {
    assert Seen(x);
  }

  /** What a written container gives back: every chunk that was added, byte for byte, and nothing else. */
  lemma ChunksReadBack(x: Shape, id: nat, block: Text, fp: ChunkFp)
    requires LaidOut(x) && x.size <= DATA_AREA && |x.data| == |block| == CONTAINER_SIZE
    requires block[..DATA_AREA] == x.data[..DATA_AREA]
    ensures ChunkBytes((StoredMeta(id, x.size, x.entries), block), fp)
      == if fp in x.bytes then Some(x.bytes[fp]) else None
  {
    assert Seen(x);
    if fp in x.entries {
      var e := x.entries[fp];
      assert Held(x.data, e, x.bytes[fp], x.size);
      assert block[e.off..e.off + e.len] == block[..DATA_AREA][e.off..e.off + e.len];
      assert x.data[e.off..e.off + e.len] == x.data[..DATA_AREA][e.off..e.off + e.len];
    }
  }

  lemma BlockWritten(d: Text, id: nat, dataSize: nat, m: Entries, order: seq<ChunkFp>)
    requires |d| == CONTAINER_SIZE && IsOrder(m, order) && Small(m)
    requires id < 0x1_0000_0000_0000_0000 && dataSize < 0x1_0000_0000
    requires HEAD + CONTAINER_META_ENTRY * |m| <= CONTAINER_META_SIZE
    ensures IsBlock(Overlay(d, DATA_AREA, MetaImage(id, dataSize, m, order)), id, dataSize, m, d[..DATA_AREA])
  {
    var image := MetaImage(id, dataSize, m, order);
    var block := Overlay(d, DATA_AREA, image);
    assert block[..DATA_AREA] == d[..DATA_AREA];
    assert block[DATA_AREA..] == image + d[DATA_AREA + |image|..];
    MetaRoundTrip(id, dataSize, m, order, d[DATA_AREA + |image|..]);
  }

  class Container {
    const id: nat
    var chunkNum: nat
    var dataSize: nat
    var entries: Entries
    const data: array<Byte>
    ghost var listed: seq<ChunkFp>
    ghost var bytes: map<ChunkFp, Text>

    ghost predicate Valid()
      reads this, data
    {
      && data.Length == CONTAINER_SIZE
      && chunkNum == |entries|
      && HEAD + CONTAINER_META_ENTRY * chunkNum <= CONTAINER_META_SIZE
      && dataSize <= DATA_AREA
      && LaidOut(Now())
    }

    ghost function Now(): Shape
      reads this, data
    {
      Shape(data[..], entries, listed, bytes, dataSize)
    }

    constructor (containerCount: nat)
      ensures Valid() && id == containerCount && bytes == map[] && listed == [] && dataSize == chunkNum == 0 && fresh(data)
    {
      id := containerCount;
      chunkNum, dataSize, entries, listed, bytes := 0, 0, map[], [], map[];
      data := new Byte[CONTAINER_SIZE](_ => 0);
      new;
      assert Layout(data[..], entries, listed, bytes, dataSize);
    }

    predicate Overflow(size: nat)
      reads this
    {
      dataSize + size > DATA_AREA || (chunkNum + 1) * CONTAINER_META_ENTRY + HEAD > CONTAINER_META_SIZE
    }

    /** add_chunk_to_container. */
    method Add(fp: ChunkFp, chunk: Text) returns (added: bool)
      requires Valid() && !Overflow(|chunk|)
      modifies this, data
      ensures Valid() && added == (fp !in old(entries)) && added == (fp !in old(bytes))
      ensures bytes == (if added then old(bytes)[fp := chunk] else old(bytes))
      ensures listed == (if added then old(listed) + [fp] else old(listed))
      ensures dataSize == old(dataSize) + (if added then |chunk| else 0)
      ensures chunkNum == old(chunkNum) + (if added then 1 else 0)
    {
      BytesOfEntries(Now());
      if fp in entries { return false; }
      Place(fp, chunk);
      added := true;
    }

    method Place(fp: ChunkFp, chunk: Text)
      requires Valid() && !Overflow(|chunk|) && fp !in entries
      modifies this, data
      ensures Valid() && bytes == old(bytes)[fp := chunk] && listed == old(listed) + [fp]
      ensures dataSize == old(dataSize) + |chunk| && chunkNum == old(chunkNum) + 1
    {
      LaidOutGrows(Now(), fp, chunk);
      CopyIn(data, dataSize, chunk);
      entries := entries[fp := Entry(|chunk|, dataSize)];
      chunkNum, dataSize := chunkNum + 1, dataSize + |chunk|;
      listed, bytes := listed + [fp], bytes[fp := chunk];
    }

    /** The metadata goes behind the data area. */
    method Serialise(order: seq<ChunkFp>)
      requires Valid() && IsOrder(entries, order) && id < 0x1_0000_0000_0000_0000
      modifies data
      ensures Valid() && Now() == old(Now()).(data := data[..])
      ensures IsBlock(data[..], id, dataSize, entries, old(data[..])[..DATA_AREA])
    {
      ghost var x := Now();
      SmallEntries(x);
      BlockWritten(x.data, id, dataSize, entries, order);
      LaidOutBelow(x, DATA_AREA, MetaImage(id, dataSize, entries, order));
      FillMeta(data, id, dataSize, entries, order);
    }
  }

  lemma OneEntryMore(d: Text, head: Text, m: Entries, order: seq<ChunkFp>, i: nat)
    requires IsOrder(m, order) && i < |order| && |head| == HEAD && |d| == CONTAINER_SIZE
    requires HEAD + CONTAINER_META_ENTRY * |m| <= CONTAINER_META_SIZE
    ensures Overlay(Overlay(d, DATA_AREA, head + EntriesImage(m, order[..i])),
                    DATA_AREA + HEAD + CONTAINER_META_ENTRY * i, EntryImage(order[i], m[order[i]]))
      == Overlay(d, DATA_AREA, head + EntriesImage(m, order[..i + 1]))
  {
    var written, image := head + EntriesImage(m, order[..i]), EntryImage(order[i], m[order[i]]);
    OverlayTwice(d, DATA_AREA, written, image);
    EntriesSnoc(m, order[..i], order[i]);
    assert order[..i + 1] == order[..i] + [order[i]];
    assert written + image == head + EntriesImage(m, order[..i + 1]);
  }

  /** ser_int64, ser_int32 and ser_bytes in the order of the hash table. */
  method FillMeta(data: array<Byte>, id: nat, dataSize: nat, m: Entries, order: seq<ChunkFp>)
    requires data.Length == CONTAINER_SIZE && IsOrder(m, order)
    requires HEAD + CONTAINER_META_ENTRY * |m| <= CONTAINER_META_SIZE
    modifies data
    ensures data[..] == Overlay(old(data[..]), DATA_AREA, MetaImage(id, dataSize, m, order))
  {
    ghost var d := data[..];
    var head := Big(id, 8) + Big(|m|, 4) + Big(dataSize, 4);
    CopyIn(data, DATA_AREA, head);
    var i := 0;
    while i < |order|
      invariant 0 <= i <= |order|
      invariant data[..] == Overlay(d, DATA_AREA, head + EntriesImage(m, order[..i]))
    {
      OneEntryMore(d, head, m, order, i);
      CopyIn(data, DATA_AREA + HEAD + CONTAINER_META_ENTRY * i, EntryImage(order[i], m[order[i]]));
      i := i + 1;
    }
    assert order[..i] == order;
  }

  /** container.pool and container_count. */
  class Pool {
    var file: Text
    var containerCount: int

    constructor ()
      ensures file == [] && containerCount == 0
    {
      file, containerCount := [], 0;
    }

    /** write_container; an empty container is not written, and its id is given back. */
    method WriteContainer(c: Container, order: seq<ChunkFp>)
      requires c.Valid() && IsOrder(c.entries, order) && c.id < 0x1_0000_0000_0000_0000
      modifies this, c.data
      ensures c.Valid() && c.Now() == old(c.Now()).(data := c.data[..])
      ensures c.chunkNum == 0 ==> file == old(file) && containerCount == old(containerCount) - 1
      ensures c.chunkNum > 0 ==>
        && containerCount == old(containerCount)
        && IsBlock(c.data[..], c.id, c.dataSize, c.entries, old(c.data[..])[..DATA_AREA])
        && file == WriteAt(old(file), c.id * CONTAINER_SIZE + 8, c.data[..])
    {
      if c.chunkNum == 0 {
        containerCount := containerCount - 1;
        return;
      }
      c.Serialise(order);
      file := WriteAt(file, Position(c.id), c.data[..]);
    }

    /** retrieve_container_by_id. */
    method RetrieveById(id: nat) returns (r: Option<(StoredMeta, Text)>)
      ensures r == Retrieve(file, id)
    {
      if Position(id + 1) > |file| { return None; }
      var block := file[Position(id)..Position(id + 1)];
      var cur := block[DATA_AREA..];
      var storedId, n, size := FromBig(cur[..8]), FromBig(cur[8..12]), FromBig(cur[12..16]);
      if HEAD + CONTAINER_META_ENTRY * n > CONTAINER_META_SIZE || storedId != id { return None; }
      var rest: Text, entries: Entries, i := cur[16..], map[], 0;
      while i < n
        invariant 0 <= i <= n && |rest| >= CONTAINER_META_ENTRY * (n - i)
        invariant ParseEntries(rest, n - i, entries) == ParseEntries(cur[16..], n, map[])
      {
        var (fp, e) := ParseEntry(rest);
        entries := entries[fp := e];
        rest, i := rest[28..], i + 1;
      }
      r := Some((StoredMeta(storedId, size, entries), block));
    }
  }
}
