/** assembly_restore.c: forward assembly, one container read per call. */
module Assembly {
  import opened Common
  import opened Bytes
  import opened ContainerStore
  import opened Restore

  /** A file boundary, or a data chunk that is READY once its data is filled in. */
  datatype Item = Boundary(name: Text) | Data(p: Pointer, ready: bool, data: Text)

  type Items = seq<Item>

  /** The item as it came from the recipe. */
  function Bare(x: Item): Item {
    if x.Data? then Data(x.p, false, []) else x
  }

  function Bares(s: Items): (r: Items)
    ensures |r| == |s| && forall i :: 0 <= i < |s| ==> r[i] == Bare(s[i])
  {
    seq(|s|, i requires 0 <= i < |s| => Bare(s[i]))
  }

  /** The buffered bytes. */
  function DataSize(s: Items): nat {
    if s == [] then 0 else DataSize(s[1..]) + (if s[0].Data? then s[0].p.size else 0)
  }

  lemma {:induction false} DataSizeAppend(a: Items, b: Items)
    ensures DataSize(a + b) == DataSize(a) + DataSize(b)
  {
    if a == [] {
      assert a + b == b;
    } else {
      assert (a + b)[1..] == a[1..] + b;
      DataSizeAppend(a[1..], b);
    }
  }

  lemma {:induction false} DataSizeOfBares(a: Items, b: Items)
    requires Bares(a) == Bares(b)
    ensures DataSize(a) == DataSize(b)
  {
    if a != [] {
      assert |Bares(a)| == |Bares(b)| && Bare(a[0]) == Bares(a)[0] == Bares(b)[0] == Bare(b[0]);
      forall i | 0 <= i < |a| - 1 ensures Bare(a[1..][i]) == Bare(b[1..][i]) {
        assert Bares(a)[i + 1] == Bares(b)[i + 1];
      }
      assert Bares(a[1..]) == Bares(b[1..]);
      DataSizeOfBares(a[1..], b[1..]);
    }
  }

  /** Filled with its content. */
  ghost predicate Done(x: Item, content: map<ChunkFp, Text>) {
    x.Data? ==> x.ready && x.p.fp in content && x.data == content[x.p.fp]
  }

  /** Waiting items are bare, READY items are done. */
  ghost predicate Sound(s: Items, content: map<ChunkFp, Text>) {
    forall i :: 0 <= i < |s| && s[i].Data? ==> if s[i].ready then Done(s[i], content) else s[i].data == []
  }

  /** A READY chunk never stands behind a waiting chunk of the same container. */
  ghost predicate Forward(s: Items) {
    forall i, j :: 0 <= i < j < |s| && s[i].Data? && s[j].Data? && s[i].p.id == s[j].p.id && s[j].ready ==> s[i].ready
  }

  /** The first data chunk is not READY. */
  predicate HeadWaits(s: Items) {
    s == [] || (if s[0].Data? then !s[0].ready else HeadWaits(s[1..]))
  }

  ghost predicate AreaOk(s: Items, content: map<ChunkFp, Text>) {
    Sound(s, content) && Forward(s) && HeadWaits(s)
  }

  lemma {:induction false} PushKeeps(s: Items, c: Item, content: map<ChunkFp, Text>)
    requires AreaOk(s, content) && Bare(c) == c
    ensures AreaOk(s + [c], content)
  {
    HeadWaitsSnoc(s, c);
  }

  lemma {:induction false} HeadWaitsSnoc(s: Items, c: Item)
    requires HeadWaits(s) && Bare(c) == c
    ensures HeadWaits(s + [c])
  {
    if s == [] {
      assert s + [c] == [c];
    } else {
      assert (s + [c])[1..] == s[1..] + [c];
      if s[0].Boundary? { HeadWaitsSnoc(s[1..], c); }
    }
  }

  lemma SuffixKeeps(s: Items, n: nat, content: map<ChunkFp, Text>)
    requires n <= |s| && Sound(s, content) && Forward(s)
    ensures Sound(s[n..], content) && Forward(s[n..])
  {}

  // ---- one call

  /** How many file boundaries stand at the head. */
  function Leading(s: Items): (n: nat)
    ensures n <= |s| && (n < |s| ==> s[n].Data?)
    ensures forall i :: 0 <= i < n ==> s[i].Boundary?
  {
    if s == [] || s[0].Data? then 0 else 1 + Leading(s[1..])
  }

  /** How many items at the head can be issued. */
  function Issued(s: Items): (n: nat)
    ensures n <= |s| && (n < |s| ==> s[n].Data? && !s[n].ready)
    ensures forall i :: 0 <= i < n ==> s[i].Data? ==> s[i].ready
  {
    if s == [] || (s[0].Data? && !s[0].ready) then 0 else 1 + Issued(s[1..])
  }

  /** Chunks of the container are filled in and READY. */
  ghost function Filled(s: Items, id: ContainerId, content: map<ChunkFp, Text>): (r: Items)
    requires forall i :: 0 <= i < |s| && s[i].Data? ==> s[i].p.fp in content
    ensures |r| == |s|
  {
    seq(|s|, i requires 0 <= i < |s| =>
      if s[i].Data? && s[i].p.id == id then Data(s[i].p, true, content[s[i].p.fp]) else s[i])
  }

  ghost predicate Known(s: Items, content: map<ChunkFp, Text>) {
    forall i :: 0 <= i < |s| && s[i].Data? ==> s[i].p.fp in content
  }

  /** The container of the first data chunk is new to the area: nothing is filled twice. */
  lemma NothingFilledTwice(s: Items, content: map<ChunkFp, Text>, i: nat)
    requires AreaOk(s, content) && s != [] && s[0].Data? && i < |s| && s[i].Data? && s[i].p.id == s[0].p.id
    ensures !s[i].ready
  {}

  lemma FillKeeps(s: Items, content: map<ChunkFp, Text>)
    requires AreaOk(s, content) && Known(s, content) && s != [] && s[0].Data?
    ensures var r := Filled(s, s[0].p.id, content);
      Sound(r, content) && Forward(r) && Bares(r) == Bares(s) && Issued(r) > 0
  {}

  lemma {:induction false} IssuedWaits(s: Items)
    ensures HeadWaits(s[Issued(s)..])
  {
    var t := s[Issued(s)..];
    if t != [] { assert t[0] == s[Issued(s)]; }
  }

  lemma {:induction false} LeadingWaits(s: Items)
    requires HeadWaits(s)
    ensures HeadWaits(s[Leading(s)..])
  {
    if s != [] && s[0].Boundary? {
      LeadingWaits(s[1..]);
      assert s[1..][Leading(s[1..])..] == s[Leading(s)..];
    } else {
      assert s[0..] == s;
    }
  }

  /** assemble_area on a non-empty area: what is issued, and what stays. */
  ghost function Assembled(s: Items, content: map<ChunkFp, Text>): (Items, Items)
    requires Known(s, content)
  {
    var k := Leading(s);
    if k == |s| then (s, [])
    else
      var filled := Filled(s[k..], s[k].p.id, content);
      (s[..k] + filled[..Issued(filled)], filled[Issued(filled)..])
  }

  /** Each call issues something, in order, every data chunk filled with its content, and keeps the area. */
  lemma AssembledKeeps(s: Items, content: map<ChunkFp, Text>)
    requires AreaOk(s, content) && Known(s, content) && s != []
    ensures var (q, rest) := Assembled(s, content);
      && q != [] && Bares(q) + Bares(rest) == Bares(s)
      && (forall i :: 0 <= i < |q| ==> Done(q[i], content))
      && AreaOk(rest, content)
  {
    var k := Leading(s);
    SuffixKeeps(s, k, content);
    LeadingWaits(s);
    if k < |s| {
      var t := s[k..];
      FillKeeps(t, content);
      var filled := Filled(t, s[k].p.id, content);
      var n := Issued(filled);
      SuffixKeeps(filled, n, content);
      IssuedWaits(filled);
      BaresRejoin(s, k, filled, n);
    }
  }

  lemma BaresRejoin(s: Items, k: nat, filled: Items, n: nat)
    requires k <= |s| && n <= |filled| && Bares(filled) == Bares(s[k..])
    ensures Bares(s[..k] + filled[..n]) + Bares(filled[n..]) == Bares(s)
  {
    assert s[..k] + s[k..] == s && filled[..n] + filled[n..] == filled;
    RejoinParts(s[..k], s[k..], filled[..n], filled[n..]);
  }

  lemma RejoinParts(p: Items, t: Items, u: Items, v: Items)
    requires Bares(u + v) == Bares(t)
    ensures Bares(p + u) + Bares(v) == Bares(p + t)
  {
    BaresAppend(p, t);
    BaresAppend(u, v);
    BaresAppend(p, u);
    Regroup(Bares(p), Bares(u), Bares(v));
  }

  lemma BaresAppend(a: Items, b: Items)
    ensures Bares(a + b) == Bares(a) + Bares(b)
  {}

  // ---- how many containers are read

  /** The containers that some chunk of the area still waits for. */
  ghost function WaitingIds(s: Items): set<ContainerId> {
    set i | 0 <= i < |s| && s[i].Data? && !s[i].ready :: s[i].p.id
  }

  /** The containers of the items. */
  ghost function IdsIn(s: Items): set<ContainerId> {
    set i | 0 <= i < |s| && s[i].Data? :: s[i].p.id
  }

  lemma WaitingFrom(s: Items, n: nat)
    requires n <= |s| && forall i :: 0 <= i < n && s[i].Data? ==> s[i].ready
    ensures WaitingIds(s[n..]) == WaitingIds(s)
  {
    forall id | id in WaitingIds(s) ensures id in WaitingIds(s[n..]) {
      var i :| 0 <= i < |s| && s[i].Data? && !s[i].ready && s[i].p.id == id;
      assert s[n..][i - n] == s[i];
    }
  }

  lemma WaitingFilled(s: Items, id: ContainerId, content: map<ChunkFp, Text>)
    requires Known(s, content)
    ensures WaitingIds(Filled(s, id, content)) == WaitingIds(s) - {id}
  {
    var r := Filled(s, id, content);
    forall x | x in WaitingIds(s) - {id} ensures x in WaitingIds(r) {
      var i :| 0 <= i < |s| && s[i].Data? && !s[i].ready && s[i].p.id == x;
      assert r[i] == s[i];
    }
  }

  lemma WaitingSnoc(s: Items, c: Item)
    requires Bare(c) == c
    ensures WaitingIds(s + [c]) == WaitingIds(s) + (if c.Data? then {c.p.id} else {})
  {
    var t := s + [c];
    forall x | x in WaitingIds(s) ensures x in WaitingIds(t) {
      var i :| 0 <= i < |s| && s[i].Data? && !s[i].ready && s[i].p.id == x;
      assert t[i] == s[i];
    }
    assert t[|s|] == c;
  }

  /** One call reads the container of the first data chunk, and afterwards no chunk of it waits any more; all the others
      wait as before. */
  lemma AssembledReads(s: Items, content: map<ChunkFp, Text>)
    requires AreaOk(s, content) && Known(s, content) && Leading(s) < |s|
    ensures var id, rest := s[Leading(s)].p.id, Assembled(s, content).1;
      id in WaitingIds(s) && WaitingIds(rest) == WaitingIds(s) - {id} && |rest| < |s| && Known(rest, content)
  {
    var k := Leading(s);
    LeadingWaits(s);
    assert s[k..][0] == s[k];
    WaitingFrom(s, k);
    WaitingFilled(s[k..], s[k].p.id, content);
    var filled := Filled(s[k..], s[k].p.id, content);
    WaitingFrom(filled, Issued(filled));
    assert filled[0].ready && Issued(filled) > 0;
  }

  /** The containers that the thread still reads, with this area and these items to come: one per call, and a call as
      soon as the buffered bytes reach the area size, and at the end until nothing waits. */
  ghost function AreaReads(area: Items, items: Items, areaSize: int, content: map<ChunkFp, Text>): nat
    requires AreaOk(area, content) && Known(area, content) && Known(items, content) && Bares(items) == items
    decreases |items|, |area|
  {
    if items != [] then
      var grown := area + [items[0]];
      PushKeeps(area, items[0], content);
      assert Bares(items)[0] == items[0];
      NextItems(items, content);
      if items[0].Data? && DataSize(grown) >= areaSize then
        LastIsData(area, items[0]);
        AssembledReads(grown, content);
        AssembledKeeps(grown, content);
        1 + AreaReads(Assembled(grown, content).1, items[1..], areaSize, content)
      else AreaReads(grown, items[1..], areaSize, content)
    else if Leading(area) == |area| then 0
    else
      AssembledReads(area, content);
      AssembledKeeps(area, content);
      1 + AreaReads(Assembled(area, content).1, [], areaSize, content)
  }

  lemma NextItems(items: Items, content: map<ChunkFp, Text>)
    requires items != [] && Known(items, content) && Bares(items) == items
    ensures Known(items[1..], content) && Bares(items[1..]) == items[1..]
  {
    forall i | 0 <= i < |items| - 1 ensures Bare(items[1..][i]) == items[1..][i] { assert Bares(items)[i + 1] == items[i + 1]; }
  }

  lemma LastIsData(area: Items, c: Item)
    requires c.Data?
    ensures Leading(area + [c]) < |area + [c]|
  {
    assert (area + [c])[|area|] == c;
  }

  lemma IdsInFirst(items: Items)
    requires items != []
    ensures IdsIn(items) == (if items[0].Data? then {items[0].p.id} else {}) + IdsIn(items[1..])
  {
    forall x | x in IdsIn(items) ensures x in (if items[0].Data? then {items[0].p.id} else {}) + IdsIn(items[1..]) {
      var i :| 0 <= i < |items| && items[i].Data? && items[i].p.id == x;
      if i > 0 { assert items[1..][i - 1] == items[i]; }
    }
  }

  /** Every container is read at least once; exactly once when the area can hold everything. */
  lemma {:induction false} EachContainerRead(area: Items, items: Items, areaSize: int, content: map<ChunkFp, Text>)
    requires AreaOk(area, content) && Known(area, content) && Known(items, content) && Bares(items) == items
    ensures AreaReads(area, items, areaSize, content) >= |WaitingIds(area) + IdsIn(items)|
    ensures DataSize(area) + DataSize(items) < areaSize ==>
      AreaReads(area, items, areaSize, content) == |WaitingIds(area) + IdsIn(items)|
    decreases |items|, |area|
  {
    if items != [] {
      var grown := area + [items[0]];
      TakeNext(area, items, content);
      if items[0].Data? && DataSize(grown) >= areaSize {
        LastIsData(area, items[0]);
        ReadsOne(grown, items[1..], areaSize, content);
      } else {
        EachContainerRead(grown, items[1..], areaSize, content);
      }
    } else if Leading(area) < |area| {
      ReadsOne(area, [], areaSize, content);
      AssembledShrinks(area, content);
    } else {
      assert WaitingIds(area) == {} == IdsIn(items);
    }
  }

  /** Taking one more item changes neither what is to be read nor what is to be stored. */
  lemma TakeNext(area: Items, items: Items, content: map<ChunkFp, Text>)
    requires AreaOk(area, content) && Known(area, content) && Known(items, content) && Bares(items) == items && items != []
    ensures var grown := area + [items[0]];
      && AreaOk(grown, content) && Known(grown, content)
      && Known(items[1..], content) && Bares(items[1..]) == items[1..]
      && WaitingIds(area) + IdsIn(items) == WaitingIds(grown) + IdsIn(items[1..])
      && DataSize(area) + DataSize(items) == DataSize(grown) + DataSize(items[1..])
  {
    assert Bares(items)[0] == items[0];
    PushKeeps(area, items[0], content);
    NextItems(items, content);
    WaitingSnoc(area, items[0]);
    IdsInFirst(items);
    DataSizeAppend(area, [items[0]]);
  }

  /** A call brings the number down by one, and the containers still to be read by at most one. */
  lemma {:induction false} ReadsOne(area: Items, items: Items, areaSize: int, content: map<ChunkFp, Text>)
    requires AreaOk(area, content) && Known(area, content) && Known(items, content) && Bares(items) == items
    requires Leading(area) < |area|
    ensures AreaOk(Assembled(area, content).1, content) && Known(Assembled(area, content).1, content)
    ensures var rest := Assembled(area, content).1;
      && 1 + AreaReads(rest, items, areaSize, content) >= |WaitingIds(area) + IdsIn(items)|
      && (items == [] && DataSize(rest) < areaSize ==>
            1 + AreaReads(rest, items, areaSize, content) == |WaitingIds(area) + IdsIn(items)|)
    decreases |items|, |area|, 0
  {
    AssembledReads(area, content);
    AssembledKeeps(area, content);
    var id, rest := area[Leading(area)].p.id, Assembled(area, content).1;
    EachContainerRead(rest, items, areaSize, content);
    var all := WaitingIds(area) + IdsIn(items);
    assert all - {id} <= WaitingIds(rest) + IdsIn(items);
    assert |all - {id}| == |all| - 1;
    Smaller(all - {id}, WaitingIds(rest) + IdsIn(items));
    if items == [] { assert WaitingIds(rest) + IdsIn(items) == all - {id}; }
  }

  lemma Smaller(a: set<ContainerId>, b: set<ContainerId>)
    requires a <= b
    ensures |a| <= |b|
  {
    assert b == a + (b - a);
  }

  /** What stays takes no more room than before. */
  lemma AssembledShrinks(s: Items, content: map<ChunkFp, Text>)
    requires AreaOk(s, content) && Known(s, content) && s != []
    ensures DataSize(Assembled(s, content).1) <= DataSize(s)
  {
    AssembledKeeps(s, content);
    var (q, rest) := Assembled(s, content);
    BaresAppend(q, rest);
    DataSizeOfBares(q + rest, s);
    DataSizeAppend(q, rest);
  }

  /** The pool can fill the chunk, and its size is the one in the recipe. */
  ghost predicate Fillable(pool: Text, content: map<ChunkFp, Text>, x: Item) {
    x.Data? ==> Served(pool, content, x.p) && |content[x.p.fp]| == x.p.size
  }

  // ---- the thread

  /** One item of the loop that fills the area from a container; the sizes agree, as it asserts. */
  method FillOne(con: Option<(StoredMeta, Text)>, c: Item, id: ContainerId, ghost pool: Text, ghost content: map<ChunkFp, Text>)
    returns (r: Item)
    requires Fillable(pool, content, c) && id >= 0 && con == Retrieve(pool, id)
    requires c.Data? && c.p.id == id ==> !c.ready
    ensures c.Data? ==> c.p.fp in content
    ensures r == if c.Data? && c.p.id == id then Data(c.p, true, content[c.p.fp]) else c
  {
    r := c;
    if c.Data? && c.p.id == id {
      assert !c.ready;
      var buf := ChunkBytes(con.value, c.p.fp).value;
      assert |buf| == c.p.size;
      r := Data(c.p, true, buf);
    }
  }

  class AssemblyArea {
    const areaSize: int
    var area: Items
    var size: int
    var readContainerNum: nat

    ghost predicate Valid()
      reads this
    {
      size == DataSize(area)
    }

    constructor (cacheSize: int)
      ensures Valid() && area == [] && readContainerNum == 0 && areaSize == (cacheSize - 1) * CONTAINER_SIZE
    {
      areaSize := (cacheSize - 1) * CONTAINER_SIZE;
      area, size, readContainerNum := [], 0, 0;
    }

    /** assembly_area_push. */
    method Push(c: Item) returns (full: bool)
      requires Valid()
      modifies this`area, this`size
      ensures Valid() && area == old(area) + [c] && (full <==> c.Data? && size >= areaSize)
    {
      DataSizeAppend(area, [c]);
      area := area + [c];
      if c.Boundary? { return false; }
      size := size + c.p.size;
      full := size >= areaSize;
    }

    /** The file boundaries at the head leave. */
    method DropBoundaries() returns (q: Items)
      requires Valid()
      modifies this`area
      ensures Valid() && q == old(area)[..Leading(old(area))] && area == old(area)[Leading(old(area))..]
    {
      q := [];
      assert area[0..] == area;
      while area != [] && area[0].Boundary?
        invariant |q| <= |old(area)| && q == old(area)[..|q|] && area == old(area)[|q|..] && Valid()
        invariant Leading(old(area)) == |q| + Leading(area)
        decreases |area|
      {
        q, area := q + [area[0]], area[1..];
      }
    }

    /** One container is read and fills in its chunks all over the area. */
    method FillFrom(pool: Pool, ghost content: map<ChunkFp, Text>)
      requires Valid() && AreaOk(area, content) && area != [] && area[0].Data?
      requires forall i :: 0 <= i < |area| ==> Fillable(pool.file, content, area[i])
      modifies this`area, this`readContainerNum
      ensures Known(old(area), content) && area == Filled(old(area), old(area)[0].p.id, content)
      ensures readContainerNum == old(readContainerNum) + 1
    {
      var id := area[0].p.id;
      assert Fillable(pool.file, content, area[0]);
      readContainerNum := readContainerNum + 1;
      var con := pool.RetrieveById(id);
      ghost var s := area;
      assert forall i :: 0 <= i < |s| && s[i].Data? ==> s[i].p.fp in content by {
        forall i | 0 <= i < |s| && s[i].Data? ensures s[i].p.fp in content { assert Fillable(pool.file, content, s[i]); }
      }
      var i := 0;
      while i < |area|
        modifies this`area
        invariant 0 <= i <= |area| == |s|
        invariant forall j :: 0 <= j < |s| ==> area[j] == if j < i then Filled(s, id, content)[j] else s[j]
      {
        if s[i].Data? && s[i].p.id == id { NothingFilledTwice(s, content, i); }
        assert Fillable(pool.file, content, s[i]);
        var c := FillOne(con, area[i], id, pool.file, content);
        area := area[i := c];
        i := i + 1;
      }
      assert area == Filled(s, id, content);
    }

    /** The assembled head is issued. */
    method Issue() returns (q: Items)
      requires Valid()
      modifies this`area, this`size
      ensures Valid() && q == old(area)[..Issued(old(area))] && area == old(area)[Issued(old(area))..]
    {
      q := [];
      assert area[0..] == area;
      while area != [] && !(area[0].Data? && !area[0].ready)
        invariant |q| <= |old(area)| && q == old(area)[..|q|] && area == old(area)[|q|..] && Valid()
        invariant Issued(old(area)) == |q| + Issued(area)
        decreases |area|
      {
        if area[0].Data? { size := size - area[0].p.size; }
        q, area := q + [area[0]], area[1..];
      }
    }

    /** assemble_area; None when the area is empty. */
    method AssembleArea(pool: Pool, ghost content: map<ChunkFp, Text>) returns (r: Option<Items>)
      requires Valid() && AreaOk(area, content)
      requires forall i :: 0 <= i < |area| ==> Fillable(pool.file, content, area[i])
      modifies this
      ensures Valid() && (r.None? <==> old(area) == []) && (r.None? ==> area == [])
      ensures r.Some? ==> Known(old(area), content) && (r.value, area) == Assembled(old(area), content)
      ensures readContainerNum == old(readContainerNum) + (if Leading(old(area)) < |old(area)| then 1 else 0)
    {
      if |area| == 0 { return None; }
      ghost var s := area;
      FillableIsKnown(pool.file, content, s);
      var q := DropBoundaries();
      if |area| == 0 {
        assert q == s;
        return Some(q);
      }
      SuffixKeeps(s, Leading(s), content);
      LeadingWaits(s);
      ghost var t := area;
      FillFrom(pool, content);
      FillKeeps(t, content);
      DataSizeOfBares(area, t);
      var issued := Issue();
      r := Some(q + issued);
    }
  }

  lemma FillableIsKnown(pool: Text, content: map<ChunkFp, Text>, s: Items)
    requires forall i :: 0 <= i < |s| ==> Fillable(pool, content, s[i])
    ensures Known(s, content)
  {
    forall i | 0 <= i < |s| && s[i].Data? ensures s[i].p.fp in content {
      assert Fillable(pool, content, s[i]);
    }
  }

  /** What has been issued and what is still in the area is what was taken, in order. */
  ghost predicate OnTrack(taken: Items, out: Items, area: Items, content: map<ChunkFp, Text>) {
    Bares(out) + Bares(area) == Bares(taken) && AreaOk(area, content)
    && forall i :: 0 <= i < |out| ==> Done(out[i], content)
  }

  lemma TakesOne(taken: Items, out: Items, area: Items, content: map<ChunkFp, Text>, c: Item)
    requires OnTrack(taken, out, area, content) && Bare(c) == c
    ensures OnTrack(taken + [c], out, area + [c], content)
  {
    PushKeeps(area, c, content);
    BaresAppend(area, [c]);
    BaresAppend(taken, [c]);
  }

  lemma IssuesSome(taken: Items, out: Items, area: Items, content: map<ChunkFp, Text>)
    requires OnTrack(taken, out, area, content) && Known(area, content) && area != []
    ensures var (q, rest) := Assembled(area, content);
      OnTrack(taken, out + q, rest, content) && |rest| < |area|
  {
    AssembledKeeps(area, content);
    var (q, rest) := Assembled(area, content);
    BaresAppend(out, q);
    Regroup(Bares(out), Bares(q), Bares(rest));
    assert |Bares(q) + Bares(rest)| == |Bares(area)|;
  }

  /** Every item of the area came from the taken ones. */
  lemma AreaFillable(pool: Text, content: map<ChunkFp, Text>, taken: Items, out: Items, area: Items)
    requires OnTrack(taken, out, area, content) && forall i :: 0 <= i < |taken| ==> Fillable(pool, content, taken[i])
    ensures forall i :: 0 <= i < |area| ==> Fillable(pool, content, area[i])
  {
    forall i | 0 <= i < |area| ensures Fillable(pool, content, area[i]) {
      var k := |out| + i;
      assert Bares(taken)[k] == Bares(area)[i];
      assert Fillable(pool, content, taken[k]);
    }
  }

  /** After the last item: the area is assembled until it is empty. */
  method Drain(pool: Pool, a: AssemblyArea, ghost items: Items, issued: Items, ghost content: map<ChunkFp, Text>)
    returns (out: Items)
    requires a.Valid() && OnTrack(items, issued, a.area, content)
    requires forall i :: 0 <= i < |items| ==> Fillable(pool.file, content, items[i])
    modifies a
    ensures OnTrack(items, out, [], content)
    ensures Known(old(a.area), content)
      && a.readContainerNum == old(a.readContainerNum) + AreaReads(old(a.area), [], a.areaSize, content)
  {
    out := issued;
    AreaFillable(pool.file, content, items, out, a.area);
    FillableIsKnown(pool.file, content, a.area);
    ghost var total := a.readContainerNum + AreaReads(a.area, [], a.areaSize, content);
    while true
      invariant a.Valid() && OnTrack(items, out, a.area, content) && Known(a.area, content)
      invariant a.readContainerNum + AreaReads(a.area, [], a.areaSize, content) == total
      decreases |a.area|
    {
      var q := DrainOnce(pool, a, items, out, content);
      if q.None? { break; }
      out := out + q.value;
    }
  }

  /** One call of the drain; None when the area is empty. */
  method DrainOnce(pool: Pool, a: AssemblyArea, ghost items: Items, ghost out: Items, ghost content: map<ChunkFp, Text>)
    returns (q: Option<Items>)
    requires a.Valid() && OnTrack(items, out, a.area, content) && Known(a.area, content)
    requires forall i :: 0 <= i < |items| ==> Fillable(pool.file, content, items[i])
    modifies a
    ensures a.Valid() && (q.None? ==> old(a.area) == a.area == [] && a.readContainerNum == old(a.readContainerNum))
    ensures q.Some? ==> OnTrack(items, out + q.value, a.area, content) && |a.area| < |old(a.area)|
    ensures Known(a.area, content)
    ensures a.readContainerNum + AreaReads(a.area, [], a.areaSize, content)
      == old(a.readContainerNum) + AreaReads(old(a.area), [], a.areaSize, content)
  {
    ghost var area := a.area;
    AreaFillable(pool.file, content, items, out, area);
    if area != [] {
      IssuesSome(items, out, area, content);
      if Leading(area) < |area| { AssembledReads(area, content); }
    }
    q := a.AssembleArea(pool, content);
  }

  /** assembly_restore_thread: whatever the cache size, the recipe's items come out in order, every data
      chunk with its content. */
  method AssemblyRestore(pool: Pool, items: Items, cacheSize: int, ghost content: map<ChunkFp, Text>)
    returns (out: Items, readContainerNum: nat)
    requires forall i :: 0 <= i < |items| ==> Bare(items[i]) == items[i] && Fillable(pool.file, content, items[i])
    ensures Bares(out) == items && forall i :: 0 <= i < |out| ==> Done(out[i], content)
    ensures Known(items, content) && AreaOk([], content)
      && readContainerNum == AreaReads([], items, (cacheSize - 1) * CONTAINER_SIZE, content)
    ensures readContainerNum >= |IdsIn(items)|
    ensures DataSize(items) < (cacheSize - 1) * CONTAINER_SIZE ==> readContainerNum == |IdsIn(items)|
  {
    var a := new AssemblyArea(cacheSize);
    FillableIsKnown(pool.file, content, items);
    assert Bares(items) == items;
    AllFromNothing(items, a.areaSize, content);
    var issued := TakeAll(pool, a, items, content);
    out := Drain(pool, a, items, issued, content);
    readContainerNum := a.readContainerNum;
    assert Bares(out) + [] == Bares(out);
  }

  /** The loop over the recipe. */
  method TakeAll(pool: Pool, a: AssemblyArea, items: Items, ghost content: map<ChunkFp, Text>) returns (out: Items)
    requires forall i :: 0 <= i < |items| ==> Bare(items[i]) == items[i] && Fillable(pool.file, content, items[i])
    requires a.Valid() && a.area == [] && Known(items, content) && Bares(items) == items && AreaOk([], content)
    modifies a
    ensures a.Valid() && OnTrack(items, out, a.area, content) && Known(a.area, content)
    ensures a.readContainerNum + AreaReads(a.area, [], a.areaSize, content)
      == old(a.readContainerNum) + AreaReads([], items, a.areaSize, content)
  {
    ghost var total := a.readContainerNum + AreaReads([], items, a.areaSize, content);
    assert items[0..] == items;
    out := [];
    var i := 0;
    while i < |items|
      invariant 0 <= i <= |items| && a.Valid()
      invariant OnTrack(items[..i], out, a.area, content) && StillToRead(a.area, items, i, a.areaSize, content)
      invariant a.readContainerNum + AreaReads(a.area, items[i..], a.areaSize, content) == total
    {
      out := TakeItem(pool, a, items, i, out, content);
      i := i + 1;
    }
    assert items[..i] == items && items[i..] == [];
  }

  lemma AllFromNothing(items: Items, areaSize: int, content: map<ChunkFp, Text>)
    requires Known(items, content) && Bares(items) == items
    ensures AreaOk([], content) && Known([], content) && OnTrack([], [], [], content)
    ensures AreaReads([], items, areaSize, content) >= |IdsIn(items)|
    ensures DataSize(items) < areaSize ==> AreaReads([], items, areaSize, content) == |IdsIn(items)|
  {
    EachContainerRead([], items, areaSize, content);
    assert WaitingIds([]) + IdsIn(items) == IdsIn(items);
  }

  /** AreaReads is defined for what is to come. */
  ghost predicate StillToRead(area: Items, items: Items, i: nat, areaSize: int, content: map<ChunkFp, Text>)
    requires i <= |items|
  {
    AreaOk(area, content) && Known(area, content) && Known(items[i..], content) && Bares(items[i..]) == items[i..]
  }

  /** One item, and one call when the area is full. */
  method TakeItem(pool: Pool, a: AssemblyArea, items: Items, i: nat, before: Items, ghost content: map<ChunkFp, Text>)
    returns (out: Items)
    requires forall j :: 0 <= j < |items| ==> Bare(items[j]) == items[j] && Fillable(pool.file, content, items[j])
    requires i < |items| && a.Valid() && OnTrack(items[..i], before, a.area, content)
    requires StillToRead(a.area, items, i, a.areaSize, content)
    modifies a
    ensures a.Valid() && OnTrack(items[..i + 1], out, a.area, content)
    ensures StillToRead(a.area, items, i + 1, a.areaSize, content)
    ensures a.readContainerNum + AreaReads(a.area, items[i + 1..], a.areaSize, content)
      == old(a.readContainerNum) + AreaReads(old(a.area), items[i..], a.areaSize, content)
  {
    out := before;
    TakesOne(items[..i], out, a.area, content, items[i]);
    TakeNext(a.area, items[i..], content);
    assert items[..i + 1] == items[..i] + [items[i]] && items[i..][1..] == items[i + 1..];
    var full := a.Push(items[i]);
    if full {
      LastIsData(old(a.area), items[i]);
      AreaFillable(pool.file, content, items[..i + 1], out, a.area);
      FillableIsKnown(pool.file, content, a.area);
      IssuesSome(items[..i + 1], out, a.area, content);
      AssembledReads(a.area, content);
      var q := a.AssembleArea(pool, content);
      out := out + q.value;
    }
  }
}
