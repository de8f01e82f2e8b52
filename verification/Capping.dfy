/** rewrite_phase.c and cap_rewrite.c: the rewrite buffer, and capping on it. */
module Capping {
  import opened Common
  import opened GSequence
  import opened DedupSpec

  /** What flows through rewriting: file and segment boundaries, and chunks. */
  datatype Item = Boundary | Normal(c: Chunk)

  type Items = seq<Item>

  /** Chunks have at least a byte, and a chunk with a container is a duplicate. */
  predicate WellFormed(x: Item) {
    x.Normal? ==> x.c.size >= 1 && (x.c.id != TEMPORARY_ID ==> x.c.dup)
  }

  /** The buffered bytes of chunks in one container. */
  function BytesOf(s: Items, id: ContainerId): nat {
    if s == [] then 0
    else (if s[0].Normal? && s[0].c.id == id then s[0].c.size else 0) + BytesOf(s[1..], id)
  }

  function Chunks(s: Items): nat {
    if s == [] then 0 else (if s[0].Normal? then 1 else 0) + Chunks(s[1..])
  }

  function Bytes(s: Items): nat {
    if s == [] then 0 else (if s[0].Normal? then s[0].c.size else 0) + Bytes(s[1..])
  }

  lemma {:induction false} OneMore(s: Items, x: Item, id: ContainerId)
    ensures BytesOf(s + [x], id) == BytesOf(s, id) + (if x.Normal? && x.c.id == id then x.c.size else 0)
    ensures Chunks(s + [x]) == Chunks(s) + (if x.Normal? then 1 else 0)
    ensures Bytes(s + [x]) == Bytes(s) + (if x.Normal? then x.c.size else 0)
  {
    if s == [] {
      assert s + [x] == [x];
    } else {
      assert (s + [x])[1..] == s[1..] + [x];
      OneMore(s[1..], x, id);
    }
  }

  type Records = map<ContainerId, nat>

  /** One record per container with a buffered chunk, holding the sum of those chunks' sizes. */
  ghost predicate RecordsOf(records: Records, s: Items) {
    forall id :: (id in records <==> id != TEMPORARY_ID && BytesOf(s, id) > 0)
              && (id in records ==> records[id] == BytesOf(s, id))
  }

  class RewriteBuffer {
    const limit: nat
    var chunkQueue: Items
    var records: Records
    var num: nat
    var size: nat

    ghost predicate Valid()
      reads this
    {
      && (forall i :: 0 <= i < |chunkQueue| ==> WellFormed(chunkQueue[i]))
      && RecordsOf(records, chunkQueue)
      && num == Chunks(chunkQueue) && size == Bytes(chunkQueue)
    }

    constructor (bufferSize: nat)
      ensures Valid() && chunkQueue == [] && limit == bufferSize
    {
      limit, chunkQueue, records, num, size := bufferSize, [], map[], 0, 0;
    }

    /** rewrite_buffer_push; its assert on the count needs a buffer that was not full. */
    method Push(x: Item) returns (full: bool)
      requires Valid() && WellFormed(x) && num < limit
      modifies this
      ensures Valid() && chunkQueue == old(chunkQueue) + [x]
      ensures full <==> x.Normal? && num == limit
      ensures !full ==> num < limit
    {
      forall id
        ensures BytesOf(chunkQueue + [x], id) == BytesOf(chunkQueue, id) + (if x.Normal? && x.c.id == id then x.c.size else 0)
        ensures Chunks(chunkQueue + [x]) == Chunks(chunkQueue) + (if x.Normal? then 1 else 0)
        ensures Bytes(chunkQueue + [x]) == Bytes(chunkQueue) + (if x.Normal? then x.c.size else 0)
      {
        OneMore(chunkQueue, x, id);
      }
      chunkQueue := chunkQueue + [x];
      if x.Boundary? { return false; }
      if x.c.id != TEMPORARY_ID {
        assert x.c.dup;
        records := records[x.c.id := (if x.c.id in records then records[x.c.id] else 0) + x.c.size];
      }
      num, size := num + 1, size + x.c.size;
      assert num >= limit ==> num == limit;
      full := num >= limit;
    }

    /** rewrite_buffer_pop, with the HAR mark for chunks of inherited sparse containers. */
    method Pop(har: bool, inheritedSparse: set<ContainerId>) returns (r: Option<Item>)
      requires Valid()
      modifies this
      ensures Valid()
      ensures if old(chunkQueue) == [] then r == None && chunkQueue == []
              else chunkQueue == old(chunkQueue)[1..] && r == Some(MarkedByHar(old(chunkQueue)[0], har, inheritedSparse))
    {
      if chunkQueue == [] { return None; }
      var x := chunkQueue[0];
      chunkQueue := chunkQueue[1..];
      if x.Normal? {
        if x.c.dup && x.c.id != TEMPORARY_ID {
          assert x.c.id in records;
          records := records[x.c.id := records[x.c.id] - x.c.size];
          if records[x.c.id] == 0 { records := records - {x.c.id}; }
        }
        num, size := num - 1, size - x.c.size;
      }
      r := Some(MarkedByHar(x, har, inheritedSparse));
    }
  }

  /** har_check. */
  function MarkedByHar(x: Item, har: bool, inheritedSparse: set<ContainerId>): Item {
    if har && x.Normal? && x.c.dup && x.c.id != TEMPORARY_ID && x.c.id in inheritedSparse then Normal(x.c.(sparse := true)) else x
  }

  // ---- capping

  /** g_record_descmp_by_length. */
  function Larger(records: Records): (ContainerId, ContainerId) -> bool {
    (a: ContainerId, b: ContainerId) => a in records && b in records && records[a] >= records[b]
  }

  /** The top containers: at most level of them, all of them when there are no more, and none of the others
      has more buffered bytes than one of these. */
  ghost predicate IsTop(top: set<ContainerId>, records: Records, level: nat) {
    && top <= records.Keys && |top| == (if |records| > level then level else |records|)
    && forall a, b :: a in top && b in records && b !in top ==> records[a] >= records[b]
  }

  /** The record sequence, in descending order of bytes. */
  method SortRecords(records: Records) returns (s: seq<ContainerId>)
    ensures Distinct(s) && Sorted(s, Larger(records)) && Members(s) == records.Keys && |s| == |records|
  {
    s := [];
    var unseen := records.Keys;
    while unseen != {}
      invariant unseen <= records.Keys && Distinct(s) && Members(s) == records.Keys - unseen && |s| + |unseen| == |records|
    {
      var id := IterNext(unseen);
      assert id !in Members(s);
      s := InsertSorted(s, id, Larger(records));
      unseen := unseen - {id};
    }
    s := Sort(s, Larger(records));
  }

  /** cap_segment_get_top. */
  method GetTop(records: Records, level: nat) returns (top: set<ContainerId>)
    ensures IsTop(top, records, level)
  {
    var s := SortRecords(records);
    var num := if |s| > level then level else |s|;
    top := {};
    var i := 0;
    while i < num
      invariant 0 <= i <= num && top == Members(s[..i])
    {
      assert s[..i + 1] == s[..i] + [s[i]];
      top := top + {s[i]};
      i := i + 1;
    }
    DistinctCount(s[..i]);
    TopOfSorted(records, s, i);
  }

  lemma TopOfSorted(records: Records, s: seq<ContainerId>, n: nat)
    requires Distinct(s) && Members(s) == records.Keys && Sorted(s, Larger(records)) && n <= |s|
    ensures Members(s[..n]) <= records.Keys
    ensures forall a, b :: a in Members(s[..n]) && b in records && b !in Members(s[..n]) ==> records[a] >= records[b]
  {
    forall k | 0 <= k < n ensures s[k] in Members(s[..n]) {
      assert s[..n][k] == s[k];
    }
    forall a, b | a in Members(s[..n]) && b in records && b !in Members(s[..n]) ensures records[a] >= records[b] {
      assert b in Members(s);
      var i :| 0 <= i < n && s[..n][i] == a;
      var j :| 0 <= j < |s| && s[j] == b;
      assert Larger(records)(s[i], s[j]);
    }
  }

  /** What a flush does to one item: a chunk outside the top containers is marked out of order, in the last
      flush also when it is unique. */
  function Capped(x: Item, top: set<ContainerId>, last: bool, har: bool, inheritedSparse: set<ContainerId>): Item {
    var y := MarkedByHar(x, har, inheritedSparse);
    if y.Normal? && (y.c.dup || last) && y.c.id !in top then Normal(y.c.(outOfOrder := true)) else y
  }

  function CappedAll(s: Items, top: set<ContainerId>, last: bool, har: bool, inheritedSparse: set<ContainerId>): (r: Items)
    ensures |r| == |s| && forall i :: 0 <= i < |s| ==> r[i] == Capped(s[i], top, last, har, inheritedSparse)
  {
    seq(|s|, i requires 0 <= i < |s| => Capped(s[i], top, last, har, inheritedSparse))
  }

  /** One flush: everything buffered leaves in order, capped by the top containers of the buffer. */
  method Flush(b: RewriteBuffer, level: nat, last: bool, har: bool, inheritedSparse: set<ContainerId>)
    returns (out: Items, ghost top: set<ContainerId>)
    requires b.Valid()
    modifies b
    ensures b.Valid() && b.chunkQueue == []
    ensures IsTop(top, old(b.records), level) && out == CappedAll(old(b.chunkQueue), top, last, har, inheritedSparse)
  {
    var chosen := GetTop(b.records, level);
    top := chosen;
    out := [];
    ghost var s := b.chunkQueue;
    while b.chunkQueue != []
      invariant b.Valid() && |out| <= |s| && b.chunkQueue == s[|out|..]
      invariant forall i :: 0 <= i < |out| ==> out[i] == Capped(s[i], chosen, last, har, inheritedSparse)
      decreases |b.chunkQueue|
    {
      var popped := b.Pop(har, inheritedSparse);
      var x := popped.value;
      if x.Normal? && (x.c.dup || last) {
        if x.c.id !in chosen { x := Normal(x.c.(outOfOrder := true)); }
      }
      out := out + [x];
    }
    assert out == CappedAll(s, chosen, last, har, inheritedSparse);
  }

  predicate NoMark(x: Item) {
    x.Normal? ==> !x.c.outOfOrder && !x.c.sparse
  }

  /** After a flush, duplicates that are not marked refer to at most level containers, each with at least as
      many buffered bytes as any container that was left out; chunks without a container are marked. With HAR exactly
      the chunks of inherited sparse containers are marked sparse. */
  lemma FlushCaps(s: Items, records: Records, top: set<ContainerId>, level: nat, last: bool, har: bool,
                  inheritedSparse: set<ContainerId>, i: nat)
    requires (forall j :: 0 <= j < |s| ==> WellFormed(s[j])) && RecordsOf(records, s) && IsTop(top, records, level)
    requires i < |s| && s[i].Normal? && NoMark(s[i])
    ensures var y := CappedAll(s, top, last, har, inheritedSparse)[i].c;
      && |top| <= level
      && (y.dup && !y.outOfOrder ==> y.id in top && y.id != TEMPORARY_ID)
      && (y.outOfOrder <==> (y.dup || last) && y.id !in top)
      && (y.sparse <==> har && y.id != TEMPORARY_ID && y.id in inheritedSparse)
      && forall a, b :: a in top && b !in top && b != TEMPORARY_ID ==> BytesOf(s, a) >= BytesOf(s, b)
  {
    forall a, b | a in top && b !in top && b != TEMPORARY_ID ensures BytesOf(s, a) >= BytesOf(s, b) {
      assert a in records;
    }
  }

  /** The output is the input with marks added, in the same order: a step that rewriting may take. */
  predicate OnlyMarked(a: Items, b: Items) {
    |a| == |b| && forall i :: 0 <= i < |a| ==> MarkedOne(a[i], b[i])
  }

  predicate MarkedOne(x: Item, y: Item) {
    x == y || (x.Normal? && y.Normal? && x.c == y.c.(sparse := x.c.sparse, outOfOrder := x.c.outOfOrder))
  }

  /** What one flush found in the buffer, and the containers it spared. */
  datatype Batch = Batch(items: Items, records: Records, top: set<ContainerId>)

  /** Every batch but the last is a full buffer; the last one is what was left, less than a buffer. */
  ghost predicate IsBatch(x: Batch, bufferSize: nat, level: nat, last: bool) {
    && (forall j :: 0 <= j < |x.items| ==> WellFormed(x.items[j]))
    && RecordsOf(x.records, x.items) && IsTop(x.top, x.records, level)
    && (if last then Chunks(x.items) < bufferSize else Chunks(x.items) == bufferSize)
  }

  function Taken(batches: seq<Batch>): seq<Items> {
    seq(|batches|, i requires 0 <= i < |batches| => batches[i].items)
  }

  function Put(batches: seq<Batch>, har: bool, inheritedSparse: set<ContainerId>): seq<Items> {
    seq(|batches|, i requires 0 <= i < |batches| =>
      CappedAll(batches[i].items, batches[i].top, i + 1 == |batches|, har, inheritedSparse))
  }

  /** The input was cut into batches, and the output is those batches capped. */
  ghost predicate IsCapping(input: Items, output: Items, batches: seq<Batch>, bufferSize: nat, level: nat,
                            har: bool, inheritedSparse: set<ContainerId>) {
    && batches != []
    && (forall i :: 0 <= i < |batches| ==> IsBatch(batches[i], bufferSize, level, i + 1 == |batches|))
    && input == Flat(Taken(batches)) && output == Flat(Put(batches, har, inheritedSparse))
  }

  /** Rewriting only marks: every item comes out, in order. */
  lemma {:induction false} CappingMarks(batches: seq<Batch>, har: bool, inheritedSparse: set<ContainerId>)
    ensures OnlyMarked(Flat(Put(batches, har, inheritedSparse)), Flat(Taken(batches)))
  {
    if batches != [] {
      CappingMarks(batches[1..], har, inheritedSparse);
      var put := Put(batches, har, inheritedSparse);
      assert put[1..] == Put(batches[1..], har, inheritedSparse);
      assert Taken(batches)[1..] == Taken(batches[1..]);
      assert OnlyMarked(put[0], batches[0].items);
    }
  }

  /** The batches so far, none of them the last. */
  ghost predicate Batched(input: Items, output: Items, batches: seq<Batch>, bufferSize: nat, level: nat,
                          har: bool, inheritedSparse: set<ContainerId>) {
    && (forall i :: 0 <= i < |batches| ==> IsBatch(batches[i], bufferSize, level, false))
    && input == Flat(Taken(batches)) && output == Flat(PutEarly(batches, har, inheritedSparse))
  }

  function PutEarly(batches: seq<Batch>, har: bool, inheritedSparse: set<ContainerId>): seq<Items> {
    seq(|batches|, i requires 0 <= i < |batches| =>
      CappedAll(batches[i].items, batches[i].top, false, har, inheritedSparse))
  }

  lemma OneMoreBatch(input: Items, output: Items, batches: seq<Batch>, bufferSize: nat, level: nat,
                     har: bool, inheritedSparse: set<ContainerId>, x: Batch)
    requires Batched(input, output, batches, bufferSize, level, har, inheritedSparse)
    ensures IsBatch(x, bufferSize, level, false) ==>
      Batched(input + x.items, output + CappedAll(x.items, x.top, false, har, inheritedSparse), batches + [x],
              bufferSize, level, har, inheritedSparse)
    ensures IsBatch(x, bufferSize, level, true) ==>
      IsCapping(input + x.items, output + CappedAll(x.items, x.top, true, har, inheritedSparse), batches + [x],
                bufferSize, level, har, inheritedSparse)
  {
    var early := PutEarly(batches, har, inheritedSparse);
    FlatSnoc(Taken(batches), x.items);
    assert Taken(batches + [x]) == Taken(batches) + [x.items];
    FlatSnoc(early, CappedAll(x.items, x.top, false, har, inheritedSparse));
    assert PutEarly(batches + [x], har, inheritedSparse) == early + [CappedAll(x.items, x.top, false, har, inheritedSparse)];
    FlatSnoc(early, CappedAll(x.items, x.top, true, har, inheritedSparse));
    assert Put(batches + [x], har, inheritedSparse) == early + [CappedAll(x.items, x.top, true, har, inheritedSparse)];
  }

  /** cap_rewrite: the input leaves in full buffers and a rest, each capped by its own top containers. */
  method CapRewrite(input: Items, bufferSize: nat, level: nat, har: bool, inheritedSparse: set<ContainerId>)
    returns (output: Items, ghost batches: seq<Batch>)
    requires bufferSize > 0 && forall i :: 0 <= i < |input| ==> WellFormed(input[i])
    ensures IsCapping(input, output, batches, bufferSize, level, har, inheritedSparse)
    ensures OnlyMarked(output, input)
  {
    var b := new RewriteBuffer(bufferSize);
    output, batches := [], [];
    ghost var done := [];
    var i := 0;
    while i < |input|
      invariant 0 <= i <= |input| && fresh(b) && b.Valid() && b.num < b.limit
      invariant Batched(done, output, batches, bufferSize, level, har, inheritedSparse)
      invariant input[..i] == done + b.chunkQueue
    {
      var full := b.Push(input[i]);
      assert input[..i + 1] == done + b.chunkQueue;
      i := i + 1;
      if full {
        ghost var items, records := b.chunkQueue, b.records;
        ghost var top;
        var out;
        out, top := Flush(b, level, false, har, inheritedSparse);
        OneMoreBatch(done, output, batches, bufferSize, level, har, inheritedSparse, Batch(items, records, top));
        output, batches, done := output + out, batches + [Batch(items, records, top)], done + items;
      }
    }
    ghost var items, records := b.chunkQueue, b.records;
    ghost var top;
    var out;
    out, top := Flush(b, level, true, har, inheritedSparse);
    OneMoreBatch(done, output, batches, bufferSize, level, har, inheritedSparse, Batch(items, records, top));
    output, batches := output + out, batches + [Batch(items, records, top)];
    assert input[..i] == input;
    CappingMarks(batches, har, inheritedSparse);
  }
}
