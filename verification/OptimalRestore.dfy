/** optimal_restore.c: a window over the record file, and victims chosen by next access in it. */
module OptimalRestore {
  import opened Common
  import opened Lru
  import opened Belady
  import opened GSequence
  import opened RecipeStore

  // ---- the window

  /** Where id stands between lo and hi. */
  function Positions(records: Ids, id: ContainerId, lo: nat, hi: nat): (r: seq<nat>)
    requires hi <= |records|
    ensures forall i :: 0 <= i < |r| ==> lo <= r[i] < hi && records[r[i]] == id
  {
    if hi <= lo then []
    else Positions(records, id, lo, hi - 1) + (if records[hi - 1] == id then [hi - 1] else [])
  }

  lemma {:induction false} PositionsFirst(records: Ids, id: ContainerId, lo: nat, hi: nat, j: nat)
    requires lo <= j < hi <= |records| && records[j] == id
    ensures Positions(records, id, lo, hi) != [] && Positions(records, id, lo, hi)[0] <= j
  {
    if j < hi - 1 { PositionsFirst(records, id, lo, hi - 1, j); }
    HeadOf(Positions(records, id, lo, hi - 1), if records[hi - 1] == id then [hi - 1] else []);
    PositionsWithin(records, id, lo, hi - 1);
  }

  lemma HeadOf<T>(s: seq<T>, t: seq<T>)
    ensures s != [] ==> (s + t)[0] == s[0]
    ensures s == [] ==> s + t == t
  {}

  lemma {:induction false} PositionsWithin(records: Ids, id: ContainerId, lo: nat, hi: nat)
    requires lo <= hi <= |records|
    ensures forall p :: p in Positions(records, id, lo, hi) ==> lo <= p < hi
  {
    if lo < hi { PositionsWithin(records, id, lo, hi - 1); }
  }

  lemma Rejoin<T>(x: seq<T>, a: seq<T>, y: seq<T>, c: seq<T>)
    requires x == a + y
    ensures x + c == a + (y + c)
  {}

  lemma {:induction false} PositionsSlide(records: Ids, id: ContainerId, lo: nat, hi: nat)
    requires lo < hi <= |records|
    ensures Positions(records, id, lo, hi) == (if records[lo] == id then [lo] else []) + Positions(records, id, lo + 1, hi)
  {
    if lo + 1 < hi {
      PositionsSlide(records, id, lo, hi - 1);
      Rejoin(Positions(records, id, lo, hi - 1), if records[lo] == id then [lo] else [],
             Positions(records, id, lo + 1, hi - 1), if records[hi - 1] == id then [hi - 1] else []);
    } else {
      assert Positions(records, id, lo, lo) == [];
    }
  }

  lemma {:induction false} NextUseFrom(trace: Ids, id: ContainerId, pos: nat, k: nat)
    requires pos <= k <= |trace| && (k < |trace| ==> trace[k] == id)
    requires forall j :: pos <= j < k ==> trace[j] != id
    ensures NextUse(trace[pos..], id) == k - pos
    decreases k - pos
  {
    if pos < k {
      assert trace[pos..][1..] == trace[pos + 1..];
      NextUseFrom(trace, id, pos + 1, k);
    }
  }

  /** The first position between pos and hi is the next use in that part of the trace. */
  lemma PositionsAreNextUse(trace: Ids, records: Ids, id: ContainerId, pos: nat, hi: nat)
    requires records == trace + [TEMPORARY_ID] && pos <= |trace| && pos <= hi <= |records| && id != TEMPORARY_ID
    ensures var r, end := Positions(records, id, pos, hi), if hi <= |trace| then hi else |trace|;
      NextUse(trace[pos..end], id) == if r == [] then end - pos else r[0] - pos
  {
    var r, end := Positions(records, id, pos, hi), if hi <= |trace| then hi else |trace|;
    PositionsWithin(records, id, pos, hi);
    assert r != [] ==> r[0] in r && records[r[0]] == id by { if r != [] { PositionsName(records, id, pos, hi, r[0]); } }
    var k := if r == [] then end else r[0];
    forall j | pos <= j < k ensures trace[..end][j] != id {
      assert records[j] == trace[j];
      if trace[j] == id { PositionsFirst(records, id, pos, hi, j); }
    }
    NextUseFrom(trace[..end], id, pos, k);
    assert trace[..end][pos..] == trace[pos..end];
  }

  lemma {:induction false} PositionsName(records: Ids, id: ContainerId, lo: nat, hi: nat, p: nat)
    requires lo <= hi <= |records| && p in Positions(records, id, lo, hi)
    ensures p < |records| && records[p] == id
  {
    if lo < hi && p in Positions(records, id, lo, hi - 1) { PositionsName(records, id, lo, hi - 1, p); }
  }

  // ---- the order of the records

  type Table = map<ContainerId, seq<nat>>

  /** g_access_records_cmp_by_first_seqno: ascending, records without further access last. */
  function Sooner(table: Table): (ContainerId, ContainerId) -> bool {
    (a: ContainerId, b: ContainerId) =>
      a in table && b in table && (table[b] == [] || (table[a] != [] && table[a][0] <= table[b][0]))
  }

  lemma SoonerOrders(table: Table, m: set<ContainerId>)
    requires m <= table.Keys
    ensures Orders(Sooner(table), m)
  {}

  function In(ht: set<ContainerId>): ContainerId -> bool {
    (x: ContainerId) => x in ht
  }

  /** The candidates: the last record, and up to ten before it that have no further access. */
  method Candidates(table: Table, s: Ids) returns (ht: set<ContainerId>)
    requires s != [] && Members(s) <= table.Keys && Distinct(s) && Sorted(s, Sooner(table))
    ensures s[|s| - 1] in ht && ht <= Members(s)
    ensures forall v, x :: v in ht && x in s ==> Sooner(table)(x, v)
    ensures |ht| <= 11 && (|ht| == 11 || forall x :: x in s && table[x] == [] ==> x in ht)
  {
    var iter := |s| - 1;
    ht := {s[iter]};
    assert forall i :: 0 <= i < |s| ==> s[i] in Members(s);
    forall x | x in s ensures Sooner(table)(x, s[|s| - 1]) {
      var i :| 0 <= i < |s| && s[i] == x;
    }
    var i := 0;
    while i < 10 && iter > 0
      invariant 0 <= iter < |s| && s[|s| - 1] in ht
      invariant ht <= Members(s) && forall v :: v in ht ==> v == s[|s| - 1] || (v in table && table[v] == [])
      invariant i + iter == |s| - 1 && |ht| == i + 1
      invariant forall k :: iter <= k < |s| ==> s[k] in ht
      invariant forall k :: 0 <= k < iter ==> s[k] !in ht
      decreases iter
    {
      iter := iter - 1;
      assert s[iter] in Members(s);
      if table[s[iter]] != [] {
        NoneBefore(table, s, iter, ht);
        return;
      }
      ht := ht + {s[iter]};
      i := i + 1;
    }
  }

  /** Records without further access stand behind those that have one. */
  lemma NoneBefore(table: Table, s: Ids, iter: nat, ht: set<ContainerId>)
    requires Members(s) <= table.Keys && Sorted(s, Sooner(table)) && iter < |s| && s[iter] in table && table[s[iter]] != []
    requires forall k :: iter < k < |s| ==> s[k] in ht
    ensures forall x :: x in s && x in table && table[x] == [] ==> x in ht
  {
    forall k | 0 <= k < iter ensures s[k] in table && table[s[k]] != [] {
      assert Sooner(table)(s[k], s[iter]);
    }
  }

  datatype View = View(table: Table, records: Ids, pos: nat, hi: nat)
  type ValidView = v: View | v.hi <= |v.records| witness View(map[], [], 0, 0)

  /** The table says where each id stands between pos and hi, and knows every id that stands there. */
  ghost predicate Exact(v: ValidView) {
    && (forall id :: id in v.table ==> v.table[id] == Positions(v.records, id, v.pos, v.hi))
    && (forall id :: Positions(v.records, id, v.pos, v.hi) != [] ==> id in v.table)
  }

  predicate Viewed(v: ValidView) { true }

  /** Exact, behind a quantifier so that it unfolds only where Viewed(v) is stated. */
  ghost predicate TableIs(table: Table, records: Ids, pos: nat, hi: nat) {
    pos <= hi <= |records|
    && forall v: ValidView {:trigger Viewed(v)} :: Viewed(v) && v == View(table, records, pos, hi) ==> Exact(v)
  }

  lemma PositionsFill(records: Ids, id: ContainerId, lo: nat, hi: nat)
    requires lo <= hi < |records|
    ensures Positions(records, id, lo, hi + 1)
      == if records[hi] == id then Positions(records, id, lo, hi) + [hi] else Positions(records, id, lo, hi)
  {
    assert Positions(records, id, lo, hi) + [] == Positions(records, id, lo, hi);
  }

  lemma ExactFills(v: ValidView, id: ContainerId)
    requires Exact(v) && v.pos <= v.hi < |v.records| && v.records[v.hi] == id
    ensures Exact(v.(table := v.table[id := (if id in v.table then v.table[id] else []) + [v.hi]], hi := v.hi + 1))
  {
    var table' := v.table[id := (if id in v.table then v.table[id] else []) + [v.hi]];
    forall x
      ensures x in table' ==> table'[x] == Positions(v.records, x, v.pos, v.hi + 1)
      ensures Positions(v.records, x, v.pos, v.hi + 1) != [] ==> x in table'
    {
      PositionsFill(v.records, x, v.pos, v.hi);
    }
  }

  lemma TableFills(table: Table, records: Ids, pos: nat, hi: nat, id: ContainerId)
    requires TableIs(table, records, pos, hi) && hi < |records| && records[hi] == id
    ensures TableIs(table[id := (if id in table then table[id] else []) + [hi]], records, pos, hi + 1)
  {
    assert Viewed(View(table, records, pos, hi));
    ExactFills(View(table, records, pos, hi), id);
  }

  lemma ExactSlides(v: ValidView, id: ContainerId)
    requires Exact(v) && v.pos < v.hi && v.records[v.pos] == id
    ensures id in v.table && v.table[id] != []
    ensures Exact(v.(table := v.table[id := v.table[id][1..]], pos := v.pos + 1))
  {
    PositionsSlide(v.records, id, v.pos, v.hi);
    var table' := v.table[id := v.table[id][1..]];
    forall x
      ensures x in table' ==> table'[x] == Positions(v.records, x, v.pos + 1, v.hi)
      ensures Positions(v.records, x, v.pos + 1, v.hi) != [] ==> x in table'
    {
      PositionsSlide(v.records, x, v.pos, v.hi);
    }
  }

  lemma TableSlides(table: Table, records: Ids, pos: nat, hi: nat, id: ContainerId)
    requires TableIs(table, records, pos, hi) && pos < hi && records[pos] == id
    ensures id in table && table[id] != []
    ensures TableIs(table[id := table[id][1..]], records, pos + 1, hi)
  {
    assert Viewed(View(table, records, pos, hi));
    ExactSlides(View(table, records, pos, hi), id);
  }

  lemma TableForgets(table: Table, records: Ids, pos: nat, hi: nat, id: ContainerId)
    requires TableIs(table, records, pos, hi) && id in table && table[id] == []
    ensures TableIs(table - {id}, records, pos, hi)
  {
    assert Viewed(View(table, records, pos, hi));
  }

  /** access_record_table and the records read ahead. */
  class Window {
    const size: nat
    const reader: RecordReader
    var currentSequenceNumber: nat
    var table: Table
    var buffered: nat
    ghost const records: Ids
    ghost var pos: nat

    ghost predicate Valid()
      reads this, reader
    {
      && size > 0 && reader.Valid()
      && currentSequenceNumber <= |records| && reader.left == records[currentSequenceNumber..]
      && buffered == currentSequenceNumber - pos
      && TableIs(table, records, pos, currentSequenceNumber)
      && (size >= |records| ==> currentSequenceNumber == |records|)
      && (currentSequenceNumber == |records| || 2 * buffered + 1 >= size)
    }

    constructor (windowSize: nat, recordReader: RecordReader)
      requires windowSize > 0 && recordReader.Valid()
      modifies recordReader
      ensures Valid() && records == old(recordReader.left) && pos == 0 && size == windowSize && reader == recordReader
    {
      size, reader, records := windowSize, recordReader, recordReader.left;
      currentSequenceNumber, table, buffered, pos := 0, map[], 0, 0;
      new;
      FillOnce();
    }

    /** optimal_cache_window_fill. */
    method FillOnce()
      requires size > buffered && reader.Valid() && currentSequenceNumber <= |records|
      requires reader.left == records[currentSequenceNumber..] && buffered == currentSequenceNumber - pos
      requires TableIs(table, records, pos, currentSequenceNumber)
      modifies this`currentSequenceNumber, this`table, this`buffered, reader
      ensures reader.Valid() && currentSequenceNumber <= |records|
      ensures reader.left == records[currentSequenceNumber..] && buffered == currentSequenceNumber - pos
      ensures TableIs(table, records, pos, currentSequenceNumber) && old(table).Keys <= table.Keys
      ensures buffered == if size < |records| - pos then size else |records| - pos
    {
      var ids := reader.ReadNext(size - buffered);
      if ids.Some? {
        buffered := buffered + |ids.value|;
        Index(ids.value);
      }
    }

    /** The ids just read, each with its sequence number. */
    method Index(ids: Ids)
      requires currentSequenceNumber + |ids| <= |records|
      requires forall i :: 0 <= i < |ids| ==> records[currentSequenceNumber + i] == ids[i]
      requires TableIs(table, records, pos, currentSequenceNumber)
      modifies this`currentSequenceNumber, this`table
      ensures currentSequenceNumber == old(currentSequenceNumber) + |ids|
      ensures TableIs(table, records, pos, currentSequenceNumber) && old(table).Keys <= table.Keys
    {
      var i := 0;
      while i < |ids|
        invariant 0 <= i <= |ids| && currentSequenceNumber == old(currentSequenceNumber) + i
        invariant TableIs(table, records, pos, currentSequenceNumber) && old(table).Keys <= table.Keys
      {
        TableFills(table, records, pos, currentSequenceNumber, ids[i]);
        var queue := if ids[i] in table then table[ids[i]] else [];
        table := table[ids[i] := queue + [currentSequenceNumber]];
        currentSequenceNumber := currentSequenceNumber + 1;
        i := i + 1;
      }
    }

    /** optimal_cache_window_slides; its assert is that the record is in the table. */
    method Slide(id: ContainerId)
      requires Valid() && pos < |records| && records[pos] == id
      modifies this, reader
      ensures Valid() && pos == old(pos) + 1 && id in table && old(table).Keys <= table.Keys
    {
      if buffered * 2 <= size {
        FillOnce();
      }
      PopHead(id);
    }

    method PopHead(id: ContainerId)
      requires Valid() && pos < currentSequenceNumber && records[pos] == id
      requires currentSequenceNumber == |records| || 2 * buffered > size
      modifies this`table, this`pos, this`buffered
      ensures Valid() && pos == old(pos) + 1 && id in table && old(table).Keys <= table.Keys
    {
      TableSlides(table, records, pos, currentSequenceNumber, id);
      table := table[id := table[id][1..]];
      pos, buffered := pos + 1, buffered - 1;
    }

    method Forget(id: ContainerId)
      requires Valid() && id in table && table[id] == []
      modifies this`table
      ensures Valid() && table == old(table) - {id}
    {
      TableForgets(table, records, pos, currentSequenceNumber, id);
      table := table - {id};
    }
  }

  // ---- the reads of a restore as those of a schedule

  /** How far a window of that size sees: to the end of the file, or at least half of its size ahead. */
  predicate Foresees(window: nat, rest: Ids, l: nat) {
    l <= |rest| && (l == |rest| || 2 * l + 1 >= window)
  }

  /** No cached container has a later next access among the first l. */
  predicate FarthestOf(cache: set<ContainerId>, rest: Ids, v: ContainerId, l: nat)
    requires l <= |rest|
  {
    v in cache && forall x :: x in cache ==> NextUse(rest[..l], x) <= NextUse(rest[..l], v)
  }

  ghost predicate FarthestInSight(window: nat, cache: set<ContainerId>, rest: Ids, v: ContainerId) {
    exists l :: Foresees(window, rest, l) && FarthestOf(cache, rest, v, l)
  }

  /** Every victim is the farthest one as far as a window of that size sees. */
  ghost predicate Foresighted(window: nat, cache: set<ContainerId>, size: int, trace: Ids, victims: Ids)
    decreases |trace|
  {
    |victims| == |trace| &&
    (trace == [] ||
      ((trace[0] in cache || !Full(cache, size) || FarthestInSight(window, cache, trace[1..], victims[0]))
       && Foresighted(window, After(cache, size, trace[0], victims[0]), size, trace[1..], victims[1..])))
  }

  /** Up to pos the cache has followed victims with that many reads: any way of going on from here is a
      way from the empty cache, with farthest victims, or farthest in sight, if every victim so far was. */
  ghost predicate Continues(size: int, trace: Ids, pos: nat, victims: Ids, cache: set<ContainerId>, loads: nat, far: bool,
                            window: nat) {
    pos <= |trace| && |victims| == pos &&
    forall more: Ids {:trigger victims + more} :: |more| == |trace| - pos ==>
      && (Schedule(cache, size, trace[pos..], more) ==> Schedule({}, size, trace, victims + more))
      && Reads({}, size, trace, victims + more) == loads + Reads(cache, size, trace[pos..], more)
      && (far && Farthest(cache, size, trace[pos..], more) ==> Farthest({}, size, trace, victims + more))
      && (Foresighted(window, cache, size, trace[pos..], more) ==> Foresighted(window, {}, size, trace, victims + more))
  }

  /** Continues as one value, behind a quantifier so that it unfolds only where Marked(x) is stated. */
  datatype Progress = Progress(size: int, trace: Ids, pos: nat, victims: Ids, cache: set<ContainerId>, loads: nat, far: bool,
                               window: nat)

  predicate Marked(x: Progress) { true }

  ghost predicate OnCourse(x: Progress) {
    forall y {:trigger Marked(y)} :: Marked(y) && y == x ==>
      Continues(y.size, y.trace, y.pos, y.victims, y.cache, y.loads, y.far, y.window)
  }

  lemma ContinuesStart(size: int, trace: Ids, far: bool, window: nat)
    ensures OnCourse(Progress(size, trace, 0, [], {}, 0, far, window))
  {
    assert trace[0..] == trace && forall more: Ids :: [] + more == more;
  }

  /** A victim that may be chosen: farthest in sight, and farthest when far is claimed. */
  ghost predicate Choice(size: int, trace: Ids, pos: nat, cache: set<ContainerId>, v: ContainerId, far: bool, window: nat)
    requires pos < |trace|
  {
    trace[pos] in cache || !Full(cache, size)
    || (v in cache && FarthestInSight(window, cache, trace[pos + 1..], v) && (far ==> forall x :: x in cache ==> NextUse(trace[pos + 1..], x) <= NextUse(trace[pos + 1..], v)))
  }

  lemma OnCourseOn(x: Progress, v: ContainerId)
    requires OnCourse(x) && x.pos < |x.trace| && Choice(x.size, x.trace, x.pos, x.cache, v, x.far, x.window)
    ensures var id := x.trace[x.pos];
      OnCourse(x.(pos := x.pos + 1, victims := x.victims + [v], cache := After(x.cache, x.size, id, v),
                  loads := x.loads + (if id in x.cache then 0 else 1)))
  {
    assert Marked(x);
    ContinuesOn(x.size, x.trace, x.pos, x.victims, x.cache, x.loads, x.far, x.window, v);
  }

  lemma ContinuesOn(size: int, trace: Ids, pos: nat, victims: Ids, cache: set<ContainerId>, loads: nat, far: bool,
                    window: nat, v: ContainerId)
    requires Continues(size, trace, pos, victims, cache, loads, far, window) && pos < |trace|
    requires Choice(size, trace, pos, cache, v, far, window)
    ensures Continues(size, trace, pos + 1, victims + [v], After(cache, size, trace[pos], v),
                      loads + (if trace[pos] in cache then 0 else 1), far, window)
  {
    assert trace[pos..][1..] == trace[pos + 1..];
    forall more: Ids {:trigger victims + [v] + more} | |more| == |trace| - pos - 1
      ensures var all := victims + [v] + more;
        var cache' := After(cache, size, trace[pos], v);
        && (Schedule(cache', size, trace[pos + 1..], more) ==> Schedule({}, size, trace, all))
        && Reads({}, size, trace, all) == loads + (if trace[pos] in cache then 0 else 1) + Reads(cache', size, trace[pos + 1..], more)
        && (far && Farthest(cache', size, trace[pos + 1..], more) ==> Farthest({}, size, trace, all))
        && (Foresighted(window, cache', size, trace[pos + 1..], more) ==> Foresighted(window, {}, size, trace, all))
    {
      assert victims + [v] + more == victims + ([v] + more);
      assert ([v] + more)[1..] == more;
    }
  }

  lemma ContinuesEnd(size: int, trace: Ids, victims: Ids, cache: set<ContainerId>, loads: nat, far: bool, window: nat)
    requires OnCourse(Progress(size, trace, |trace|, victims, cache, loads, far, window))
    ensures Schedule({}, size, trace, victims) && Reads({}, size, trace, victims) == loads
    ensures Foresighted(window, {}, size, trace, victims) && (far ==> Farthest({}, size, trace, victims))
  {
    assert Marked(Progress(size, trace, |trace|, victims, cache, loads, far, window));
    assert victims + [] == victims;
  }

  // ---- the cache

  /** A chunk of the recipe: its container, and the containers that hold its fingerprint. */
  datatype ChunkRef = ChunkRef(id: ContainerId, holders: set<ContainerId>)

  lemma MoveToFront(q: Ids, i: nat)
    requires i < |q|
    ensures Members(ToFront(q, i)) == Members(q) && (Distinct(q) ==> Distinct(ToFront(q, i)))
  {
    assert q == q[..i] + [q[i]] + q[i + 1..];
  }

  lemma TouchMembers(q: Ids, hit: ContainerId -> bool)
    ensures Members(Touched(q, hit)) == Members(q) && (Distinct(q) ==> Distinct(Touched(q, hit)))
  {
    var i := FirstHit(q, hit);
    if i < |q| { MoveToFront(q, i); }
  }

  /** A victim with no further access in the window, or with the latest one of all cached containers. */
  ghost predicate GoodVictim(table: Table, cache: set<ContainerId>, v: ContainerId) {
    v in cache && forall x :: x in cache ==> Sooner(table)(x, v)
  }

  /** Of the candidates in the queue, none was used longer ago. */
  ghost predicate LeastRecent(q: Ids, candidates: set<ContainerId>, v: ContainerId) {
    v in candidates && exists i :: 0 <= i < |q| && q[i] == v && forall j :: i < j < |q| ==> q[j] !in candidates
  }

  /** The queue has lost v, and the others keep their order. */
  ghost predicate Dropped(q: Ids, v: ContainerId, q': Ids) {
    exists i :: 0 <= i < |q| && q[i] == v && q' == q[..i] + q[i + 1..]
  }

  class OptimalCache {
    const window: Window
    const lru: LruCache<ContainerId>
    var sorted: Ids

    /** The sorted records are those of the cached containers, and all of them are in the table. */
    ghost predicate Valid()
      reads this, window, window.reader, lru
    {
      && window.Valid() && lru.Valid() && lru.maxSize != 0
      && Distinct(lru.elemQueue) && Distinct(sorted)
      && Members(sorted) == Members(lru.elemQueue) <= window.table.Keys
    }

    ghost function Cached(): set<ContainerId>
      reads this, lru
    {
      Members(lru.elemQueue)
    }

    constructor (windowSize: nat, maxSize: int, reader: RecordReader)
      requires windowSize > 0 && maxSize != 0 && reader.Valid()
      modifies reader
      ensures Valid() && Cached() == {} && lru.maxSize == maxSize && fresh(lru) && fresh(window)
      ensures window.records == old(reader.left) && window.pos == 0 && window.size == windowSize && window.reader == reader
    {
      window := new Window(windowSize, reader);
      lru := new LruCache(maxSize);
      sorted := [];
    }

    /** The sorted records are sorted again; the candidates are found at their end. */
    method SortedCandidates() returns (ht: set<ContainerId>, ghost last: ContainerId)
      requires Valid() && lru.elemQueue != []
      modifies this`sorted
      ensures Distinct(sorted) && Members(sorted) == Cached()
      ensures last in ht && last in Cached() && forall v :: v in ht ==> GoodVictim(window.table, Cached(), v)
      ensures |ht| == 11 || forall x :: x in Cached() && window.table[x] == [] ==> x in ht
    {
      SoonerOrders(window.table, Members(sorted));
      sorted := Sort(sorted, Sooner(window.table));
      assert lru.elemQueue[0] in Members(sorted);
      ht := Candidates(window.table, sorted);
      last := sorted[|sorted| - 1];
      assert last in Members(sorted);
      forall x | x in Cached() ensures x in sorted {
        assert x in Members(sorted);
      }
    }

    /** The candidate that was used least recently leaves the LRU queue. */
    method Kick() returns (victim: ContainerId, ghost candidates: set<ContainerId>)
      requires Valid() && lru.elemQueue != []
      modifies this`sorted, lru
      ensures window.Valid() && lru.Valid() && lru.maxSize == old(lru.maxSize) && lru.size == old(lru.size) - 1
      ensures GoodVictim(window.table, old(Cached()), victim) && LeastRecent(old(lru.elemQueue), candidates, victim)
      ensures forall v :: v in candidates ==> GoodVictim(window.table, old(Cached()), v)
      ensures |candidates| == 11 || forall x :: x in old(Cached()) && window.table[x] == [] ==> x in candidates
      ensures Dropped(old(lru.elemQueue), victim, lru.elemQueue)
      ensures Distinct(lru.elemQueue) && Cached() == old(Cached()) - {victim}
      ensures Distinct(sorted) && Members(sorted) == old(Cached())
    {
      var ht;
      ghost var last;
      ht, last := SortedCandidates();
      candidates := ht;
      var hit := In(ht);
      assert hit(last);
      var kicked := lru.Kicks(hit);
      victim := kicked.value;
      DroppedAt(old(lru.elemQueue), LastHit(old(lru.elemQueue), hit));
    }

    /** The victim's record leaves the sorted records, and the table when it has no further access. */
    method DropRecord(victim: ContainerId)
      requires window.Valid() && victim in sorted && victim in window.table && Distinct(sorted)
      modifies this`sorted, window`table
      ensures window.Valid() && Distinct(sorted) && Members(sorted) == Members(old(sorted)) - {victim}
      ensures old(window.table).Keys - {victim} <= window.table.Keys
    {
      var iter := |sorted| - 1;
      while sorted[iter] != victim
        invariant 0 <= iter < |sorted| && victim in sorted[..iter + 1]
        decreases iter
      {
        assert sorted[..iter + 1] == sorted[..iter] + [sorted[iter]];
        iter := iter - 1;
      }
      if window.table[victim] == [] {
        window.Forget(victim);
      }
      DroppedAt(sorted, iter);
      sorted := sorted[..iter] + sorted[iter + 1..];
    }

    /** Room for one more. */
    method MakeRoom() returns (ghost victim: ContainerId)
      requires Valid()
      modifies this`sorted, lru, window`table
      ensures Valid() && lru.maxSize == old(lru.maxSize) && (lru.maxSize > 0 ==> lru.size < lru.maxSize)
      ensures if Full(old(Cached()), lru.maxSize)
              then GoodVictim(old(window.table), old(Cached()), victim) && Cached() == old(Cached()) - {victim}
                && old(window.table).Keys - {victim} <= window.table.Keys && Dropped(old(lru.elemQueue), victim, lru.elemQueue)
              else lru.elemQueue == old(lru.elemQueue) && window.table == old(window.table)
    {
      DistinctCount(lru.elemQueue);
      victim := TEMPORARY_ID;
      var full := lru.IsFull();
      if full {
        var v, _ := Kick();
        assert v in Members(sorted);
        DropRecord(v);
        victim := v;
      }
    }

    /** optimal_cache_insert. */
    method Insert(id: ContainerId) returns (ghost victim: ContainerId)
      requires Valid() && id in window.table && id !in Cached()
      modifies this`sorted, lru, window`table
      ensures Valid() && lru.maxSize == old(lru.maxSize)
      ensures Cached() == After(old(Cached()), lru.maxSize, id, victim)
      ensures Full(old(Cached()), lru.maxSize) ==> GoodVictim(old(window.table), old(Cached()), victim)
      ensures lru.elemQueue != [] && lru.elemQueue[0] == id
      ensures if Full(old(Cached()), lru.maxSize) then Dropped(old(lru.elemQueue), victim, lru.elemQueue[1..])
              else lru.elemQueue[1..] == old(lru.elemQueue)
    {
      victim := MakeRoom();
      assert id !in Members(lru.elemQueue) && id !in Members(sorted);
      InsertedAt(lru.elemQueue, id, 0);
      assert [id] + lru.elemQueue == lru.elemQueue[..0] + [id] + lru.elemQueue[0..];
      lru.Insert(id);
      sorted := InsertSorted(sorted, id, Sooner(window.table));
    }

    /** optimal_cache_hits for a new record and, on a miss, optimal_cache_insert. */
    method Access(id: ContainerId) returns (missed: bool, ghost victim: ContainerId, ghost table: Table)
      requires Valid() && window.pos < |window.records| && window.records[window.pos] == id
      modifies this, window, window.reader, lru
      ensures Valid() && lru.maxSize == old(lru.maxSize) && window.pos == old(window.pos) + 1
      ensures missed == (id !in old(Cached())) && Cached() == After(old(Cached()), lru.maxSize, id, victim)
      ensures TableIs(table, window.records, window.pos, window.currentSequenceNumber)
      ensures missed && Full(old(Cached()), lru.maxSize) ==> GoodVictim(table, old(Cached()), victim)
      ensures lru.elemQueue != [] && lru.elemQueue[0] == id
      ensures if !missed || Full(old(Cached()), lru.maxSize)
              then Dropped(old(lru.elemQueue), if missed then victim else id, lru.elemQueue[1..])
              else lru.elemQueue[1..] == old(lru.elemQueue)
    {
      window.Slide(id);
      table := window.table;
      var hit := lru.Hits(ById(id));
      TouchMembers(old(lru.elemQueue), ById(id));
      HitIsCached(old(lru.elemQueue), id);
      missed, victim := hit.None?, id;
      if !missed { FrontDropped(old(lru.elemQueue), ById(id)); }
      if missed {
        victim := Insert(id);
      }
    }
  }

  /** A hit moves the container to the front and nothing else. */
  lemma FrontDropped(q: Ids, hit: ContainerId -> bool)
    requires Found(q, hit).Some?
    ensures var q', id := Touched(q, hit), Found(q, hit).value; q' != [] && q'[0] == id && Dropped(q, id, q'[1..])
  {
    var i := FirstHit(q, hit);
    assert ToFront(q, i)[1..] == q[..i] + q[i + 1..];
  }

  lemma HitIsCached(q: Ids, id: ContainerId)
    ensures Found(q, ById(id)).Some? <==> id in Members(q)
  {
    if id in q {
      var j :| 0 <= j < |q| && q[j] == id;
      assert ById(id)(q[j]);
    }
  }

  /** A good victim is one whose next use is farthest, as far as the window reaches. */
  lemma GoodIsFarthest(table: Table, trace: Ids, records: Ids, pos: nat, hi: nat, cache: set<ContainerId>, v: ContainerId)
    requires records == trace + [TEMPORARY_ID] && pos <= |trace| && TableIs(table, records, pos, hi)
    requires GoodVictim(table, cache, v) && TEMPORARY_ID !in cache
    ensures FarthestOf(cache, trace[pos..], v, (if hi <= |trace| then hi else |trace|) - pos)
  {
    var end := if hi <= |trace| then hi else |trace|;
    assert trace[pos..][..end - pos] == trace[pos..end];
    forall x | x in cache ensures NextUse(trace[pos..end], x) <= NextUse(trace[pos..end], v) {
      SoonerIsNearer(table, trace, records, pos, hi, end, x, v);
    }
  }

  lemma SoonerIsNearer(table: Table, trace: Ids, records: Ids, pos: nat, hi: nat, end: nat, x: ContainerId, v: ContainerId)
    requires records == trace + [TEMPORARY_ID] && pos <= |trace| && TableIs(table, records, pos, hi)
    requires end == (if hi <= |trace| then hi else |trace|) && Sooner(table)(x, v) && x != TEMPORARY_ID && v != TEMPORARY_ID
    ensures NextUse(trace[pos..end], x) <= NextUse(trace[pos..end], v)
  {
    PositionsAreNextUse(trace, records, x, pos, hi);
    PositionsAreNextUse(trace, records, v, pos, hi);
    SoonerIsLess(table, records, pos, hi, x, v);
  }

  lemma SoonerIsLess(table: Table, records: Ids, pos: nat, hi: nat, x: ContainerId, v: ContainerId)
    requires TableIs(table, records, pos, hi) && Sooner(table)(x, v)
    ensures var p, q := Positions(records, x, pos, hi), Positions(records, v, pos, hi);
      q == [] || (p != [] && p[0] <= q[0])
    ensures forall p :: p in Positions(records, x, pos, hi) ==> p < hi
  {
    assert Viewed(View(table, records, pos, hi));
    PositionsWithin(records, x, pos, hi);
  }

  lemma AfterHas(cache: set<ContainerId>, size: int, id: ContainerId, v: ContainerId)
    ensures id in After(cache, size, id, v) && After(cache, size, id, v) <= cache + {id}
  {}

  lemma GoodIsChoice(table: Table, trace: Ids, records: Ids, pos: nat, hi: nat, size: int, cache: set<ContainerId>,
                     v: ContainerId, far: bool, window: nat)
    requires records == trace + [TEMPORARY_ID] && pos < |trace| && TableIs(table, records, pos + 1, hi)
    requires TEMPORARY_ID !in cache
    requires trace[pos] !in cache && Full(cache, size) ==> GoodVictim(table, cache, v)
    requires far ==> hi == |trace| + 1
    requires hi == |trace| + 1 || 2 * (hi - (pos + 1)) + 1 >= window
    ensures Choice(size, trace, pos, cache, v, far, window)
  {
    if trace[pos] !in cache && Full(cache, size) {
      GoodIsFarthest(table, trace, records, pos + 1, hi, cache, v);
      var rest, l := trace[pos + 1..], (if hi <= |trace| then hi else |trace|) - (pos + 1);
      assert Foresees(window, rest, l);
      if far { assert rest[..l] == rest; }
    }
  }

  /** optimal_restore_thread. */
  class Restorer {
    const cache: OptimalCache
    var lastId: ContainerId
    var readContainerNum: nat
    ghost const trace: Ids
    ghost var victims: Ids

    ghost predicate Valid()
      reads this, cache, cache.window, cache.window.reader, cache.lru
    {
      && cache.Valid() && cache.window.records == trace + [TEMPORARY_ID] && cache.window.pos <= |trace|
      && TEMPORARY_ID !in trace && cache.Cached() <= Members(trace)
      && OnCourse(Now())
      && (if cache.window.pos == 0 then lastId == TEMPORARY_ID
          else lastId == trace[cache.window.pos - 1] && lastId in cache.Cached())
    }

    ghost function Now(): Progress
      reads this, cache, cache.window, cache.lru
    {
      Progress(cache.lru.maxSize, trace, cache.window.pos, victims, cache.Cached(), readContainerNum, Far(), cache.window.size)
    }

    /** The window holds the whole record file. */
    ghost predicate Far()
      reads this, cache, cache.window
    {
      cache.window.size > |trace|
    }

    constructor (windowSize: nat, maxSize: int, reader: RecordReader, ghost accesses: Ids)
      requires windowSize > 0 && maxSize != 0 && reader.Valid() && reader.left == accesses + [TEMPORARY_ID]
      requires TEMPORARY_ID !in accesses
      modifies reader
      ensures Valid() && trace == accesses && cache.window.pos == 0 && readContainerNum == 0
      ensures cache.lru.maxSize == maxSize && cache.window.size == windowSize && cache.window.reader == reader
      ensures fresh(cache) && fresh(cache.window) && fresh(cache.lru)
    {
      cache := new OptimalCache(windowSize, maxSize, reader);
      lastId, readContainerNum, trace, victims := TEMPORARY_ID, 0, accesses, [];
      new;
      ContinuesStart(maxSize, accesses, Far(), windowSize);
      assert OnCourse(Now());
    }

    /** The container is in the cache afterwards, read if it was not. */
    method Serve(id: ContainerId) returns (ghost victim: ContainerId)
      requires Valid() && cache.window.pos < |trace| && trace[cache.window.pos] == id
      modifies this`readContainerNum, cache, cache.window, cache.window.reader, cache.lru
      ensures cache.Valid() && cache.window.pos == old(cache.window.pos) + 1 && cache.lru.maxSize == old(cache.lru.maxSize)
      ensures cache.Cached() == After(old(cache.Cached()), cache.lru.maxSize, id, victim)
      ensures readContainerNum == old(readContainerNum) + (if id in old(cache.Cached()) then 0 else 1)
      ensures Choice(cache.lru.maxSize, trace, old(cache.window.pos), old(cache.Cached()), victim, Far(), cache.window.size)
    {
      ghost var pos, before := cache.window.pos, cache.Cached();
      assert cache.window.records[pos] == id;
      ghost var table;
      var missed;
      missed, victim, table := cache.Access(id);
      assert TableIs(table, cache.window.records, pos + 1, cache.window.currentSequenceNumber);
      assert Far() ==> cache.window.currentSequenceNumber == |trace| + 1;
      GoodIsChoice(table, trace, cache.window.records, pos, cache.window.currentSequenceNumber, cache.lru.maxSize,
                   before, victim, Far(), cache.window.size);
      if missed { readContainerNum := readContainerNum + 1; }
    }

    /** Only containers of the record file are ever cached. */
    lemma CachedWasRead(id: ContainerId)
      requires Valid() && id in cache.Cached()
      ensures id in trace
    {}

    method NewRecord(id: ContainerId)
      requires Valid() && cache.window.pos < |trace| && trace[cache.window.pos] == id
      modifies this, cache, cache.window, cache.window.reader, cache.lru
      ensures Valid() && cache.window.pos == old(cache.window.pos) + 1 && cache.lru.maxSize == old(cache.lru.maxSize)
      ensures lastId == id
    {
      ghost var before := Now();
      ghost var victim := Serve(id);
      OnCourseOn(before, victim);
      AfterHas(old(cache.Cached()), cache.lru.maxSize, id, victim);
      lastId, victims := id, victims + [victim];
      assert OnCourse(Now());
    }

    /** A chunk of the stream: a new record unless its container is the last one; then the chunk is looked
        up by fingerprint, which may bring any container that holds it to the front, and is served from there. */
    method Chunk(c: ChunkRef) returns (served: ContainerId)
      requires Valid() && c.id in c.holders
      requires c.id == lastId || (cache.window.pos < |trace| && trace[cache.window.pos] == c.id)
      requires c.id != TEMPORARY_ID
      modifies this, cache, cache.window, cache.window.reader, cache.lru
      ensures Valid() && lastId == c.id && cache.lru.maxSize == old(cache.lru.maxSize)
      ensures served in c.holders && served in cache.Cached() && cache.lru.elemQueue[0] == served
      ensures cache.window.pos == old(cache.window.pos) + (if c.id == old(lastId) then 0 else 1)
    {
      if lastId != c.id {
        NewRecord(c.id);
      } else {
        var _ := Again(c.id, {c.id});
      }
      served := Again(c.id, c.holders);
    }

    /** A lookup that hits: only the LRU queue moves. */
    method Again(id: ContainerId, holders: set<ContainerId>) returns (served: ContainerId)
      requires Valid() && id in cache.Cached() && id in holders
      modifies cache.lru
      ensures Valid() && cache.Cached() == old(cache.Cached()) && cache.lru.maxSize == old(cache.lru.maxSize)
      ensures served in holders && served in cache.Cached()
      ensures cache.lru.elemQueue != [] && cache.lru.elemQueue[0] == served
      ensures Dropped(old(cache.lru.elemQueue), served, cache.lru.elemQueue[1..])
    {
      var hit := In(holders);
      FoundIn(cache.lru.elemQueue, id, holders);
      TouchMembers(cache.lru.elemQueue, hit);
      FrontDropped(cache.lru.elemQueue, hit);
      var found := cache.lru.Lookup(hit);
      served := found.value;
      assert OnCourse(Now());
    }
  }

  lemma FoundIn(q: Ids, id: ContainerId, holders: set<ContainerId>)
    requires id in q && id in holders
    ensures var r := Found(q, In(holders)); r.Some? && r.value in holders && r.value in Members(q)
  {
    var j :| 0 <= j < |q| && q[j] == id;
    assert In(holders)(q[j]);
  }

  // ---- the whole restore

  function IdsOf(chunks: seq<ChunkRef>): Ids {
    seq(|chunks|, i requires 0 <= i < |chunks| => chunks[i].id)
  }

  lemma {:induction false} SqueezedPrefix(a: Ids, b: Ids)
    ensures Squeezed(a) <= Squeezed(a + b)
    decreases |b|
  {
    if b == [] {
      assert a + b == a;
    } else {
      var n := |b| - 1;
      SqueezedPrefix(a, b[..n]);
      SqueezedSnoc(a + b[..n], b[n]);
      assert a + b[..n] + [b[n]] == a + b;
    }
  }

  lemma NextRecord(ids: Ids, i: nat)
    requires i < |ids|
    ensures var done := Squeezed(ids[..i]);
      if i > 0 && ids[i - 1] == ids[i] then Squeezed(ids[..i + 1]) == done
      else |done| < |Squeezed(ids)| && Squeezed(ids)[|done|] == ids[i] && |Squeezed(ids[..i + 1])| == |done| + 1
  {
    assert ids[..i + 1] == ids[..i] + [ids[i]];
    SqueezedSnoc(ids[..i], ids[i]);
    SqueezedPrefix(ids[..i + 1], ids[i + 1..]);
    assert ids[..i + 1] + ids[i + 1..] == ids;
  }

  lemma {:induction false} SqueezedMembers(ids: Ids)
    ensures forall x :: x in Squeezed(ids) ==> x in ids
  {
    if |ids| > 1 { SqueezedMembers(ids[1..]); }
  }

  /** Each chunk comes from a container that holds it and that the record file names. */
  predicate AllServed(chunks: seq<ChunkRef>, served: Ids, ids: Ids) {
    |served| <= |chunks| && forall i :: 0 <= i < |served| ==> served[i] in chunks[i].holders && served[i] in ids
  }

  lemma ServedSnoc(chunks: seq<ChunkRef>, served: Ids, ids: Ids, id: ContainerId)
    requires AllServed(chunks, served, ids) && |served| < |chunks| && id in chunks[|served|].holders && id in ids
    ensures AllServed(chunks, served + [id], ids)
  {}

  /** The first i chunks have been consumed. */
  ghost predicate Consumed(r: Restorer, ids: Ids, i: nat)
    requires i <= |ids|
    reads r, r.cache, r.cache.window
  {
    && r.cache.window.pos == |Squeezed(ids[..i])|
    && r.lastId == if i == 0 then TEMPORARY_ID else ids[i - 1]
  }

  method ConsumeNext(r: Restorer, c: ChunkRef, ghost ids: Ids, ghost i: nat) returns (from: ContainerId)
    requires r.Valid() && i < |ids| && r.trace == Squeezed(ids) && Consumed(r, ids, i)
    requires ids[i] == c.id && c.id in c.holders && c.id != TEMPORARY_ID
    modifies r, r.cache, r.cache.window, r.cache.window.reader, r.cache.lru
    ensures r.Valid() && r.cache.lru.maxSize == old(r.cache.lru.maxSize) && Consumed(r, ids, i + 1)
    ensures from in c.holders && from in r.trace
  {
    NextRecord(ids, i);
    from := r.Chunk(c);
    r.CachedWasRead(from);
  }

  /** The chunks of a backup, one after the other. */
  method Consume(r: Restorer, chunks: seq<ChunkRef>) returns (served: Ids)
    requires r.Valid() && r.cache.window.pos == 0 && r.trace == Squeezed(IdsOf(chunks))
    requires forall i :: 0 <= i < |chunks| ==> chunks[i].id in chunks[i].holders && chunks[i].id != TEMPORARY_ID
    modifies r, r.cache, r.cache.window, r.cache.window.reader, r.cache.lru
    ensures r.Valid() && r.cache.window.pos == |r.trace| && r.cache.lru.maxSize == old(r.cache.lru.maxSize)
    ensures |served| == |chunks| && AllServed(chunks, served, r.trace)
  {
    ghost var ids := IdsOf(chunks);
    served := [];
    var i := 0;
    while i < |chunks|
      invariant 0 <= i <= |chunks| && r.Valid() && r.cache.lru.maxSize == old(r.cache.lru.maxSize)
      invariant Consumed(r, ids, i) && |served| == i && AllServed(chunks, served, r.trace)
    {
      var from := ConsumeNext(r, chunks[i], ids, i);
      ServedSnoc(chunks, served, r.trace, from);
      served := served + [from];
      i := i + 1;
    }
    assert ids[..i] == ids;
  }

  /** No demand-paging schedule of that size reads less. */
  ghost predicate Optimal(size: int, trace: Ids, loads: nat) {
    forall any {:trigger Schedule({}, size, trace, any)} :: Schedule({}, size, trace, any) ==> loads <= Reads({}, size, trace, any)
  }

  lemma FarthestMeansOptimal(size: int, trace: Ids, victims: Ids)
    requires size != 0 && Farthest({}, size, trace, victims)
    ensures Optimal(size, trace, Reads({}, size, trace, victims))
  {
    forall any {:trigger Schedule({}, size, trace, any)} | Schedule({}, size, trace, any)
      ensures Reads({}, size, trace, victims) <= Reads({}, size, trace, any)
    {
      FarthestIsOptimal({}, size, trace, victims, any);
    }
  }

  /** Restoring a backup with its record file. The reads are those of a demand-paging schedule on the record file
      whose victims are farthest as far as the window sees; with the whole file in it no schedule of the same cache
      size reads less. */
  method OptimalRestoreThread(chunks: seq<ChunkRef>, windowSize: nat, maxSize: int, reader: RecordReader)
    returns (readContainerNum: nat, served: Ids, ghost victims: Ids)
    requires windowSize > 0 && maxSize != 0
    requires forall i :: 0 <= i < |chunks| ==> chunks[i].id in chunks[i].holders && chunks[i].id >= 0
    requires reader.Valid() && reader.left == Runs(IdsOf(chunks)) + [TEMPORARY_ID]
    modifies reader
    ensures |served| == |chunks| && AllServed(chunks, served, Runs(IdsOf(chunks)))
    ensures Schedule({}, maxSize, Runs(IdsOf(chunks)), victims)
    ensures readContainerNum == Reads({}, maxSize, Runs(IdsOf(chunks)), victims)
    ensures Foresighted(windowSize, {}, maxSize, Runs(IdsOf(chunks)), victims)
    ensures windowSize > |Runs(IdsOf(chunks))| ==> Optimal(maxSize, Runs(IdsOf(chunks)), readContainerNum)
  {
    ghost var trace := Runs(IdsOf(chunks));
    RunsAreSqueezed(IdsOf(chunks));
    SqueezedMembers(IdsOf(chunks));
    var r := new Restorer(windowSize, maxSize, reader, trace);
    served := Consume(r, chunks);
    readContainerNum, victims := r.readContainerNum, r.victims;
    ContinuesEnd(maxSize, trace, victims, r.cache.Cached(), readContainerNum, r.Far(), windowSize);
    if windowSize > |trace| { FarthestMeansOptimal(maxSize, trace, victims); }
  }
}
