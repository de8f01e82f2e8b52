/** lru_cache.c, and the keyed trace that restore_aware.c runs through it. */
module Lru {
  import opened Common

  /** The first element, newest first, that satisfies hit; |q| when there is none. */
  function FirstHit<T>(q: seq<T>, hit: T -> bool): (i: nat)
    ensures i <= |q| && (i < |q| ==> hit(q[i]))
    ensures forall j :: 0 <= j < i ==> !hit(q[j])
  {
    if q == [] || hit(q[0]) then 0 else 1 + FirstHit(q[1..], hit)
  }

  /** The first element, oldest first, that satisfies hit; |q| when there is none. */
  function LastHit<T>(q: seq<T>, hit: T -> bool): (i: nat)
    ensures i <= |q| && (i < |q| ==> hit(q[i]) && forall j :: i < j < |q| ==> !hit(q[j]))
    ensures i == |q| ==> forall j :: 0 <= j < |q| ==> !hit(q[j])
  {
    if q == [] then 0
    else
      var n := |q| - 1;
      if hit(q[n]) then n
      else
        var i := LastHit(q[..n], hit);
        if i < n then i else n + 1
  }

  function ToFront<T>(q: seq<T>, i: nat): seq<T>
    requires i < |q|
  {
    [q[i]] + q[..i] + q[i + 1..]
  }

  function Touched<T>(q: seq<T>, hit: T -> bool): seq<T> {
    var i := FirstHit(q, hit);
    if i < |q| then ToFront(q, i) else q
  }

  function Found<T>(q: seq<T>, hit: T -> bool): Option<T> {
    var i := FirstHit(q, hit);
    if i < |q| then Some(q[i]) else None
  }

  /** Prepends x, dropping the oldest element of a full cache. A non-positive size means no limit. */
  function Inserted<T>(q: seq<T>, maxSize: int, x: T): seq<T> {
    [x] + (if maxSize > 0 && |q| == maxSize then q[..|q| - 1] else q)
  }

  function Without<T>(q: seq<T>, i: nat): seq<T> {
    if i < |q| then q[..i] + q[i + 1..] else q
  }

  class LruCache<T> {
    var elemQueue: seq<T>
    var maxSize: int
    var size: nat
    var hitCount: nat
    var missCount: nat

    ghost predicate Valid()
      reads this
    {
      size == |elemQueue| && (maxSize > 0 ==> size <= maxSize)
    }

    constructor (max: int)
      ensures Valid() && elemQueue == [] && maxSize == max && hitCount == missCount == 0
    {
      elemQueue, maxSize, size, hitCount, missCount := [], max, 0, 0, 0;
    }

    method Scan(hit: T -> bool) returns (i: nat)
      ensures i == FirstHit(elemQueue, hit)
    {
      i := 0;
      while i < |elemQueue|
        invariant i <= |elemQueue|
        invariant FirstHit(elemQueue, hit) == i + FirstHit(elemQueue[i..], hit)
      {
        if hit(elemQueue[i]) { break; }
        i := i + 1;
      }
    }

    method Lookup(hit: T -> bool) returns (r: Option<T>)
      requires Valid()
      modifies this
      ensures Valid() && maxSize == old(maxSize)
      ensures elemQueue == Touched(old(elemQueue), hit) && r == Found(old(elemQueue), hit)
      ensures hitCount == old(hitCount) + (if r.Some? then 1 else 0)
      ensures missCount == old(missCount) + (if r.None? then 1 else 0)
    {
      var i := Scan(hit);
      if i < |elemQueue| {
        r := Some(elemQueue[i]);
        elemQueue := ToFront(elemQueue, i);
        hitCount := hitCount + 1;
      } else {
        r := None;
        missCount := missCount + 1;
      }
    }

    /** An empty cache of the same size. */
    method Clear()
      modifies this`elemQueue, this`size
      ensures Valid() && elemQueue == []
    {
      elemQueue, size := [], 0;
    }

    method LookupWithoutUpdate(hit: T -> bool) returns (r: Option<T>)
      ensures r == Found(elemQueue, hit)
    {
      var i := Scan(hit);
      r := if i < |elemQueue| then Some(elemQueue[i]) else None;
    }

    method Hits(hit: T -> bool) returns (r: Option<T>)
      requires Valid()
      modifies this`elemQueue
      ensures Valid()
      ensures elemQueue == Touched(old(elemQueue), hit) && r == Found(old(elemQueue), hit)
    {
      var i := Scan(hit);
      if i < |elemQueue| {
        r := Some(elemQueue[i]);
        elemQueue := ToFront(elemQueue, i);
      } else {
        r := None;
      }
    }

    method Insert(data: T)
      requires Valid()
      modifies this`elemQueue, this`size
      ensures Valid() && elemQueue == Inserted(old(elemQueue), maxSize, data)
    {
      if maxSize > 0 && size == maxSize {
        elemQueue := elemQueue[..|elemQueue| - 1];
        size := size - 1;
      }
      elemQueue := [data] + elemQueue;
      size := size + 1;
    }

    /** Removes the oldest element that satisfies func, if any does. */
    method Kicks(func: T -> bool) returns (victim: Option<T>)
      requires Valid()
      modifies this`elemQueue, this`size
      ensures Valid()
      ensures var i := LastHit(old(elemQueue), func);
        elemQueue == Without(old(elemQueue), i)
        && victim == (if i < |old(elemQueue)| then Some(old(elemQueue)[i]) else None)
    {
      var i := |elemQueue|;
      while i > 0
        invariant 0 <= i <= |elemQueue|
        invariant forall j :: i <= j < |elemQueue| ==> !func(elemQueue[j])
        invariant elemQueue == old(elemQueue) && size == old(size)
      {
        i := i - 1;
        if func(elemQueue[i]) {
          victim := Some(elemQueue[i]);
          elemQueue := elemQueue[..i] + elemQueue[i + 1..];
          size := size - 1;
          return;
        }
      }
      victim := None;
    }

    method IsFull() returns (full: bool)
      requires Valid()
      ensures full <==> maxSize >= 0 && |elemQueue| >= maxSize
    {
      full := maxSize >= 0 && size >= maxSize;
    }
  }

  // ---- the keyed trace

  function ById(id: ContainerId): ContainerId -> bool {
    x => x == id
  }

  lemma HitsById(q: seq<ContainerId>, id: ContainerId)
    ensures Found(q, ById(id)).Some? <==> id in q
  {
    if id in q {
      var j :| 0 <= j < |q| && q[j] == id;
      assert ById(id)(q[j]);
    }
  }

  /** One access of restore_aware_update: a lookup by id, then an insertion on a miss. */
  function Accessed(q: seq<ContainerId>, maxSize: int, id: ContainerId): seq<ContainerId> {
    if id in q then Touched(q, ById(id)) else Inserted(q, maxSize, id)
  }

  function AfterTrace(maxSize: int, trace: seq<ContainerId>): seq<ContainerId> {
    if trace == [] then []
    else Accessed(AfterTrace(maxSize, trace[..|trace| - 1]), maxSize, trace[|trace| - 1])
  }

  function Misses(maxSize: int, trace: seq<ContainerId>): nat {
    if trace == [] then 0
    else
      var before := trace[..|trace| - 1];
      Misses(maxSize, before)
        + (if trace[|trace| - 1] in AfterTrace(maxSize, before) then 0 else 1)
  }

  function Removed(q: seq<ContainerId>, id: ContainerId): seq<ContainerId> {
    if q == [] then [] else if q[0] == id then Removed(q[1..], id) else [q[0]] + Removed(q[1..], id)
  }

  /** The distinct ids of the trace, most recently used first: no cache in sight. */
  function Recency(trace: seq<ContainerId>): seq<ContainerId> {
    if trace == [] then []
    else
      var id := trace[|trace| - 1];
      [id] + Removed(Recency(trace[..|trace| - 1]), id)
  }

  function Newest(q: seq<ContainerId>, n: int): seq<ContainerId> {
    if 0 < n < |q| then q[..n] else q
  }

  predicate NoDup(q: seq<ContainerId>) {
    forall i, j :: 0 <= i < j < |q| ==> q[i] != q[j]
  }

  lemma {:induction false} RemovedFacts(q: seq<ContainerId>, id: ContainerId)
    ensures forall x :: x in Removed(q, id) <==> x in q && x != id
    ensures NoDup(q) ==> NoDup(Removed(q, id))
    ensures id !in q ==> Removed(q, id) == q
  {
    if q != [] {
      RemovedFacts(q[1..], id);
      if NoDup(q) {
        assert q[0] !in q[1..];
        assert q[0] !in Removed(q[1..], id);
      }
    }
  }

  lemma {:induction false} RemovedAt(q: seq<ContainerId>, i: nat)
    requires NoDup(q) && i < |q|
    ensures Removed(q, q[i]) == q[..i] + q[i + 1..]
  {
    if i == 0 {
      RemovedFacts(q[1..], q[0]);
    } else {
      RemovedAt(q[1..], i - 1);
      assert q[1..][..i - 1] == q[1..i] && q[..i] == [q[0]] + q[1..i];
    }
  }

  lemma {:induction false} RecencyNoDup(trace: seq<ContainerId>)
    ensures NoDup(Recency(trace))
  {
    if trace != [] {
      RecencyNoDup(trace[..|trace| - 1]);
      RemovedFacts(Recency(trace[..|trace| - 1]), trace[|trace| - 1]);
    }
  }

  /** The stack theorem: after any trace the list is exactly the maxSize most recent distinct ids,
      newest first (all of them when the size is not positive). */
  lemma {:induction false} StackTheorem(maxSize: int, trace: seq<ContainerId>)
    ensures AfterTrace(maxSize, trace) == Newest(Recency(trace), maxSize)
  {
    if trace != [] {
      var before, id := trace[..|trace| - 1], trace[|trace| - 1];
      StackTheorem(maxSize, before);
      RecencyNoDup(before);
      OneAccess(Recency(before), maxSize, id);
    }
  }

  lemma TouchedAt(q: seq<ContainerId>, i: nat, id: ContainerId)
    requires NoDup(q) && i < |q| && q[i] == id
    ensures Touched(q, ById(id)) == [id] + (q[..i] + q[i + 1..])
  {
    var k := FirstHit(q, ById(id));
    assert ById(id)(q[i]);
    assert k == i;
  }

  lemma HitInPrefix(r: seq<ContainerId>, n: int, i: nat)
    requires i < |Newest(r, n)|
    ensures var q := Newest(r, n);
      [r[i]] + (q[..i] + q[i + 1..]) == Newest([r[i]] + (r[..i] + r[i + 1..]), n)
  {}

  lemma MissBeyondPrefix(r: seq<ContainerId>, n: int, i: nat, id: ContainerId)
    requires |Newest(r, n)| <= i
    ensures Inserted(Newest(r, n), n, id) == Newest([id] + (if i < |r| then r[..i] + r[i + 1..] else r), n)
  {}

  lemma OneAccess(r: seq<ContainerId>, n: int, id: ContainerId)
    requires NoDup(r)
    ensures Accessed(Newest(r, n), n, id) == Newest([id] + Removed(r, id), n)
  {
    var q := Newest(r, n);
    if id in r {
      var i :| 0 <= i < |r| && r[i] == id;
      RemovedAt(r, i);
      if i < |q| {
        TouchedAt(q, i, id);
        HitInPrefix(r, n, i);
      } else {
        assert id !in q;
        MissBeyondPrefix(r, n, i, id);
      }
    } else {
      RemovedFacts(r, id);
      assert id !in q;
      MissBeyondPrefix(r, n, |r|, id);
    }
  }

  /** Inclusion: a smaller cache holds a prefix of what a larger one holds. */
  lemma Inclusion(small: int, large: int, trace: seq<ContainerId>)
    requires 0 < small && (large <= 0 || small <= large)
    ensures AfterTrace(small, trace) <= AfterTrace(large, trace)
  {
    StackTheorem(small, trace);
    StackTheorem(large, trace);
  }

  /** No Belady anomaly: the miss count never grows with the cache. */
  lemma {:induction false} MissesMonotone(small: int, large: int, trace: seq<ContainerId>)
    requires 0 < small && (large <= 0 || small <= large)
    ensures Misses(large, trace) <= Misses(small, trace)
  {
    if trace != [] {
      MissesMonotone(small, large, trace[..|trace| - 1]);
      Inclusion(small, large, trace[..|trace| - 1]);
    }
  }

  /** The monitor of restore_aware.c. */
  class RestoreAware {
    var totalSize: nat
    var ocf: nat
    var ccf: nat
    var cfl: real
    const cache: LruCache<ContainerId>
    ghost var trace: seq<ContainerId>

    ghost predicate Valid()
      reads this, cache
    {
      && cache.Valid()
      && cache.elemQueue == AfterTrace(cache.maxSize, trace)
      && ccf == Misses(cache.maxSize, trace)
      && (trace != [] ==> ccf > 0)
    }

    constructor (size: int)
      ensures Valid() && trace == [] && cache.maxSize == size && fresh(cache)
    {
      totalSize, ocf, ccf, cfl, trace := 0, 0, 0, 0.0, [];
      cache := new LruCache(size);
    }

    method Update(id: ContainerId, chunkLen: nat)
      requires Valid()
      modifies this, cache
      ensures Valid() && trace == old(trace) + [id] && cache.maxSize == old(cache.maxSize)
      ensures totalSize == old(totalSize) + chunkLen + CONTAINER_META_ENTRY
      ensures ocf == (totalSize + CONTAINER_SIZE - 1) / CONTAINER_SIZE && cfl == ocf as real / ccf as real
    {
      totalSize := totalSize + chunkLen + CONTAINER_META_ENTRY;
      ghost var q := cache.elemQueue;
      var hit := ById(id);
      var record := cache.Lookup(hit);
      HitsById(q, id);
      if record.None? {
        cache.Insert(id);
        ccf := ccf + 1;
      }
      trace := trace + [id];
      assert trace[..|trace| - 1] == old(trace);
      FirstAccessMisses(cache.maxSize, trace);
      ocf := (totalSize + CONTAINER_SIZE - 1) / CONTAINER_SIZE;
      cfl := ocf as real / ccf as real;
    }

    method Contains(id: ContainerId) returns (b: bool)
      requires Valid()
      ensures b <==> id in Newest(Recency(trace), cache.maxSize)
    {
      var hit := ById(id);
      var r := cache.LookupWithoutUpdate(hit);
      b := r.Some?;
      StackTheorem(cache.maxSize, trace);
      if id in cache.elemQueue {
        var j :| 0 <= j < |cache.elemQueue| && cache.elemQueue[j] == id;
        assert hit(cache.elemQueue[j]);
      }
    }
  }

  lemma {:induction false} FirstAccessMisses(maxSize: int, trace: seq<ContainerId>)
    requires trace != []
    ensures Misses(maxSize, trace) > 0
  {
    if |trace| > 1 { FirstAccessMisses(maxSize, trace[..|trace| - 1]); }
  }
}
