/** Demand paging of containers, and why evicting the container whose next access is farthest is best. */
module Belady {
  import opened Common

  type Ids = seq<ContainerId>

  /** A cache of this size is full; a negative size means no limit. */
  predicate Full(cache: set<ContainerId>, size: int) {
    size >= 0 && |cache| >= size
  }

  /** The cache after an access; victim matters only when the cache is full and misses. */
  function After(cache: set<ContainerId>, size: int, id: ContainerId, victim: ContainerId): set<ContainerId> {
    if id in cache then cache
    else if Full(cache, size) then cache - {victim} + {id}
    else cache + {id}
  }

  /** A demand-paging schedule: it evicts a cached container, and only for a miss in a full cache. */
  predicate Schedule(cache: set<ContainerId>, size: int, trace: Ids, victims: Ids)
    decreases |trace|
  {
    |victims| == |trace| &&
    (trace == [] ||
      ((trace[0] in cache || !Full(cache, size) || victims[0] in cache)
       && Schedule(After(cache, size, trace[0], victims[0]), size, trace[1..], victims[1..])))
  }

  /** Container reads. */
  function Reads(cache: set<ContainerId>, size: int, trace: Ids, victims: Ids): nat
    requires |victims| == |trace|
    decreases |trace|
  {
    if trace == [] then 0
    else (if trace[0] in cache then 0 else 1)
         + Reads(After(cache, size, trace[0], victims[0]), size, trace[1..], victims[1..])
  }

  /** How many accesses before the next one of id; the length of the trace when there is none. */
  function NextUse(trace: Ids, id: ContainerId): (n: nat)
    ensures n <= |trace|
  {
    if trace == [] || trace[0] == id then 0 else 1 + NextUse(trace[1..], id)
  }

  /** Every victim is a cached container whose next access is farthest away. */
  predicate Farthest(cache: set<ContainerId>, size: int, trace: Ids, victims: Ids)
    decreases |trace|
  {
    |victims| == |trace| &&
    (trace == [] ||
      ((trace[0] in cache || !Full(cache, size)
        || (victims[0] in cache && forall x :: x in cache ==> NextUse(trace[1..], x) <= NextUse(trace[1..], victims[0])))
       && Farthest(After(cache, size, trace[0], victims[0]), size, trace[1..], victims[1..])))
  }

  /** The cache base + {y} is full and misses id: evicting y leaves base + {id}. */
  lemma EvictLast(base: set<ContainerId>, y: ContainerId, size: int, id: ContainerId)
    requires y !in base && |base| + 1 == size && id !in base && id != y
    ensures id !in base + {y} && Full(base + {y}, size) && y in base + {y}
    ensures After(base + {y}, size, id, y) == base + {id}
  {
    assert base + {y} - {y} + {id} == base + {id};
  }

  /** The same, evicting v from base instead. */
  lemma EvictInner(base: set<ContainerId>, y: ContainerId, size: int, id: ContainerId, v: ContainerId)
    requires y !in base && |base| + 1 == size && id !in base && id != y && v in base
    ensures id !in base + {y} && Full(base + {y}, size) && v in base + {y}
    ensures var b := base - {v} + {id};
      After(base + {y}, size, id, v) == b + {y} && y !in b && v !in b && |b| == |base|
  {
    assert base + {y} - {v} + {id} == base - {v} + {id} + {y};
    assert |base - {v}| == |base| - 1;
  }

  /** Having z instead of y costs at most one read more. */
  lemma {:induction false} OneOff(base: set<ContainerId>, y: ContainerId, z: ContainerId, size: int, trace: Ids, victims: Ids)
    returns (mine: Ids)
    requires y !in base && z !in base && y != z && |base| + 1 == size
    requires Schedule(base + {y}, size, trace, victims)
    ensures Schedule(base + {z}, size, trace, mine)
    ensures Reads(base + {z}, size, trace, mine) <= 1 + Reads(base + {y}, size, trace, victims)
    decreases |trace|
  {
    if trace == [] { return []; }
    var id, v, rest := trace[0], victims[0], trace[1..];
    var tail: Ids;
    if id in base {
      tail := OneOff(base, y, z, size, rest, victims[1..]);
      mine := [v] + tail;
    } else if id == y || v == y {
      mine := OneOffMeets(base, y, z, size, trace, victims);
    } else {
      EvictInner(base, y, size, id, v);
      if id == z {
        tail := OneOff(base - {v} + {z}, y, v, size, rest, victims[1..]);
        assert base + {z} == base - {v} + {z} + {v};
      } else {
        EvictInner(base, z, size, id, v);
        tail := OneOff(base - {v} + {id}, y, z, size, rest, victims[1..]);
      }
      mine := [v] + tail;
    }
  }

  /** The one read that may be more: evicting z makes the two caches the same. */
  lemma OneOffMeets(base: set<ContainerId>, y: ContainerId, z: ContainerId, size: int, trace: Ids, victims: Ids)
    returns (mine: Ids)
    requires y !in base && z !in base && y != z && |base| + 1 == size
    requires Schedule(base + {y}, size, trace, victims) && trace != [] && trace[0] !in base
    requires trace[0] == y || victims[0] == y
    ensures Schedule(base + {z}, size, trace, mine)
    ensures Reads(base + {z}, size, trace, mine) <= 1 + Reads(base + {y}, size, trace, victims)
  {
    var id := trace[0];
    if id == y {
      EvictLast(base, z, size, y);
    } else {
      EvictLast(base, y, size, id);
      if id != z { EvictLast(base, z, size, id); }
    }
    mine := [z] + victims[1..];
  }

  /** Having the container that is needed sooner is never worse. */
  lemma {:induction false} SoonerIsBetter(base: set<ContainerId>, x: ContainerId, y: ContainerId, size: int, trace: Ids, victims: Ids)
    returns (mine: Ids)
    requires x !in base && y !in base && x != y && |base| + 1 == size
    requires NextUse(trace, x) <= NextUse(trace, y)
    requires Schedule(base + {y}, size, trace, victims)
    ensures Schedule(base + {x}, size, trace, mine)
    ensures Reads(base + {x}, size, trace, mine) <= Reads(base + {y}, size, trace, victims)
    decreases |trace|
  {
    if trace == [] { return []; }
    var id, v, rest := trace[0], victims[0], trace[1..];
    var tail: Ids;
    if id in base {
      tail := SoonerIsBetter(base, x, y, size, rest, victims[1..]);
      mine := [v] + tail;
    } else if v == y {
      EvictLast(base, y, size, id);
      if id != x { EvictLast(base, x, size, id); }
      mine := [x] + victims[1..];
    } else {
      EvictInner(base, y, size, id, v);
      if id == x {
        tail := OneOff(base - {v} + {x}, y, v, size, rest, victims[1..]);
        assert base + {x} == base - {v} + {x} + {v};
      } else {
        EvictInner(base, x, size, id, v);
        tail := SoonerIsBetter(base - {v} + {id}, x, y, size, rest, victims[1..]);
      }
      mine := [v] + tail;
    }
  }

  /** Belady's theorem: evicting a container whose next access is farthest reads no more containers than
      any other demand-paging schedule from the same cache. */
  lemma {:induction false} FarthestIsOptimal(cache: set<ContainerId>, size: int, trace: Ids, far: Ids, any: Ids)
    requires size < 0 || (0 < size && |cache| <= size)
    requires Farthest(cache, size, trace, far) && Schedule(cache, size, trace, any)
    ensures Reads(cache, size, trace, far) <= Reads(cache, size, trace, any)
    decreases |trace|
  {
    if trace != [] {
      var id, w, v, rest := trace[0], far[0], any[0], trace[1..];
      if id in cache || !Full(cache, size) || v == w {
        FarthestIsOptimal(After(cache, size, id, w), size, rest, far[1..], any[1..]);
      } else {
        var base := cache - {v, w} + {id};
        assert cache - {w} + {id} == base + {v} && cache - {v} + {id} == base + {w};
        var mine := SoonerIsBetter(base, v, w, size, rest, any[1..]);
        FarthestIsOptimal(base + {v}, size, rest, far[1..], mine);
      }
    }
  }
}
