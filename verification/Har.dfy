/** har_rewrite.c: container utilization, and the trimmed list of sparse containers. */
module Har {
  import opened Common
  import opened GSequence

  type Sizes = map<ContainerId, nat>
  type Accesses = seq<(ContainerId, nat)>

  predicate Accessed(accesses: Accesses, id: ContainerId) {
    accesses != [] && (accesses[0].0 == id || Accessed(accesses[1..], id))
  }

  /** The bytes of the accesses to one container. */
  function SizeOf(accesses: Accesses, id: ContainerId): nat {
    if accesses == [] then 0
    else SizeOf(accesses[1..], id) + (if accesses[0].0 == id then accesses[0].1 else 0)
  }

  lemma {:induction false} OneMoreAccess(accesses: Accesses, a: (ContainerId, nat), id: ContainerId)
    ensures SizeOf(accesses + [a], id) == SizeOf(accesses, id) + (if a.0 == id then a.1 else 0)
    ensures Accessed(accesses + [a], id) <==> Accessed(accesses, id) || a.0 == id
  {
    if accesses == [] {
      assert accesses + [a] == [a];
    } else {
      assert (accesses + [a])[1..] == accesses[1..] + [a];
      OneMoreAccess(accesses[1..], a, id);
    }
  }

  lemma {:induction false} NotAccessedIsZero(accesses: Accesses, id: ContainerId)
    requires !Accessed(accesses, id)
    ensures SizeOf(accesses, id) == 0
  {
    if accesses != [] { NotAccessedIsZero(accesses[1..], id); }
  }

  /** container_utilization_monitor. */
  class Monitor {
    var records: Sizes
    ghost var accesses: Accesses

    /** One record per container accessed, with the bytes accessed in it. */
    ghost predicate Valid()
      reads this
    {
      forall id :: (id in records <==> Accessed(accesses, id)) && (id in records ==> records[id] == SizeOf(accesses, id))
    }

    constructor ()
      ensures Valid() && accesses == []
    {
      records, accesses := map[], [];
    }

    /** har_monitor_update. */
    method Update(id: ContainerId, size: nat)
      requires Valid()
      modifies this
      ensures Valid() && accesses == old(accesses) + [(id, size)]
    {
      if id !in records { NotAccessedIsZero(accesses, id); }
      forall x
        ensures SizeOf(accesses + [(id, size)], x) == SizeOf(accesses, x) + (if id == x then size else 0)
        ensures Accessed(accesses + [(id, size)], x) <==> Accessed(accesses, x) || id == x
      {
        OneMoreAccess(accesses, (id, size), x);
      }
      records := records[id := (if id in records then records[id] else 0) + size];
      accesses := accesses + [(id, size)];
    }
  }

  // ---- trimming

  function SizeIn(m: Sizes, id: ContainerId): nat {
    if id in m then m[id] else 0
  }

  function Sum(m: Sizes, s: seq<ContainerId>): nat {
    if s == [] then 0 else Sum(m, s[..|s| - 1]) + SizeIn(m, s[|s| - 1])
  }

  lemma {:induction false} SumWithout(m: Sizes, s: seq<ContainerId>, i: nat)
    requires i < |s|
    ensures Sum(m, s) == Sum(m, s[..i] + s[i + 1..]) + SizeIn(m, s[i])
  {
    var n := |s| - 1;
    var r := s[..i] + s[i + 1..];
    if i < n {
      SumWithout(m, s[..n], i);
      assert r[..|r| - 1] == s[..n][..i] + s[..n][i + 1..] && r[|r| - 1] == s[n];
    } else {
      assert r == s[..n];
    }
  }

  /** g_record_cmp. */
  function Smaller(m: Sizes): (ContainerId, ContainerId) -> bool {
    (a: ContainerId, b: ContainerId) => SizeIn(m, a) <= SizeIn(m, b)
  }

  lemma Fewer(s: seq<ContainerId>, t: seq<ContainerId>)
    requires Distinct(s) && Distinct(t) && Members(t) <= Members(s)
    ensures |t| <= |s|
  {
    DistinctCount(s);
    DistinctCount(t);
    assert Members(s) == Members(t) + (Members(s) - Members(t));
  }

  lemma AllButLast(s: seq<ContainerId>)
    requires Distinct(s) && s != []
    ensures Distinct(s[..|s| - 1]) && Members(s[..|s| - 1]) == Members(s) - {s[|s| - 1]}
  {
    DroppedAt(s, |s| - 1);
    assert s[..|s| - 1] + s[|s|..] == s[..|s| - 1];
  }

  /** Of all choices of k containers, the k smallest have the least bytes. */
  lemma {:induction false} SmallestSum(m: Sizes, s: seq<ContainerId>, t: seq<ContainerId>)
    requires Distinct(s) && Sorted(s, Smaller(m)) && Distinct(t) && Members(t) <= Members(s)
    ensures |t| <= |s| && Sum(m, s[..|t|]) <= Sum(m, t)
    decreases |s|
  {
    Fewer(s, t);
    if t != [] {
      var n := |s| - 1;
      AllButLast(s);
      if s[n] in t {
        TakesLargest(m, s, t);
      } else {
        SmallestSum(m, s[..n], t);
        assert s[..n][..|t|] == s[..|t|];
      }
    }
  }

  lemma {:induction false} TakesLargest(m: Sizes, s: seq<ContainerId>, t: seq<ContainerId>)
    requires Distinct(s) && Sorted(s, Smaller(m)) && Distinct(t) && Members(t) <= Members(s) && s != []
    requires s[|s| - 1] in t
    ensures |t| <= |s| && Sum(m, s[..|t|]) <= Sum(m, t)
    decreases |s|, 0
  {
    var n := |s| - 1;
    var i :| 0 <= i < |t| && t[i] == s[n];
    var t' := t[..i] + t[i + 1..];
    AllButLast(s);
    DroppedAt(t, i);
    SumWithout(m, t, i);
    SmallestSum(m, s[..n], t');
    Fewer(s, t);
    assert s[..n][..|t'|] == s[..|t|][..|t| - 1];
    assert |t| - 1 < n ==> Smaller(m)(s[|t| - 1], s[n]);
  }

  /** The guard of the trimming loop; with nothing referenced 0.0 / 0.0 compares false. */
  predicate OverBudget(sparseSize: nat, totalSize: nat, limit: real) {
    limit < 1.0 && totalSize > 0 && sparseSize as real / totalSize as real > limit
  }

  lemma MoreIsOver(a: nat, b: nat, totalSize: nat, limit: real)
    requires a <= b && OverBudget(a, totalSize, limit)
    ensures OverBudget(b, totalSize, limit)
  {
    assert b as real / totalSize as real - a as real / totalSize as real == (b - a) as real / totalSize as real;
  }

  function SparseSet(m: Sizes, threshold: real): set<ContainerId> {
    set id | id in m && m[id] as real / DATA_AREA as real < threshold
  }

  lemma {:induction false} PrefixSum(m: Sizes, t: seq<ContainerId>, n: nat)
    requires n <= |t|
    ensures Sum(m, t[..n]) <= Sum(m, t)
  {
    if n < |t| {
      PrefixSum(m, t[..|t| - 1], n);
      assert t[..|t| - 1][..n] == t[..n];
    } else {
      assert t[..n] == t;
    }
  }

  /** No sparse containers within the budget are more than the n smallest ones that trimming kept. */
  lemma KeptIsMost(m: Sizes, s: seq<ContainerId>, n: nat, t: seq<ContainerId>, totalSize: nat, limit: real)
    requires Distinct(s) && Sorted(s, Smaller(m)) && n <= |s| && Distinct(t) && Members(t) <= Members(s)
    requires n < |s| ==> OverBudget(Sum(m, s[..n + 1]), totalSize, limit)
    requires !OverBudget(Sum(m, t), totalSize, limit)
    ensures |t| <= n
  {
    Fewer(s, t);
    if |t| > n {
      var u := t[..n + 1];
      assert Members(u) <= Members(t);
      SmallestSum(m, s, u);
      PrefixSum(m, t, n + 1);
      MoreIsOver(Sum(m, s[..n + 1]), Sum(m, t), totalSize, limit);
    }
  }

  /** The loop over the monitor: all sizes are summed, sparse containers are inserted in order. */
  method CollectSparse(m: Sizes, threshold: real)
    returns (seqn: seq<ContainerId>, totalSize: nat, sparseSize: nat, ghost all: seq<ContainerId>)
    ensures Distinct(all) && Members(all) == m.Keys && totalSize == Sum(m, all)
    ensures Distinct(seqn) && Sorted(seqn, Smaller(m)) && Members(seqn) == SparseSet(m, threshold) && sparseSize == Sum(m, seqn)
  {
    seqn, totalSize, sparseSize, all := [], 0, 0, [];
    var unseen := m.Keys;
    while unseen != {}
      invariant unseen <= m.Keys && Distinct(all) && Members(all) == m.Keys - unseen && totalSize == Sum(m, all)
      invariant Distinct(seqn) && Sorted(seqn, Smaller(m)) && sparseSize == Sum(m, seqn)
      invariant Members(seqn) == SparseSet(m, threshold) - unseen
    {
      var id := IterNext(unseen);
      totalSize := totalSize + m[id];
      OneMore(m, all, id);
      all := all + [id];
      if m[id] as real / DATA_AREA as real < threshold {
        sparseSize := sparseSize + m[id];
        seqn := InsertSparse(m, seqn, id);
      }
      unseen := unseen - {id};
    }
  }

  /** g_sequence_insert_sorted of one sparse container. */
  method InsertSparse(m: Sizes, s: seq<ContainerId>, id: ContainerId) returns (r: seq<ContainerId>)
    requires Distinct(s) && Sorted(s, Smaller(m)) && id !in Members(s) && id in m
    ensures Distinct(r) && Sorted(r, Smaller(m)) && Members(r) == Members(s) + {id} && Sum(m, r) == Sum(m, s) + m[id]
  {
    OneMore(m, s, id);
    r := InsertSorted(s, id, Smaller(m));
    SameSum(m, s + [id], r);
  }

  lemma OneMore(m: Sizes, s: seq<ContainerId>, id: ContainerId)
    requires Distinct(s) && id !in Members(s) && id in m
    ensures Distinct(s + [id]) && Members(s + [id]) == Members(s) + {id} && Sum(m, s + [id]) == Sum(m, s) + m[id]
  {
    assert (s + [id])[..|s|] == s;
  }

  /** The order of the containers does not matter to their sum. */
  lemma {:induction false} SameSum(m: Sizes, s: seq<ContainerId>, t: seq<ContainerId>)
    requires Distinct(s) && Distinct(t) && Members(s) == Members(t)
    ensures Sum(m, s) == Sum(m, t)
  {
    DistinctCount(s);
    DistinctCount(t);
    if s != [] {
      var n := |s| - 1;
      assert s[n] in Members(t);
      var i :| 0 <= i < |t| && t[i] == s[n];
      AllButLast(s);
      DroppedAt(t, i);
      SumWithout(m, t, i);
      SameSum(m, s[..n], t[..i] + t[i + 1..]);
    }
  }

  /** Trimming from the large end; the sequence runs out before the budget does. */
  method Trim(m: Sizes, s: seq<ContainerId>, sum: nat, totalSize: nat, limit: real) returns (sparse: seq<ContainerId>)
    requires limit >= 0.0 && Members(s) <= m.Keys && sum == Sum(m, s)
    ensures sparse <= s && !OverBudget(Sum(m, sparse), totalSize, limit)
    ensures |sparse| < |s| ==> OverBudget(Sum(m, s[..|sparse| + 1]), totalSize, limit)
  {
    sparse := s;
    var sparseSize: int := sum;
    while limit < 1.0 && totalSize > 0 && sparseSize as real / totalSize as real > limit
      invariant sparse <= s && sparseSize == Sum(m, sparse)
      invariant |sparse| < |s| ==> OverBudget(Sum(m, s[..|sparse| + 1]), totalSize, limit)
      decreases |sparse|
    {
      assert sparse == s[..|sparse|];
      var n := |sparse| - 1;
      assert sparse[n] == s[n] && s[n] in Members(s);
      sparseSize := sparseSize - m[sparse[n]];
      sparse := sparse[..n];
    }
  }

  /** All bytes the backup refers to. */
  ghost function Total(m: Sizes): nat {
    if m == map[] then 0
    else
      var id := AnyOf(m.Keys);
      m[id] + Total(m - {id})
  }

  lemma {:induction false} TotalOf(m: Sizes, s: seq<ContainerId>)
    requires Distinct(s) && Members(s) == m.Keys
    ensures Total(m) == Sum(m, s)
    decreases |s|
  {
    if m == map[] {
      DistinctCount(s);
    } else {
      var id := AnyOf(m.Keys);
      var i :| 0 <= i < |s| && s[i] == id;
      var t := s[..i] + s[i + 1..];
      DroppedAt(s, i);
      SumWithout(m, s, i);
      TotalOf(m - {id}, t);
      SumFrame(m, m - {id}, t);
    }
  }

  lemma {:induction false} SumFrame(m: Sizes, n: Sizes, s: seq<ContainerId>)
    requires forall id :: id in Members(s) ==> SizeIn(m, id) == SizeIn(n, id)
    ensures Sum(m, s) == Sum(n, s)
  {
    if s != [] {
      assert s[|s| - 1] in Members(s) && Members(s[..|s| - 1]) <= Members(s);
      SumFrame(m, n, s[..|s| - 1]);
    }
  }

  /** Within the limit, a choice of sparse containers. */
  ghost predicate Affordable(m: Sizes, t: seq<ContainerId>, threshold: real, totalSize: nat, limit: real) {
    Distinct(t) && Members(t) <= SparseSet(m, threshold) && !OverBudget(Sum(m, t), totalSize, limit)
  }

  /** Distinct containers, each used to less than the threshold, that hold no more than the limit's share of all bytes;
      a limit of 1 or more is none, and so is any limit when nothing was referenced. */
  lemma AffordableMeans(m: Sizes, t: seq<ContainerId>, threshold: real, totalSize: nat, limit: real)
    ensures Affordable(m, t, threshold, totalSize, limit) <==>
      && (forall i, j :: 0 <= i < j < |t| ==> t[i] != t[j])
      && (forall i :: 0 <= i < |t| ==> t[i] in m && m[t[i]] as real / (CONTAINER_SIZE - CONTAINER_META_SIZE) as real < threshold)
      && (limit >= 1.0 || totalSize == 0 || Sum(m, t) as real <= limit * totalSize as real)
  {
    forall i | 0 <= i < |t| ensures t[i] in Members(t) {}
    if totalSize > 0 { ShareOfTotal(Sum(m, t), totalSize, limit); }
  }

  lemma ShareOfTotal(size: nat, totalSize: nat, limit: real)
    requires totalSize > 0
    ensures size as real / totalSize as real > limit <==> size as real > limit * totalSize as real
  {
    var x := size as real / totalSize as real;
    assert x * totalSize as real == size as real;
    if x > limit {
      assert (x - limit) * totalSize as real > 0.0;
    } else {
      assert (limit - x) * totalSize as real >= 0.0;
    }
  }

  /** The part of close_har that lists the sparse containers: trimming ends, what is kept is affordable, and
      no affordable choice has more containers. */
  method CloseHar(m: Sizes, threshold: real, limit: real) returns (sparse: seq<ContainerId>)
    requires limit >= 0.0
    ensures Affordable(m, sparse, threshold, Total(m), limit)
    ensures forall t :: Affordable(m, t, threshold, Total(m), limit) ==> |t| <= |sparse|
  {
    ghost var all;
    var s, total, sparseSize;
    s, total, sparseSize, all := CollectSparse(m, threshold);
    TotalOf(m, all);
    assert SparseSet(m, threshold) <= m.Keys;
    sparse := Trim(m, s, sparseSize, total, limit);
    assert sparse == s[..|sparse|];
    forall t | Affordable(m, t, threshold, total, limit) ensures |t| <= |sparse| {
      KeptIsMost(m, s, |sparse|, t, total, limit);
    }
  }
}
