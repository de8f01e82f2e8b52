/** The sorted sequences of GLib that the pipeline relies on: distinct elements and an order on them. */
module GSequence {
  predicate Distinct<T(==)>(s: seq<T>) {
    forall i, j :: 0 <= i < j < |s| ==> s[i] != s[j]
  }

  ghost function Members<T>(s: seq<T>): set<T> {
    set x | x in s
  }

  /** le orders any two of the elements. */
  ghost predicate Orders<T(!new)>(le: (T, T) -> bool, m: set<T>) {
    && (forall a, b :: a in m && b in m ==> le(a, b) || le(b, a))
    && (forall a, b, c :: a in m && b in m && c in m && le(a, b) && le(b, c) ==> le(a, c))
  }

  ghost predicate Sorted<T>(s: seq<T>, le: (T, T) -> bool) {
    forall i, j :: 0 <= i < j < |s| ==> le(s[i], s[j])
  }

  lemma InsertedAt<T>(s: seq<T>, x: T, p: nat)
    requires p <= |s|
    ensures var r := s[..p] + [x] + s[p..];
      Members(r) == Members(s) + {x} && (Distinct(s) && x !in s ==> Distinct(r))
  {
    assert s == s[..p] + s[p..];
  }

  lemma DroppedAt<T>(s: seq<T>, i: nat)
    requires Distinct(s) && i < |s|
    ensures var r := s[..i] + s[i + 1..]; Distinct(r) && Members(r) == Members(s) - {s[i]}
  {
    assert s == s[..i] + [s[i]] + s[i + 1..];
  }

  lemma {:induction false} DistinctCount<T>(s: seq<T>)
    requires Distinct(s)
    ensures |Members(s)| == |s|
  {
    if s != [] {
      DroppedAt(s, 0);
      assert s[..0] + s[1..] == s[1..];
      DistinctCount(s[1..]);
      assert Members(s) == Members(s[1..]) + {s[0]};
    }
  }

  lemma InsertedSorted<T(!new)>(s: seq<T>, x: T, p: nat, le: (T, T) -> bool)
    requires p <= |s| && Sorted(s, le) && Orders(le, Members(s) + {x})
    requires forall i :: 0 <= i < p ==> le(s[i], x)
    requires p < |s| ==> !le(s[p], x)
    ensures Sorted(s[..p] + [x] + s[p..], le)
  {
    forall i | p <= i < |s| ensures le(x, s[i]) {
      assert s[p] in Members(s) && s[i] in Members(s);
      assert i > p ==> le(s[p], s[i]);
    }
  }

  /** g_sequence_insert_sorted: behind everything that le puts before or level with x. */
  method InsertSorted<T(!new, ==)>(s: seq<T>, x: T, le: (T, T) -> bool) returns (r: seq<T>)
    requires Distinct(s) && x !in s
    ensures Distinct(r) && |r| == |s| + 1 && Members(r) == Members(s) + {x}
    ensures Sorted(s, le) && Orders(le, Members(r)) ==> Sorted(r, le)
  {
    var p := 0;
    while p < |s| && le(s[p], x)
      invariant 0 <= p <= |s| && forall i :: 0 <= i < p ==> le(s[i], x)
    {
      p := p + 1;
    }
    r := s[..p] + [x] + s[p..];
    InsertedAt(s, x, p);
    if Sorted(s, le) && Orders(le, Members(r)) { InsertedSorted(s, x, p, le); }
  }

  /** g_sequence_sort. */
  method Sort<T(!new, ==)>(s: seq<T>, le: (T, T) -> bool) returns (r: seq<T>)
    requires Distinct(s) && Orders(le, Members(s))
    ensures Distinct(r) && |r| == |s| && Members(r) == Members(s) && Sorted(r, le)
  {
    r := [];
    var i := 0;
    while i < |s|
      invariant 0 <= i <= |s| && Distinct(r) && |r| == i && Members(r) == Members(s[..i]) && Sorted(r, le)
    {
      assert s[i] !in Members(s[..i]);
      assert s[..i + 1] == s[..i] + [s[i]];
      r := InsertSorted(r, s[i], le);
      assert Members(r) == Members(s[..i + 1]) <= Members(s);
      i := i + 1;
    }
    assert s[..i] == s;
  }
}
