/** similarity_detection.c: the greedy choice of similar segments. */
module Similarity {
  import opened Common
  import opened DedupSpec
  import opened GSequence
  import opened KvStore

  type Candidates = map<int, set<Key>>

  predicate Known(c: Candidates, picks: seq<int>) {
    forall i :: 0 <= i < |picks| ==> picks[i] in c
  }

  /** Every feature that the picked segments share with the new one. */
  function Covered(c: Candidates, picks: seq<int>): set<Key>
    requires Known(c, picks)
  {
    if picks == [] then {} else Covered(c, picks[..|picks| - 1]) + c[picks[|picks| - 1]]
  }

  /** What a candidate has left when everything covered is trimmed. */
  function Gain(c: Candidates, id: int, covered: set<Key>): nat
    requires id in c
  {
    |c[id] - covered|
  }

  /** The comparator: more features first, then the larger id. */
  predicate Beats(n: nat, id: int, m: nat, other: int) {
    n > m || (n == m && id >= other)
  }

  /** The best candidate that is not picked yet. */
  ghost predicate IsTop(c: Candidates, picks: seq<int>, covered: set<Key>, t: int) {
    t in c && t !in picks
    && forall s :: s in c && s !in picks ==> Beats(Gain(c, t, covered), t, Gain(c, s, covered), s)
  }

  /** Every pick is the best of what is left then. */
  ghost predicate Greedy(c: Candidates, picks: seq<int>) {
    Known(c, picks) && forall j :: 0 <= j < |picks| ==> IsTop(c, picks[..j], Covered(c, picks[..j]), picks[j])
  }

  // ---- what greedy picks cover

  lemma {:induction false} PickedIsCovered(c: Candidates, picks: seq<int>, id: int)
    requires Known(c, picks) && id in picks
    ensures c[id] <= Covered(c, picks)
  {
    var n := |picks| - 1;
    if id != picks[n] {
      assert picks == picks[..n] + [picks[n]];
      PickedIsCovered(c, picks[..n], id);
    }
  }

  lemma SplitSize(best: set<Key>, a: set<Key>, covered: set<Key>)
    ensures |(best + a) - covered| <= |best - covered| + |a - covered|
    ensures |best| <= |best - covered| + |covered|
  {
    assert (best + a) - covered == (best - covered) + (a - covered);
    assert best == (best - covered) + best * covered;
    assert covered == best * covered + (covered - best);
  }

  lemma RivalGain(c: Candidates, picks: seq<int>, t: int, r: int)
    requires Known(c, picks) && r in c && IsTop(c, picks, Covered(c, picks), t)
    ensures |c[r] - Covered(c, picks)| <= Gain(c, t, Covered(c, picks))
  {
    if r in picks {
      PickedIsCovered(c, picks, r);
      assert c[r] - Covered(c, picks) == {};
    }
  }

  /** Together any segments cover no more than their number times the best gain. */
  lemma {:induction false} RivalsGain(c: Candidates, covered: set<Key>, gain: nat, rivals: seq<int>)
    requires Known(c, rivals) && forall i :: 0 <= i < |rivals| ==> |c[rivals[i]] - covered| <= gain
    ensures |Covered(c, rivals) - covered| <= |rivals| * gain
  {
    if rivals != [] {
      var n := |rivals| - 1;
      RivalsGain(c, covered, gain, rivals[..n]);
      SplitSize(Covered(c, rivals[..n]), c[rivals[n]], covered);
      OneMoreTime(n, gain, |Covered(c, rivals[..n]) - covered|, |c[rivals[n]] - covered|);
    }
  }

  lemma OneMoreTime(n: nat, gain: nat, a: nat, b: nat)
    requires a <= n * gain && b <= gain
    ensures a + b <= (n + 1) * gain
  {}

  /** Each pick gains at least 1/k of what the best k segments still have to offer. */
  lemma PickGains(c: Candidates, picks: seq<int>, t: int, k: nat, rivals: seq<int>)
    requires Known(c, picks) && IsTop(c, picks, Covered(c, picks), t)
    requires Known(c, rivals) && |rivals| <= k
    ensures |Covered(c, picks) + c[t]| == |Covered(c, picks)| + Gain(c, t, Covered(c, picks))
    ensures k * Gain(c, t, Covered(c, picks)) >= |Covered(c, rivals)| - |Covered(c, picks)|
  {
    forall i | 0 <= i < |rivals| ensures |c[rivals[i]] - Covered(c, picks)| <= Gain(c, t, Covered(c, picks)) {
      RivalGain(c, picks, t, rivals[i]);
    }
    RivalsGain(c, Covered(c, picks), Gain(c, t, Covered(c, picks)), rivals);
    var best, covered, gain := Covered(c, rivals), Covered(c, picks), Gain(c, t, Covered(c, picks));
    SplitSize(best, {}, covered);
    Enough(k, |rivals|, gain, |best - covered|, |best|, |covered|);
    assert covered + c[t] == covered + (c[t] - covered);
  }

  lemma Enough(k: nat, n: nat, gain: nat, added: nat, best: nat, covered: nat)
    requires n <= k && added <= n * gain && best <= added + covered
    ensures k * gain >= best - covered
  {
    MulLe(gain, n, k);
  }

  function Pow(b: nat, e: nat): nat {
    if e == 0 then 1 else b * Pow(b, e - 1)
  }

  /** best - covered <= (1 - 1/k)^n * best. */
  predicate MissesAtMost(k: nat, n: nat, best: nat, covered: nat)
    requires k > 0
  {
    Pow(k, n) * (best - covered) <= Pow(k - 1, n) * best
  }

  /** After j picks at most (1 - 1/k)^j of what any k segments cover is missing. */
  lemma {:induction false} CoverageBound(c: Candidates, picks: seq<int>, k: nat, rivals: seq<int>)
    requires Greedy(c, picks) && Known(c, rivals) && 0 < k && |rivals| <= k
    ensures MissesAtMost(k, |picks|, |Covered(c, rivals)|, |Covered(c, picks)|)
  {
    if picks != [] {
      var n := |picks| - 1;
      GreedyPrefix(c, picks, n);
      CoverageBound(c, picks[..n], k, rivals);
      LastPickGains(c, picks, k, rivals);
      BoundStep(k, n, |Covered(c, rivals)|, |Covered(c, picks[..n])|, |Covered(c, picks)|);
    }
  }

  lemma LastPickGains(c: Candidates, picks: seq<int>, k: nat, rivals: seq<int>)
    requires picks != [] && Greedy(c, picks) && Known(c, rivals) && |rivals| <= k
    ensures Known(c, picks[..|picks| - 1])
    ensures var before := |Covered(c, picks[..|picks| - 1])|;
      k * (|Covered(c, picks)| - before) >= |Covered(c, rivals)| - before
  {
    var n := |picks| - 1;
    assert IsTop(c, picks[..n], Covered(c, picks[..n]), picks[n]);
    PickGains(c, picks[..n], picks[n], k, rivals);
  }

  lemma GreedyPrefix(c: Candidates, picks: seq<int>, n: nat)
    requires Greedy(c, picks) && n <= |picks|
    ensures Greedy(c, picks[..n])
  {
    forall j | 0 <= j < n ensures picks[..n][..j] == picks[..j] {}
  }

  lemma BoundStep(k: nat, n: nat, best: nat, before: nat, after: nat)
    requires k > 0 && k * (after - before) >= best - before
    requires MissesAtMost(k, n, best, before)
    ensures MissesAtMost(k, n + 1, best, after)
  {
    OneMorePick(k, Pow(k, n), Pow(k - 1, n), best, before, after);
  }

  lemma OneMorePick(k: nat, p: nat, q: nat, best: nat, before: nat, after: nat)
    requires k > 0 && k * (after - before) >= best - before
    requires p * (best - before) <= q * best
    ensures k * p * (best - after) <= (k - 1) * q * best
  {
    var miss := best - before;
    assert k * (best - after) <= (k - 1) * miss by {
      assert k * (best - after) == k * best - k * after;
      assert k * (after - before) == k * after - k * before;
      assert (k - 1) * miss == k * best - k * before - miss;
    }
    calc {
      k * p * (best - after);
      == p * (k * (best - after));
      <= { MulLe(p, k * (best - after), (k - 1) * miss); }
      p * ((k - 1) * miss);
      == (k - 1) * (p * miss);
      <= { MulLe(k - 1, p * miss, q * best); }
      (k - 1) * (q * best);
      == (k - 1) * q * best;
    }
  }

  lemma MulLe(a: nat, x: int, y: int)
    requires x <= y
    ensures a * x <= a * y && x * a <= y * a
  {}

  // ---- the candidates

  /** A segment shares a feature when the key-value store names it for that feature. */
  ghost predicate Shared(c: Candidates, ids: map<Key, seq<int>>, features: set<Key>) {
    && (forall id :: id in c <==> exists f :: f in features && Names(ids, f, id))
    && (forall id :: id in c ==> forall f :: f in c[id] <==> f in features && Names(ids, f, id))
  }

  predicate Names(ids: map<Key, seq<int>>, f: Key, id: int) {
    f in ids && id in ids[f]
  }

  /** The first n ids of one feature have been entered. */
  ghost predicate Entered(c: Candidates, before: Candidates, mine: seq<int>, n: nat, key: Key)
    requires n <= |mine|
  {
    && c.Keys == before.Keys + Elements(mine[..n])
    && forall id :: id in c ==> c[id] == (if id in before then before[id] else {}) + (if id in mine[..n] then {key} else {})
  }

  lemma EnterOne(c: Candidates, before: Candidates, mine: seq<int>, n: nat, key: Key)
    requires n < |mine| && Entered(c, before, mine, n, key) && mine[n] !in mine[..n]
    ensures var id := mine[n];
      Entered(c[id := (if id in c then c[id] else {}) + {key}], before, mine, n + 1, key)
  {
    assert mine[..n + 1] == mine[..n] + [mine[n]];
  }

  /** One feature's ids, up to the first empty place; the assert is that no id comes twice. */
  method EnterFeature(before: Candidates, key: Key, value: seq<int>, ghost mine: seq<int>) returns (c: Candidates)
    requires Represents(value, mine, |value|) && Newest(mine)
    requires forall id :: id in before ==> key !in before[id]
    ensures Entered(c, before, mine, |mine|, key)
  {
    c := before;
    var i := 0;
    while i < |value| && value[i] != TEMPORARY_ID
      invariant 0 <= i <= |mine| && Entered(c, before, mine, i, key)
    {
      var id := value[i];
      assert id == mine[i] && id !in mine[..i];
      var features := if id in c then c[id] else {};
      assert key !in features;
      EnterOne(c, before, mine, i, key);
      c := c[id := features + {key}];
      i := i + 1;
    }
    assert i == |mine|;
    assert mine[..i] == mine;
  }

  lemma EnteredShared(c: Candidates, before: Candidates, ids: map<Key, seq<int>>, done: set<Key>, key: Key)
    requires Shared(before, ids, done) && key !in done
    requires if key in ids then Entered(c, before, ids[key], |ids[key]|, key) else c == before
    ensures Shared(c, ids, done + {key})
  {
    if key in ids {
      assert ids[key][..|ids[key]|] == ids[key];
      forall id ensures id in c <==> exists f :: f in done + {key} && Names(ids, f, id) {
        assert Names(ids, key, id) <==> id in ids[key];
        if id in before {
          var f :| f in done && Names(ids, f, id);
          assert f in done + {key};
        }
      }
    } else {
      forall id ensures id in c <==> exists f :: f in done + {key} && Names(ids, f, id) {
        if id in before {
          var f :| f in done && Names(ids, f, id);
          assert f in done + {key};
        }
      }
    }
  }

  /** The first loop of top_segment_select. */
  method SimilarSegments(features: set<Key>, store: Table) returns (c: Candidates)
    requires store.Valid() && store.Ordered()
    ensures Shared(c, store.ids, features)
  {
    c := map[];
    var todo := features;
    while todo != {}
      invariant todo <= features && Shared(c, store.ids, features - todo)
    {
      var key := IterNext(todo);
      ghost var before := c;
      var value := store.Lookup(key);
      if value.Some? {
        c := EnterFeature(c, key, value.value, store.ids[key]);
      }
      EnteredShared(c, before, store.ids, features - todo, key);
      assert features - todo + {key} == features - (todo - {key});
      todo := todo - {key};
    }
    assert features - todo == features;
  }

  // ---- the selection

  /** g_segment_cmp_feature_num on what the candidates have left. */
  function MoreLeft(left: Candidates): (int, int) -> bool {
    (a: int, b: int) => a in left && b in left && Beats(|left[a]|, a, |left[b]|, b)
  }

  lemma MoreLeftOrders(left: Candidates, s: seq<int>)
    requires Known(left, s)
    ensures Orders(MoreLeft(left), Members(s))
  {}

  /** features_trim. */
  method FeaturesTrim(target: set<Key>, top: set<Key>) returns (r: set<Key>)
    ensures r == target - top
  {
    r := target;
    var todo := top;
    while todo != {}
      invariant todo <= top && r == target - (top - todo)
    {
      var key :| key in todo;
      r := r - {key};
      todo := todo - {key};
    }
  }

  /** The candidates that are not picked, each with its features minus everything covered so far. */
  ghost predicate Remaining(c: Candidates, picks: seq<int>, left: Candidates, s: seq<int>)
    requires Known(c, picks)
  {
    && Known(left, s) && Distinct(s) && |s| + |picks| == |c|
    && Members(s) == c.Keys - Members(picks)
    && (forall i :: 0 <= i < |s| ==> s[i] in c && left[s[i]] == c[s[i]] - Covered(c, picks))
  }

  /** g_sequence_foreach with features_trim. */
  method TrimAll(left: Candidates, s: seq<int>, top: set<Key>) returns (r: Candidates)
    requires Known(left, s) && Distinct(s)
    ensures Known(r, s) && forall i :: 0 <= i < |s| ==> r[s[i]] == left[s[i]] - top
  {
    r := left;
    var i := 0;
    while i < |s|
      invariant 0 <= i <= |s| && Known(r, s)
      invariant forall j :: 0 <= j < |s| ==> r[s[j]] == if j < i then left[s[j]] - top else left[s[j]]
    {
      var trimmed := FeaturesTrim(r[s[i]], top);
      r := r[s[i] := trimmed];
      i := i + 1;
    }
  }

  lemma FirstIsTop(c: Candidates, picks: seq<int>, left: Candidates, s: seq<int>)
    requires Known(c, picks) && Remaining(c, picks, left, s) && Sorted(s, MoreLeft(left)) && s != []
    ensures IsTop(c, picks, Covered(c, picks), s[0])
  {
    var covered := Covered(c, picks);
    assert s[0] in Members(s);
    forall id | id in c && id !in picks ensures Beats(Gain(c, s[0], covered), s[0], Gain(c, id, covered), id) {
      assert id in Members(s);
      var i :| 0 <= i < |s| && s[i] == id;
      assert i > 0 ==> MoreLeft(left)(s[0], s[i]);
    }
  }

  lemma GreedySnoc(c: Candidates, picks: seq<int>, t: int)
    requires Greedy(c, picks) && IsTop(c, picks, Covered(c, picks), t)
    ensures Greedy(c, picks + [t]) && Covered(c, picks + [t]) == Covered(c, picks) + c[t]
  {
    var picks' := picks + [t];
    assert picks'[..|picks|] == picks;
    forall j | 0 <= j < |picks'| ensures IsTop(c, picks'[..j], Covered(c, picks'[..j]), picks'[j]) {
      if j < |picks| { assert picks'[..j] == picks[..j] && picks'[j] == picks[j]; }
    }
  }

  lemma RemainingPops(c: Candidates, picks: seq<int>, left: Candidates, s: seq<int>, left': Candidates)
    requires Known(c, picks) && Remaining(c, picks, left, s) && s != [] && s[0] in c
    requires Known(left', s[1..]) && forall i :: 0 <= i < |s| - 1 ==> left'[s[1..][i]] == left[s[1..][i]] - left[s[0]]
    requires Known(c, picks + [s[0]]) && Covered(c, picks + [s[0]]) == Covered(c, picks) + c[s[0]]
    ensures Remaining(c, picks + [s[0]], left', s[1..])
  {
    assert s == [s[0]] + s[1..];
    assert Members(s) == {s[0]} + Members(s[1..]) && s[0] !in Members(s[1..]);
    assert Members(picks + [s[0]]) == Members(picks) + {s[0]};
  }

  /** Building the sorted sequence of candidates. */
  method SortCandidates(c: Candidates) returns (s: seq<int>)
    ensures Known(c, s) && Distinct(s) && Sorted(s, MoreLeft(c)) && Members(s) == c.Keys && |s| == |c|
  {
    s := [];
    var todo := c.Keys;
    while todo != {}
      invariant todo <= c.Keys && Known(c, s) && Distinct(s) && Sorted(s, MoreLeft(c))
      invariant Members(s) == c.Keys - todo && |s| + |todo| == |c|
    {
      var id := IterNext(todo);
      assert id !in Members(s);
      s := InsertSorted(s, id, MoreLeft(c));
      todo := todo - {id};
    }
  }

  /** The loop of top_segment_select: the picks are greedy, and there are as many as asked for. */
  method TopSegmentSelect(c: Candidates, selection: nat) returns (picks: seq<int>)
    ensures Greedy(c, picks) && |picks| == if |c| > selection then selection else |c|
  {
    var s := SortCandidates(c);
    var num := if |s| > selection then selection else |s|;
    picks := [];
    var left := c;
    assert Members(picks) == {} && Covered(c, picks) == {};
    while |picks| < num
      invariant |picks| <= num <= |c|
      invariant Greedy(c, picks) && Remaining(c, picks, left, s) && Sorted(s, MoreLeft(left))
    {
      var top := s[0];
      left, s := TakeTop(c, picks, left, s);
      picks := picks + [top];
    }
  }

  /** The top segment leaves, the others are trimmed by its features and sorted again. */
  method TakeTop(c: Candidates, ghost picks: seq<int>, left: Candidates, s: seq<int>) returns (left': Candidates, s': seq<int>)
    requires Greedy(c, picks) && Remaining(c, picks, left, s) && Sorted(s, MoreLeft(left)) && s != []
    ensures Greedy(c, picks + [s[0]]) && Remaining(c, picks + [s[0]], left', s') && Sorted(s', MoreLeft(left'))
  {
    FirstIsTop(c, picks, left, s);
    GreedySnoc(c, picks, s[0]);
    left' := TrimAll(left, s[1..], left[s[0]]);
    RemainingPops(c, picks, left, s, left');
    MoreLeftOrders(left', s[1..]);
    s' := Sort(s[1..], MoreLeft(left'));
    SameMembers(c, picks + [s[0]], left', s[1..], s');
  }

  lemma SameMembers(c: Candidates, picks: seq<int>, left: Candidates, s: seq<int>, r: seq<int>)
    requires Known(c, picks) && Remaining(c, picks, left, s)
    requires Distinct(r) && |r| == |s| && Members(r) == Members(s)
    ensures Remaining(c, picks, left, r)
  {
    forall i | 0 <= i < |r| ensures r[i] in left && r[i] in c && left[r[i]] == c[r[i]] - Covered(c, picks) {
      assert r[i] in Members(s);
    }
  }
}
