/** Polynomials over GF(2), written as the finite set of exponents whose coefficient is 1.
    This is the slow, obviously right arithmetic that the 64-bit code is compared with. */
module Gf2 {

  type Poly = set<nat>

  /** Sum of two polynomials: exponents that occur in exactly one of them. */
  function Add(p: Poly, q: Poly): (r: Poly)
    ensures forall n :: n in r <==> (n in p) != (n in q)
  {
    (p - q) + (q - p)
  }

  /** Product with x^k. */
  function Shift(p: Poly, k: nat): (r: Poly)
    ensures forall n :: n in r <==> n >= k && n - k in p
  {
    var r := set m | m in p :: m + k;
    assert forall n :: n in r <==> n >= k && n - k in p by {
      forall n ensures n in r <==> n >= k && n - k in p {
        if n >= k {
          var m := n - k;
          assert n == m + k;
        }
      }
    }
    r
  }

  /** The schoolbook product: the sum of x^i * d over the exponents i < n of q. */
  function Times(q: Poly, d: Poly, n: nat): Poly {
    if n == 0 then {}
    else if n - 1 in q then Add(Times(q, d, n - 1), Shift(d, n - 1))
    else Times(q, d, n - 1)
  }

  ghost predicate Below(p: Poly, k: nat) {
    forall n :: n in p ==> n < k
  }

  /** k is the degree of d. */
  ghost predicate HasDegree(d: Poly, k: nat) {
    k in d && Below(d, k + 1)
  }

  /** p lies in the ideal that d generates. */
  ghost predicate Multiple(p: Poly, d: Poly) {
    exists q: Poly, n: nat :: p == Times(q, d, n)
  }

  ghost predicate Congruent(a: Poly, b: Poly, d: Poly) {
    Multiple(Add(a, b), d)
  }

  function Truncated(q: Poly, n: nat): (r: Poly)
    ensures forall i :: i in r <==> i in q && i < n
  {
    set i | i in q && i < n
  }

  lemma {:induction false} TimesTruncated(q: Poly, d: Poly, n: nat, m: nat)
    requires n <= m
    ensures Times(q, d, n) == Times(Truncated(q, n), d, m)
    decreases n + m
  {
    if n < m {
      TimesTruncated(q, d, n, m - 1);
    } else if n > 0 {
      TimesAgree(q, Truncated(q, n), d, n);
    }
  }

  lemma {:induction false} TimesAgree(q: Poly, q': Poly, d: Poly, n: nat)
    requires forall i :: i < n ==> (i in q <==> i in q')
    ensures Times(q, d, n) == Times(q', d, n)
  {
    if n > 0 { TimesAgree(q, q', d, n - 1); }
  }

  lemma {:induction false} TimesAddLeft(q: Poly, q': Poly, d: Poly, n: nat)
    ensures Times(Add(q, q'), d, n) == Add(Times(q, d, n), Times(q', d, n))
  {
    if n > 0 { TimesAddLeft(q, q', d, n - 1); }
  }

  lemma {:induction false} TimesAddRight(q: Poly, d: Poly, d': Poly, n: nat)
    ensures Times(q, Add(d, d'), n) == Add(Times(q, d, n), Times(q, d', n))
  {
    if n > 0 {
      TimesAddRight(q, d, d', n - 1);
      assert Shift(Add(d, d'), n - 1) == Add(Shift(d, n - 1), Shift(d', n - 1));
    }
  }

  lemma {:induction false} TimesShift(q: Poly, d: Poly, n: nat, k: nat)
    ensures Shift(Times(q, d, n), k) == Times(Shift(q, k), d, n + k)
  {
    if n > 0 {
      TimesShift(q, d, n - 1, k);
      assert Shift(Shift(d, n - 1), k) == Shift(d, n - 1 + k);
      assert (n - 1 + k in Shift(q, k)) == (n - 1 in q);
      if n - 1 in q {
        assert Shift(Add(Times(q, d, n - 1), Shift(d, n - 1)), k)
            == Add(Shift(Times(q, d, n - 1), k), Shift(Shift(d, n - 1), k));
      }
    } else {
      TimesEmpty(Shift(q, k), d, k);
    }
  }

  lemma {:induction false} TimesEmpty(q: Poly, d: Poly, n: nat)
    requires forall i :: i < n ==> i !in q
    ensures Times(q, d, n) == {}
  {
    if n > 0 { TimesEmpty(q, d, n - 1); }
  }

  lemma {:induction false} TimesMonomial(q: Poly, e: nat, n: nat)
    requires Below(q, n)
    ensures Times(q, {e}, n) == Shift(q, e)
  {
    TimesMonomialUpTo(q, e, n);
    assert Truncated(q, n) == q;
  }

  lemma {:induction false} TimesMonomialUpTo(q: Poly, e: nat, n: nat)
    ensures Times(q, {e}, n) == Shift(Truncated(q, n), e)
  {
    if n > 0 {
      TimesMonomialUpTo(q, e, n - 1);
      assert Shift({e}, n - 1) == {e + n - 1};
      var a, b := Shift(Truncated(q, n - 1), e), Shift(Truncated(q, n), e);
      forall i ensures i in b <==> i in a || (i == e + n - 1 && n - 1 in q) {
      }
    }
  }

  lemma MultipleZero(d: Poly)
    ensures Multiple({}, d)
  {
    assert Times({}, d, 0) == {};
  }

  lemma MultipleAdd(a: Poly, b: Poly, d: Poly)
    requires Multiple(a, d) && Multiple(b, d)
    ensures Multiple(Add(a, b), d)
  {
    var q, n :| a == Times(q, d, n);
    var q', n' :| b == Times(q', d, n');
    var m := n + n';
    TimesTruncated(q, d, n, m);
    TimesTruncated(q', d, n', m);
    TimesAddLeft(Truncated(q, n), Truncated(q', n'), d, m);
    assert Add(a, b) == Times(Add(Truncated(q, n), Truncated(q', n')), d, m);
  }

  lemma MultipleShift(a: Poly, d: Poly, k: nat)
    requires Multiple(a, d)
    ensures Multiple(Shift(a, k), d)
  {
    var q, n :| a == Times(q, d, n);
    TimesShift(q, d, n, k);
  }

  lemma MultipleSelf(d: Poly, k: nat)
    ensures Multiple(Shift(d, k), d)
  {
    TimesEmpty({k}, d, k);
    assert Times({k}, d, k + 1) == Add({}, Shift(d, k)) == Shift(d, k);
  }

  /** d' a multiple of d makes every multiple of d' one of d, multiplier by multiplier. */
  lemma {:induction false} MultipleTimes(q: Poly, d': Poly, d: Poly, n: nat)
    requires Multiple(d', d)
    ensures Multiple(Times(q, d', n), d)
  {
    if n == 0 {
      MultipleZero(d);
    } else {
      MultipleTimes(q, d', d, n - 1);
      if n - 1 in q {
        MultipleShift(d', d, n - 1);
        MultipleAdd(Times(q, d', n - 1), Shift(d', n - 1), d);
      }
    }
  }

  lemma CongruentRefl(a: Poly, d: Poly)
    ensures Congruent(a, a, d)
  {
    MultipleZero(d);
    assert Add(a, a) == {};
  }

  lemma CongruentSym(a: Poly, b: Poly, d: Poly)
    requires Congruent(a, b, d)
    ensures Congruent(b, a, d)
  {
    assert Add(a, b) == Add(b, a);
  }

  lemma CongruentTrans(a: Poly, b: Poly, c: Poly, d: Poly)
    requires Congruent(a, b, d) && Congruent(b, c, d)
    ensures Congruent(a, c, d)
  {
    MultipleAdd(Add(a, b), Add(b, c), d);
    assert Add(Add(a, b), Add(b, c)) == Add(a, c);
  }

  lemma CongruentAdd(a: Poly, b: Poly, a': Poly, b': Poly, d: Poly)
    requires Congruent(a, b, d) && Congruent(a', b', d)
    ensures Congruent(Add(a, a'), Add(b, b'), d)
  {
    MultipleAdd(Add(a, b), Add(a', b'), d);
    assert Add(Add(a, b), Add(a', b')) == Add(Add(a, a'), Add(b, b'));
  }

  lemma CongruentShift(a: Poly, b: Poly, d: Poly, k: nat)
    requires Congruent(a, b, d)
    ensures Congruent(Shift(a, k), Shift(b, k), d)
  {
    MultipleShift(Add(a, b), d, k);
    assert Shift(Add(a, b), k) == Add(Shift(a, k), Shift(b, k));
  }

  lemma CongruentTimes(q: Poly, a: Poly, b: Poly, d: Poly, n: nat)
    requires Congruent(a, b, d)
    ensures Congruent(Times(q, a, n), Times(q, b, n), d)
  {
    MultipleTimes(q, Add(a, b), d, n);
    TimesAddRight(q, a, b, n);
  }

  /** Adding a multiple of d does not change the class. */
  lemma CongruentDrop(a: Poly, m: Poly, d: Poly)
    requires Multiple(m, d)
    ensures Congruent(Add(a, m), a, d)
  {
    assert Add(Add(a, m), a) == m;
  }

  lemma {:induction false} TimesTop(q: Poly, d: Poly, n: nat, k: nat)
    requires HasDegree(d, k)
    ensures forall i :: i in Times(q, d, n) ==> i < n + k
    ensures n > 0 && n - 1 in q ==> n - 1 + k in Times(q, d, n)
  {
    if n > 0 { TimesTop(q, d, n - 1, k); }
  }

  /** The only multiple of d below the degree of d is 0. */
  lemma {:induction false} SmallMultiple(q: Poly, d: Poly, n: nat, k: nat)
    requires HasDegree(d, k)
    requires Below(Times(q, d, n), k)
    ensures Times(q, d, n) == {}
  {
    if n > 0 {
      TimesTop(q, d, n, k);
      assert n - 1 !in q;
      SmallMultiple(q, d, n - 1, k);
    }
  }

  /** A residue class has at most one member below the degree of the modulus. */
  lemma ResidueUnique(a: Poly, b: Poly, d: Poly, k: nat)
    requires HasDegree(d, k) && Below(a, k) && Below(b, k)
    requires Congruent(a, b, d)
    ensures a == b
  {
    var q, n :| Add(a, b) == Times(q, d, n);
    SmallMultiple(q, d, n, k);
    assert forall i :: i in a <==> i in b by {
      forall i ensures i in a <==> i in b { assert i !in Add(a, b); }
    }
  }

  /** Long division: cancels the exponents n-1, n-2, ..., k of p with multiples of d. */
  ghost function Remainder(p: Poly, d: Poly, k: nat, n: nat): (r: Poly)
    requires HasDegree(d, k) && Below(p, n)
    ensures Below(r, k) && Congruent(r, p, d)
    decreases n
  {
    if n <= k then
      CongruentRefl(p, d);
      p
    else if n - 1 in p then
      var p' := Add(p, Shift(d, n - 1 - k));
      var r := Remainder(p', d, k, n - 1);
      MultipleSelf(d, n - 1 - k);
      CongruentDrop(p, Shift(d, n - 1 - k), d);
      CongruentTrans(r, p', p, d);
      r
    else Remainder(p, d, k, n - 1)
  }
}
