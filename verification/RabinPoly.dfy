/** Polynomial arithmetic on words and word pairs, as rabin_chunking.c computes it. */
module RabinPoly {
  import opened Gf2
  import opened Words
  import opened Common

  const MSB64: Word := 0x8000_0000_0000_0000

  /** r is the residue of p modulo d: below the degree k of d, and congruent to p. */
  ghost predicate IsResidue(r: Word, p: Poly, d: Poly, k: nat) {
    Below(Bits(r), k) && Congruent(Bits(r), p, d)
  }

  /** The position of the last set bit of a byte, counted from 1: the bytemsb table, run by run. */
  function ByteMsb(v: Byte): nat {
    if v < 1 then 0 else if v < 2 then 1 else if v < 4 then 2 else if v < 8 then 3
    else if v < 16 then 4 else if v < 32 then 5 else if v < 64 then 6 else if v < 128 then 7 else 8
  }

  function Fls32(v: nat): nat
    requires v < 0x1_0000_0000
  {
    if v >= 0x1_0000 then
      if v >= 0x100_0000 then 24 + ByteMsb(v / 0x100_0000) else 16 + ByteMsb(v / 0x1_0000)
    else if v >= 0x100 then 8 + ByteMsb(v / 0x100)
    else ByteMsb(v)
  }

  function Fls64(v: Word): nat {
    var h := v / 0x1_0000_0000;
    if h != 0 then 32 + Fls32(h) else Fls32(v)
  }

  lemma ByteMsbBounds(v: Byte)
    requires v != 0
    ensures 0 < ByteMsb(v) <= 8
    ensures Pow2(ByteMsb(v) - 1) <= v < Pow2(ByteMsb(v))
  {
    assert Pow2(0) == 1 && Pow2(1) == 2 && Pow2(2) == 4 && Pow2(3) == 8 && Pow2(4) == 16;
    assert Pow2(5) == 32 && Pow2(6) == 64 && Pow2(7) == 128 && Pow2(8) == 256;
  }

  lemma ScaledBounds(v: nat, s: nat, n: nat)
    requires n > 0 && Pow2(n - 1) <= v / Pow2(s) < Pow2(n)
    ensures Pow2(s + n - 1) <= v < Pow2(s + n)
  {
    Pow2Add(s, n - 1);
    Pow2Add(s, n);
    Between(v, Pow2(s), v / Pow2(s), Pow2(n - 1), Pow2(n));
  }

  lemma Between(v: nat, p: nat, q: nat, a: nat, b: nat)
    requires p > 0 && q == v / p && a <= q < b
    ensures p * a <= v < p * b
  {
    assert v == p * q + v % p;
    MulMonotone(p, a, q);
    MulMonotone(p, q, b - 1);
    Distribute(p, b, -1);
  }

  lemma Pow2Values()
    ensures Pow2(8) == 0x100 && Pow2(16) == 0x1_0000 && Pow2(24) == 0x100_0000 && Pow2(32) == 0x1_0000_0000
  {
    Pow2Word();
    Pow2Add(8, 8);
    Pow2Add(16, 8);
    Pow2Add(16, 16);
  }

  lemma Fls32Bounds(v: nat)
    requires 0 < v < 0x1_0000_0000
    ensures 0 < Fls32(v) <= 32
    ensures Pow2(Fls32(v) - 1) <= v < Pow2(Fls32(v))
  {
    Pow2Values();
    var s := if v >= 0x100_0000 then 24 else if v >= 0x1_0000 then 16 else if v >= 0x100 then 8 else 0;
    assert Pow2(0) == 1;
    var b := v / Pow2(s);
    assert 0 < b < 256;
    ByteMsbBounds(b);
    ScaledBounds(v, s, ByteMsb(b));
  }

  /** fls64 is one more than the degree. */
  lemma Fls64Degree(v: Word)
    requires v != 0
    ensures 0 < Fls64(v) <= 64
    ensures HasDegree(Bits(v), Fls64(v) - 1)
  {
    Pow2Values();
    var h := v / 0x1_0000_0000;
    if h != 0 {
      Fls32Bounds(h);
      ScaledBounds(v, 32, Fls32(h));
    } else {
      Fls32Bounds(v);
    }
    var n := Fls64(v);
    BitsBelow(v, n);
    BitsBelow(v, n - 1);
    assert n - 1 in Bits(v);
  }

  /** The carry-less product, as a pair of words. */
  method Polymult(x: Word, y: Word) returns (ph: Word, pl: Word)
    ensures Wide(ph, pl) == Times(Bits(x), Bits(y), 64)
  {
    ph, pl := 0, 0;
    BitsZero();
    assert Shl(1, 0) == 1;
    MaskBit(x, 0);
    if And(x, 1) != 0 {
      pl := y;
    }
    WideLow(pl);
    assert Times(Bits(x), Bits(y), 0) == {};
    assert Shift(Bits(y), 0) == Bits(y);
    var i := 1;
    while i < 64
      invariant 1 <= i <= 64
      invariant Wide(ph, pl) == Times(Bits(x), Bits(y), i)
    {
      MaskBit(x, i);
      if And(x, Shl(1, i)) != 0 {
        WideShift(y, i);
        WideXor(ph, pl, Shr(y, 64 - i), Shl(y, i));
        ph := XorWord(ph, Shr(y, 64 - i));
        pl := XorWord(pl, Shl(y, i));
      }
      i := i + 1;
    }
  }

  lemma WideLow(l: Word)
    ensures Wide(0, l) == Bits(l)
  {
    BitsZero();
    assert Shift({}, 64) == {};
  }

  /** D is d moved up so that its degree is 63. */
  ghost predicate Aligned(D: Word, d: Poly, k: nat) {
    k < 64 && HasDegree(d, k) && Bits(D) == Shift(d, 63 - k)
  }

  lemma Align(d: Word, k: nat)
    requires k < 64 && HasDegree(Bits(d), k)
    ensures Aligned(Shl(d, 63 - k), Bits(d), k)
  {
    BitsShl(d, 63 - k);
    assert Truncated(Shift(Bits(d), 63 - k), 64) == Shift(Bits(d), 63 - k);
  }

  lemma AlignedMultiple(D: Word, d: Poly, k: nat, i: nat)
    requires Aligned(D, d, k)
    ensures Multiple(Shift(Bits(D), i), d)
  {
    MultipleSelf(d, 63 - k + i);
    assert Shift(Shift(d, 63 - k), i) == Shift(d, 63 - k + i);
  }

  /** One cancelling step in the upper word. */
  lemma HighStep(h: Word, l: Word, D: Word, d: Poly, k: nat, i: nat)
    requires Aligned(D, d, k) && i < 64 && Below(Bits(h), i + 1) && i in Bits(h)
    ensures Congruent(Wide(XorWord(h, Shr(D, 63 - i)), XorWord(l, Shl(D, i + 1))), Wide(h, l), d)
    ensures Below(Bits(XorWord(h, Shr(D, 63 - i))), i)
  {
    AlignedMultiple(D, d, k, i + 1);
    WideShift(D, i + 1);
    WideXor(h, l, Shr(D, 63 - i), Shl(D, i + 1));
    CongruentDrop(Wide(h, l), Shift(Bits(D), i + 1), d);
    StepBelow(h, D, d, k, i);
  }

  lemma ShiftedOut(l: Word, D: Word)
    ensures Bits(XorWord(l, Shl(D, 64))) == Bits(l)
  {
    BitsShl(D, 64);
    assert Truncated(Shift(Bits(D), 64), 64) == {};
  }

  lemma StepBelow(h: Word, D: Word, d: Poly, k: nat, i: nat)
    requires Aligned(D, d, k) && i < 64 && Below(Bits(h), i + 1) && i in Bits(h)
    ensures Below(Bits(XorWord(h, Shr(D, 63 - i))), i)
  {
    BitsShr(D, 63 - i);
    assert 63 in Bits(D) && i in Bits(Shr(D, 63 - i)) by {
      assert k in d && 63 - (63 - k) in d;
    }
  }

  lemma AlignedBack(r: Poly, d: Poly, k: nat, i: nat)
    requires k <= i < 64
    requires forall n: nat :: n in r <==> n + (63 - i) in Shift(d, 63 - k)
    ensures r == Shift(d, i - k)
  {
    assert forall n: nat :: n in r <==> n + (63 - i) >= 63 - k && n + (63 - i) - (63 - k) in d;
    forall n: nat ensures n in r <==> n in Shift(d, i - k) {
      assert n + (63 - i) - (63 - k) == n - (i - k);
    }
  }

  /** One cancelling step in the lower word. */
  lemma LowStep(l: Word, D: Word, d: Poly, k: nat, i: nat)
    requires Aligned(D, d, k) && k <= i < 64 && Below(Bits(l), i + 1) && i in Bits(l)
    ensures Congruent(Bits(XorWord(l, Shr(D, 63 - i))), Bits(l), d)
    ensures Below(Bits(XorWord(l, Shr(D, 63 - i))), i)
  {
    StepBelow(l, D, d, k, i);
    AlignedShr(D, d, k, i);
    DropShifted(l, Shr(D, 63 - i), d, i - k);
  }

  lemma AlignedShr(D: Word, d: Poly, k: nat, i: nat)
    requires Aligned(D, d, k) && k <= i < 64
    ensures Bits(Shr(D, 63 - i)) == Shift(d, i - k)
  {
    BitsShr(D, 63 - i);
    AlignedBack(Bits(Shr(D, 63 - i)), d, k, i);
  }

  lemma DropShifted(l: Word, e: Word, d: Poly, n: nat)
    requires Bits(e) == Shift(d, n)
    ensures Congruent(Bits(XorWord(l, e)), Bits(l), d)
  {
    MultipleSelf(d, n);
    CongruentDrop(Bits(l), Bits(e), d);
  }

  /** What is left of n when the upper word has lost the bits from i up. */
  ghost predicate HighLeft(h: Word, l: Word, n: Poly, d: Poly, i: int) {
    (forall b :: b in Bits(h) ==> b < i) && Congruent(Wide(h, l), n, d)
  }

  ghost predicate LowLeft(l: Word, n: Poly, d: Poly, i: int) {
    (forall b :: b in Bits(l) ==> b < i) && Congruent(Bits(l), n, d)
  }

  lemma TopTurn(h: Word, l: Word, D: Word, n: Poly, d: Poly, k: nat)
    requires Aligned(D, d, k) && Congruent(Wide(h, l), n, d)
    ensures And(h, MSB64) != 0 ==> HighLeft(XorWord(h, D), l, n, d, 63)
    ensures And(h, MSB64) == 0 ==> HighLeft(h, l, n, d, 63)
  {
    MsbTest(h);
    if And(h, MSB64) != 0 {
      HighStep(h, l, D, d, k, 63);
      ShiftedOut(l, D);
      assert Shr(D, 0) == D;
      CongruentTrans(Wide(XorWord(h, D), l), Wide(h, l), n, d);
    }
  }

  lemma HighTurn(h: Word, l: Word, D: Word, n: Poly, d: Poly, k: nat, i: nat)
    requires Aligned(D, d, k) && i < 63 && HighLeft(h, l, n, d, i + 1)
    ensures And(h, Shl(1, i)) != 0 ==> HighLeft(XorWord(h, Shr(D, 63 - i)), XorWord(l, Shl(D, i + 1)), n, d, i)
    ensures And(h, Shl(1, i)) == 0 ==> HighLeft(h, l, n, d, i)
  {
    MaskBit(h, i);
    if And(h, Shl(1, i)) != 0 {
      HighStep(h, l, D, d, k, i);
      CongruentTrans(Wide(XorWord(h, Shr(D, 63 - i)), XorWord(l, Shl(D, i + 1))), Wide(h, l), n, d);
    }
  }

  lemma HighGone(h: Word, l: Word, n: Poly, d: Poly)
    requires HighLeft(h, l, n, d, 0)
    ensures h == 0 && LowLeft(l, n, d, 64)
  {
    BitsZero();
    assert Bits(h) == {};
    BitsInjective(h, 0);
    WideLow(l);
  }

  lemma LowTurn(l: Word, D: Word, n: Poly, d: Poly, k: nat, i: nat)
    requires Aligned(D, d, k) && k <= i < 64 && LowLeft(l, n, d, i + 1)
    ensures And(l, Shl(1, i)) != 0 ==> LowLeft(XorWord(l, Shr(D, 63 - i)), n, d, i)
    ensures And(l, Shl(1, i)) == 0 ==> LowLeft(l, n, d, i)
  {
    MaskBit(l, i);
    if And(l, Shl(1, i)) != 0 {
      LowStep(l, D, d, k, i);
      CongruentTrans(Bits(XorWord(l, Shr(D, 63 - i))), Bits(l), n, d);
    }
  }

  /** The upper word of polymod is cancelled bit by bit. */
  method ClearHigh(nh: Word, nl: Word, D: Word, ghost d: Poly, ghost k: nat) returns (l: Word)
    requires Aligned(D, d, k)
    ensures LowLeft(l, Wide(nh, nl), d, 64)
  {
    var h;
    h, l := nh, nl;
    ghost var n := Wide(nh, nl);
    CongruentRefl(n, d);
    if h != 0 {
      TopTurn(h, l, D, n, d, k);
      if And(h, MSB64) != 0 {
        h := XorWord(h, D);
      }
      var i := 62;
      while i >= 0
        invariant -1 <= i <= 62 && HighLeft(h, l, n, d, i + 1)
      {
        HighTurn(h, l, D, n, d, k, i);
        if And(h, Shl(1, i)) != 0 {
          h, l := XorWord(h, Shr(D, 63 - i)), XorWord(l, Shl(D, i + 1));
        }
        i := i - 1;
      }
    }
    BitsZero();
    HighGone(h, l, n, d);
  }

  /** (nh,nl) modulo d. */
  method Polymod(nh: Word, nl: Word, d: Word) returns (r: Word)
    requires d != 0
    ensures IsResidue(r, Wide(nh, nl), Bits(d), Fls64(d) - 1)
  {
    Fls64Degree(d);
    var k := Fls64(d) - 1;
    var D := Shl(d, 63 - k);
    Align(d, k);
    ghost var n, p := Wide(nh, nl), Bits(d);
    r := ClearHigh(nh, nl, D, p, k);
    var i := 63;
    while i >= k
      invariant k - 1 <= i <= 63 && LowLeft(r, n, p, i + 1)
    {
      LowTurn(r, D, n, p, k, i);
      if And(r, Shl(1, i)) != 0 {
        r := XorWord(r, Shr(D, 63 - i));
      }
      i := i - 1;
    }
  }

  lemma MsbBits()
    ensures MSB64 == Shl(1, 63) && Bits(MSB64) == {63}
  {
    BitsPower(63);
    Pow2Word();
    assert Pow2(63) == MSB64;
    assert Bits(MSB64) == {63} by {
      forall i: nat ensures i in Bits(MSB64) <==> i == 63 { BitPow2(63, i); }
    }
    BitsInjective(MSB64, Shl(1, 63));
  }

  lemma MsbTest(h: Word)
    ensures And(h, MSB64) != 0 <==> 63 in Bits(h)
    ensures 63 !in Bits(h) ==> Below(Bits(h), 63)
  {
    MsbBits();
    MaskBit(h, 63);
  }

  /** x * y modulo d. */
  method Polymmult(x: Word, y: Word, d: Word) returns (r: Word)
    requires d != 0
    ensures IsResidue(r, Times(Bits(x), Bits(y), 64), Bits(d), Fls64(d) - 1)
  {
    var h, l := Polymult(x, y);
    r := Polymod(h, l, d);
  }

  /** At most one word is the residue, so polymod can return nothing else. */
  lemma ResidueWordUnique(r: Word, r': Word, p: Poly, d: Word)
    requires d != 0
    requires IsResidue(r, p, Bits(d), Fls64(d) - 1) && IsResidue(r', p, Bits(d), Fls64(d) - 1)
    ensures r == r'
  {
    Fls64Degree(d);
    CongruentSym(Bits(r'), p, Bits(d));
    CongruentTrans(Bits(r), p, Bits(r'), Bits(d));
    ResidueUnique(Bits(r), Bits(r'), Bits(d), Fls64(d) - 1);
    BitsInjective(r, r');
  }
}
