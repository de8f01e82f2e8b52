/** 64-bit words as naturals below 2^64, and what xor, shifts and masks do to their one-bits.
    Every operation wraps or truncates as the C operation on u_int64_t does. */
module Words {
  import opened Gf2

  const WORD_SIZE: nat := 0x1_0000_0000_0000_0000

  type Word = x: nat | x < WORD_SIZE

  function Pow2(k: nat): (p: nat)
    ensures p > 0
  {
    if k == 0 then 1 else 2 * Pow2(k - 1)
  }

  /** x ^ y */
  function Xor(x: nat, y: nat): nat
    decreases x + y
  {
    if x == 0 && y == 0 then 0 else (x % 2 + y % 2) % 2 + 2 * Xor(x / 2, y / 2)
  }

  /** x & y */
  function And(x: nat, y: nat): nat {
    if x == 0 then 0 else (if x % 2 == 1 && y % 2 == 1 then 1 else 0) + 2 * And(x / 2, y / 2)
  }

  /** x | y */
  function Or(x: nat, y: nat): nat
    decreases x + y
  {
    if x == 0 && y == 0 then 0
    else (if x % 2 == 1 || y % 2 == 1 then 1 else 0) + 2 * Or(x / 2, y / 2)
  }

  /** x << k, one position at a time; what leaves the word is lost. */
  function Shl(x: Word, k: nat): Word {
    if k == 0 then x else Shl(x, k - 1) * 2 % WORD_SIZE
  }

  /** x >> k, one position at a time. */
  function Shr(x: nat, k: nat): (r: nat)
    ensures r <= x
  {
    if k == 0 then x else Shr(x, k - 1) / 2
  }

  predicate Bit(x: nat, i: nat) {
    if i == 0 then x % 2 == 1 else Bit(x / 2, i - 1)
  }

  /** The polynomial a word stands for. */
  function Bits(x: Word): (p: Poly)
    ensures Below(p, 64)
  {
    set i: nat | i < 64 && Bit(x, i)
  }

  /** The 128-bit polynomial held in a pair of words. */
  function Wide(h: Word, l: Word): Poly {
    Add(Shift(Bits(h), 64), Bits(l))
  }

  // ---- one bit

  lemma {:induction false} BitXor(x: nat, y: nat, i: nat)
    ensures Bit(Xor(x, y), i) == (Bit(x, i) != Bit(y, i))
  {
    if x == 0 && y == 0 {
      BitZero(i);
    } else {
      XorHalf(x, y);
      if i > 0 { BitXor(x / 2, y / 2, i - 1); }
    }
  }

  lemma XorHalf(x: nat, y: nat)
    ensures Xor(x, y) / 2 == Xor(x / 2, y / 2)
    ensures (Xor(x, y) % 2 == 1) == ((x % 2 == 1) != (y % 2 == 1))
  {
    if x != 0 || y != 0 {
      var h := Xor(x / 2, y / 2);
      assert Xor(x, y) == (x % 2 + y % 2) % 2 + 2 * h;
    }
  }

  lemma {:induction false} BitAnd(x: nat, y: nat, i: nat)
    ensures Bit(And(x, y), i) == (Bit(x, i) && Bit(y, i))
  {
    if x == 0 {
      BitZero(i);
    } else {
      assert And(x, y) / 2 == And(x / 2, y / 2);
      if i > 0 { BitAnd(x / 2, y / 2, i - 1); }
    }
  }

  lemma {:induction false} BitOr(x: nat, y: nat, i: nat)
    ensures Bit(Or(x, y), i) == (Bit(x, i) || Bit(y, i))
  {
    if x == 0 && y == 0 {
      BitZero(i);
    } else {
      var h := Or(x / 2, y / 2);
      assert Or(x, y) / 2 == h;
      if i > 0 { BitOr(x / 2, y / 2, i - 1); }
    }
  }

  lemma {:induction false} BitZero(i: nat)
    ensures !Bit(0, i)
  {
    if i > 0 { BitZero(i - 1); }
  }

  lemma {:induction false} BitHigh(x: nat, n: nat, i: nat)
    requires x < Pow2(n) && n <= i
    ensures !Bit(x, i)
  {
    if n == 0 {
      BitZero(i);
    } else {
      BitHigh(x / 2, n - 1, i - 1);
    }
  }

  /** Reducing modulo 2^n keeps the lowest n bits. */
  lemma {:induction false} BitMod(x: nat, n: nat, i: nat)
    requires i < n
    ensures Bit(x % Pow2(n), i) == Bit(x, i)
  {
    ModHalf(x, Pow2(n - 1));
    if i > 0 { BitMod(x / 2, n - 1, i - 1); }
  }

  lemma ModHalf(x: nat, p: nat)
    requires p > 0
    ensures x % (2 * p) / 2 == x / 2 % p
    ensures x % (2 * p) % 2 == x % 2
  {
    var q, r := x / (2 * p), x % (2 * p);
    assert x == 2 * (p * q) + r;
    assert x / 2 == p * q + r / 2;
    ModUnique(x / 2, p, q, r / 2);
  }

  lemma ModUnique(x: int, p: int, q: int, r: int)
    requires p > 0 && x == p * q + r && 0 <= r < p
    ensures x % p == r && x / p == q
  {
    var d := x / p - q;
    assert p * (x / p) + x % p == x;
    Distribute(p, q, d);
    if d >= 1 { MulMonotone(p, 1, d); }
    if d <= -1 { MulMonotone(p, d, -1); }
  }

  lemma Distribute(p: int, q: int, d: int)
    ensures p * (q + d) == p * q + p * d
  {}

  lemma MulMonotone(p: int, a: int, b: int)
    requires p >= 0 && a <= b
    ensures p * a <= p * b
  {}

  lemma Pow2Word()
    ensures Pow2(64) == WORD_SIZE
    ensures Pow2(63) == 0x8000_0000_0000_0000
    ensures Pow2(8) == 256
  {
    assert Pow2(8) == 256;
    Pow2Add(8, 8);
    Pow2Add(16, 16);
    Pow2Add(32, 32);
    assert Pow2(64) == 2 * Pow2(63);
  }

  lemma {:induction false} Pow2Add(i: nat, k: nat)
    ensures Pow2(i + k) == Pow2(i) * Pow2(k)
  {
    if k > 0 {
      Pow2Add(i, k - 1);
      assert Pow2(i + k) == 2 * Pow2(i + (k - 1));
    }
  }

  lemma BitShlOne(x: Word, i: nat)
    requires i < 64
    ensures Bit(x * 2 % WORD_SIZE, i) == (i > 0 && Bit(x, i - 1))
  {
    Pow2Word();
    if i == 0 {
      ModHalf(x * 2, Pow2(63));
    } else {
      BitMod(x * 2, 64, i);
      assert x * 2 / 2 == x;
    }
  }

  lemma {:induction false} BitShl(x: Word, k: nat, i: nat)
    requires i < 64
    ensures Bit(Shl(x, k), i) == (i >= k && Bit(x, i - k))
  {
    if k > 0 {
      BitShlOne(Shl(x, k - 1), i);
      if i > 0 { BitShl(x, k - 1, i - 1); }
    }
  }

  lemma {:induction false} BitShr(x: nat, k: nat, i: nat)
    ensures Bit(Shr(x, k), i) == Bit(x, i + k)
  {
    if k > 0 { BitShr(x, k - 1, i + 1); }
  }

  // ---- whole words

  lemma InBits(x: Word, i: nat)
    ensures i in Bits(x) <==> Bit(x, i)
  {
    if i >= 64 {
      Pow2Word();
      BitHigh(x, 64, i);
    }
  }

  /** Equal bits, equal numbers. */
  lemma {:induction false} BitsExtensional(x: nat, y: nat)
    requires forall i :: Bit(x, i) == Bit(y, i)
    ensures x == y
    decreases x + y
  {
    if x != 0 || y != 0 {
      assert Bit(x, 0) == Bit(y, 0);
      forall i: nat ensures Bit(x / 2, i) == Bit(y / 2, i) {
        assert Bit(x, i + 1) == Bit(y, i + 1);
      }
      BitsExtensional(x / 2, y / 2);
    }
  }

  lemma BitsInjective(x: Word, y: Word)
    requires Bits(x) == Bits(y)
    ensures x == y
  {
    forall i: nat ensures Bit(x, i) == Bit(y, i) {
      InBits(x, i);
      InBits(y, i);
    }
    BitsExtensional(x, y);
  }

  lemma {:induction false} XorBelow(x: nat, y: nat, n: nat)
    requires x < Pow2(n) && y < Pow2(n)
    ensures Xor(x, y) < Pow2(n)
  {
    if n > 0 && (x != 0 || y != 0) { XorBelow(x / 2, y / 2, n - 1); }
  }

  /** x ^ y on words. */
  function XorWord(x: Word, y: Word): (r: Word)
    ensures Bits(r) == Add(Bits(x), Bits(y))
  {
    Pow2Word();
    XorBelow(x, y, 64);
    assert forall i: nat :: i in Bits(Xor(x, y)) <==> i in Add(Bits(x), Bits(y)) by {
      forall i: nat ensures i in Bits(Xor(x, y)) <==> i in Add(Bits(x), Bits(y)) { BitXor(x, y, i); }
    }
    Xor(x, y)
  }

  lemma {:induction false} OrBelow(x: nat, y: nat, n: nat)
    requires x < Pow2(n) && y < Pow2(n)
    ensures Or(x, y) < Pow2(n)
  {
    if n > 0 && (x != 0 || y != 0) { OrBelow(x / 2, y / 2, n - 1); }
  }

  /** x | y on words. */
  function OrWord(x: Word, y: Word): (r: Word)
    ensures Bits(r) == Bits(x) + Bits(y)
  {
    Pow2Word();
    OrBelow(x, y, 64);
    assert forall i: nat :: i in Bits(Or(x, y)) <==> i in Bits(x) + Bits(y) by {
      forall i: nat ensures i in Bits(Or(x, y)) <==> i in Bits(x) + Bits(y) { BitOr(x, y, i); }
    }
    Or(x, y)
  }

  /** The word with exactly the given one-bits below n. */
  function FromBits(p: Poly, n: nat): (r: nat)
    ensures r < Pow2(n)
  {
    if n == 0 then 0 else FromBits(p, n - 1) + (if n - 1 in p then Pow2(n - 1) else 0)
  }

  lemma {:induction false} BitAddPower(x: nat, n: nat, i: nat)
    requires x < Pow2(n)
    ensures Bit(x + Pow2(n), i) == (Bit(x, i) || i == n)
  {
    if n == 0 {
      assert x == 0;
      if i > 0 { BitZero(i - 1); }
    } else {
      assert (x + Pow2(n)) / 2 == x / 2 + Pow2(n - 1) && (x + Pow2(n)) % 2 == x % 2;
      if i > 0 { BitAddPower(x / 2, n - 1, i - 1); }
    }
  }

  lemma {:induction false} BitFromBits(p: Poly, n: nat, i: nat)
    ensures Bit(FromBits(p, n), i) == (i in p && i < n)
  {
    if n == 0 {
      BitZero(i);
    } else {
      BitFromBits(p, n - 1, i);
      if n - 1 in p { BitAddPower(FromBits(p, n - 1), n - 1, i); }
    }
  }

  /** The word of a polynomial of degree below 64; Bits is its inverse. */
  function ToWord(p: Poly): (r: Word)
    requires Below(p, 64)
    ensures Bits(r) == p
  {
    Pow2Word();
    var r := FromBits(p, 64);
    assert forall i: nat :: i in Bits(r) <==> i in p by {
      forall i: nat ensures i in Bits(r) <==> i in p { BitFromBits(p, 64, i); }
    }
    r
  }

  lemma BitsShl(x: Word, k: nat)
    ensures Bits(Shl(x, k)) == Truncated(Shift(Bits(x), k), 64)
  {
    forall i: nat ensures i in Bits(Shl(x, k)) <==> i in Truncated(Shift(Bits(x), k), 64) {
      if i < 64 { BitShl(x, k, i); }
    }
  }

  lemma BitsShr(x: Word, k: nat)
    ensures forall i: nat :: i in Bits(Shr(x, k)) <==> i + k in Bits(x)
  {
    forall i: nat ensures i in Bits(Shr(x, k)) <==> i + k in Bits(x) {
      BitShr(x, k, i);
      InBits(Shr(x, k), i);
      InBits(x, i + k);
    }
  }

  lemma {:induction false} BitPow2(k: nat, i: nat)
    ensures Bit(Pow2(k), i) <==> i == k
  {
    if k == 0 {
      if i > 0 { BitZero(i - 1); }
    } else if i > 0 {
      BitPow2(k - 1, i - 1);
    }
  }

  lemma BitsZero()
    ensures Bits(0) == {}
  {
    forall i: nat ensures i !in Bits(0) { BitZero(i); }
  }

  lemma BitsOne()
    ensures Bits(1) == {0}
  {
    forall i: nat ensures i in Bits(1) <==> i == 0 {
      assert Pow2(0) == 1;
      BitPow2(0, i);
    }
  }

  /** A word below 2^n has no bit at n or above, and the other way round. */
  lemma BitsBelow(x: Word, n: nat)
    requires n <= 64
    ensures x < Pow2(n) <==> Below(Bits(x), n)
  {
    if x < Pow2(n) {
      forall i: nat | i in Bits(x) ensures i < n {
        if i >= n { BitHigh(x, n, i); }
      }
    }
    if Below(Bits(x), n) {
      forall i: nat ensures Bit(x % Pow2(n), i) == Bit(x, i) {
        InBits(x, i);
        if i < n { BitMod(x, n, i); } else { BitHigh(x % Pow2(n), n, i); }
      }
      BitsExtensional(x % Pow2(n), x);
    }
  }

  lemma BitsPower(k: nat)
    requires k < 64
    ensures Bits(Shl(1, k)) == {k}
  {
    BitsOne();
    BitsShl(1, k);
  }

  /** The single-bit mask 1 << k tests bit k. */
  lemma MaskBit(x: Word, k: nat)
    requires k < 64
    ensures And(x, Shl(1, k)) != 0 <==> k in Bits(x)
  {
    var m := Shl(1, k);
    BitsPower(k);
    InBits(m, k);
    if k in Bits(x) {
      BitAnd(x, m, k);
      BitZero(k);
    } else {
      forall i: nat ensures Bit(And(x, m), i) == Bit(0, i) {
        BitAnd(x, m, i);
        BitZero(i);
        InBits(m, i);
        InBits(x, i);
      }
      BitsExtensional(And(x, m), 0);
    }
  }

  /** And with 2^n - 1 is the remainder modulo 2^n. */
  lemma {:induction false} AndMask(x: nat, n: nat)
    ensures And(x, Pow2(n) - 1) == x % Pow2(n)
  {
    if n == 0 {
      AndZero(x);
    } else {
      ModHalf(x, Pow2(n - 1));
      assert (Pow2(n) - 1) / 2 == Pow2(n - 1) - 1 && (Pow2(n) - 1) % 2 == 1;
      AndMask(x / 2, n - 1);
    }
  }

  lemma {:induction false} AndZero(x: nat)
    ensures And(x, 0) == 0
  {
    if x > 0 { AndZero(x / 2); }
  }

  // ---- pairs of words

  lemma WideXor(h: Word, l: Word, h': Word, l': Word)
    ensures Wide(XorWord(h, h'), XorWord(l, l')) == Add(Wide(h, l), Wide(h', l'))
  {
    WideAdd(Bits(h), Bits(l), Bits(h'), Bits(l'));
  }

  lemma WideAdd(h: Poly, l: Poly, h': Poly, l': Poly)
    ensures Add(Shift(Add(h, h'), 64), Add(l, l')) == Add(Add(Shift(h, 64), l), Add(Shift(h', 64), l'))
  {
    assert Shift(Add(h, h'), 64) == Add(Shift(h, 64), Shift(h', 64));
  }

  /** The pair (y >> (64 - i), y << i) holds y * x^i. */
  lemma WideShift(y: Word, i: nat)
    requires 0 < i <= 64
    ensures Wide(Shr(y, 64 - i), Shl(y, i)) == Shift(Bits(y), i)
  {
    BitsShr(y, 64 - i);
    BitsShl(y, i);
    SplitShift(Bits(Shr(y, 64 - i)), Bits(y), i);
  }

  lemma SplitShift(h: Poly, p: Poly, i: nat)
    requires 0 < i <= 64 && Below(p, 64)
    requires forall n: nat :: n in h <==> n + (64 - i) in p
    ensures Add(Shift(h, 64), Truncated(Shift(p, i), 64)) == Shift(p, i)
  {
    var a := Add(Shift(h, 64), Truncated(Shift(p, i), 64));
    forall n: nat ensures n in a <==> n in Shift(p, i) {
      if n >= 64 {
        var m: nat := n - 64;
        assert m in h <==> m + (64 - i) in p;
      }
    }
  }
}
