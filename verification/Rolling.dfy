/** The table-driven rolling fingerprint over the last 48 bytes. */
module Rolling {
  import opened Gf2
  import opened Words
  import opened Common
  import opened RabinPoly

  const SIZE: nat := 48
  const FINGERPRINT_PT: Word := 0xbfe6_b8a5_bf37_8d83
  const BREAKMARK_VALUE: Word := 0x78

  /** The polynomial a byte string spells, first byte at the highest exponents. */
  function Spell(w: seq<Byte>): Poly {
    if w == [] then {} else Add(Shift(Spell(w[..|w| - 1]), 8), Bits(w[|w| - 1]))
  }

  /** The moduli the table code handles: degree 8 to 63. */
  predicate Modulus(poly: Word) {
    poly != 0 && Fls64(poly) >= 9
  }

  function Degree(poly: Word): (k: nat)
    requires Modulus(poly)
    ensures 8 <= k < 64 && HasDegree(Bits(poly), k)
  {
    Fls64Degree(poly);
    Fls64(poly) - 1
  }

  /** The slow definition: the residue of the whole string, by long division. */
  ghost function Fingerprint(w: seq<Byte>, poly: Word): Word
    requires Modulus(poly)
  {
    SpellBelow(w);
    ToWord(Remainder(Spell(w), Bits(poly), Degree(poly), 8 * |w|))
  }

  ghost predicate Residue(fp: Word, p: Poly, poly: Word)
    requires Modulus(poly)
  {
    IsResidue(fp, p, Bits(poly), Degree(poly))
  }

  lemma ByteBits(m: Byte)
    ensures Below(Bits(m), 8)
  {
    Pow2Word();
    BitsBelow(m, 8);
  }

  lemma {:induction false} SpellBelow(w: seq<Byte>)
    ensures Below(Spell(w), 8 * |w|)
  {
    if w != [] {
      SpellBelow(w[..|w| - 1]);
      ByteBits(w[|w| - 1]);
    }
  }

  lemma {:induction false} SpellFirst(w: seq<Byte>)
    requires w != []
    ensures Spell(w) == Add(Shift(Bits(w[0]), 8 * (|w| - 1)), Spell(w[1..]))
  {
    var n := |w| - 1;
    if n == 0 {
      assert w[..0] == [] && w[1..] == [];
      assert Shift({}, 8) == {} && Shift(Bits(w[0]), 0) == Bits(w[0]);
    } else {
      SpellFirst(w[..n]);
      assert w[..n][1..] == w[1..][..n - 1];
      var a, b, m := Bits(w[0]), Spell(w[1..][..n - 1]), Bits(w[n]);
      assert Spell(w[1..]) == Add(Shift(b, 8), m);
      MoveUp(a, b, m, 8 * (n - 1));
    }
  }

  lemma MoveUp(a: Poly, b: Poly, m: Poly, e: nat)
    ensures Add(Shift(Add(Shift(a, e), b), 8), m) == Add(Shift(a, e + 8), Add(Shift(b, 8), m))
  {
    assert Shift(Add(Shift(a, e), b), 8) == Add(Shift(a, e + 8), Shift(b, 8));
  }

  lemma FingerprintUnique(fp: Word, w: seq<Byte>, poly: Word)
    requires Modulus(poly) && Residue(fp, Spell(w), poly)
    ensures fp == Fingerprint(w, poly)
  {
    ResidueWordUnique(fp, Fingerprint(w, poly), Spell(w), poly);
  }

  lemma FingerprintResidue(w: seq<Byte>, poly: Word)
    requires Modulus(poly)
    ensures Residue(Fingerprint(w, poly), Spell(w), poly)
  {}

  /** t, with the overflow bits of j * x^k taken out, is the residue of j * x^k. */
  ghost predicate CancelsOverflow(t: Word, j: Byte, poly: Word)
    requires Modulus(poly)
  {
    var k := Degree(poly);
    var r := Add(Bits(t), Truncated(Shift(Bits(j), k), 64));
    Below(r, k) && Congruent(r, Shift(Bits(j), k), Bits(poly))
  }

  /** What append8 does, on polynomials: P is the old value, J its 8 overflowing bits. */
  lemma AppendAlgebra(P: Poly, M: Poly, J: Poly, t: Poly, d: Poly, k: nat)
    requires 8 <= k < 64 && Below(P, k) && Below(M, 8)
    requires forall n: nat :: n in J <==> n + (k - 8) in P
    requires Below(Add(t, Truncated(Shift(J, k), 64)), k)
    requires Congruent(Add(t, Truncated(Shift(J, k), 64)), Shift(J, k), d)
    ensures var r := Add(Add(Truncated(Shift(P, 8), 64), M), t);
      Below(r, k) && Congruent(r, Add(Shift(P, 8), M), d)
  {
    var lo := Truncated(P, k - 8);
    var over := Truncated(Shift(J, k), 64);
    var r := Add(Add(Truncated(Shift(P, 8), 64), M), t);
    forall n: nat ensures n in Shift(P, 8) <==> n in Add(Shift(lo, 8), Shift(J, k)) {
      if n >= k {
        var m: nat := n - k;
        assert m in J <==> m + (k - 8) in P;
      }
    }
    assert Truncated(Shift(P, 8), 64) == Add(Shift(lo, 8), over);
    assert Shift(P, 8) == Add(Shift(lo, 8), Shift(J, k));
    var base := Add(Shift(lo, 8), M);
    assert r == Add(base, Add(t, over));
    CongruentRefl(base, d);
    CongruentAdd(base, base, Add(t, over), Shift(J, k), d);
    assert Add(base, Shift(J, k)) == Add(Shift(P, 8), M);
  }

  /** The globals T, U, shift and poly, which nothing writes after window_init has filled them. */
  datatype Tables = Tables(T: seq<Word>, U: seq<Word>, shift: nat, poly: Word) {

    ghost predicate ReadyT() {
      && |T| == 256 && Modulus(poly) && shift == Degree(poly) - 8
      && forall j: Byte :: j < 256 ==> CancelsOverflow(T[j], j, poly)
    }

    ghost predicate Ready() {
      && ReadyT() && |U| == 256
      && forall j: Byte :: j < 256 ==> Residue(U[j], Shift(Bits(j), 8 * (SIZE - 1)), poly)
    }

    /** append8; p is below 2^k, so the table index is a byte. */
    function Append8(p: Word, m: Byte): (r: Word)
      requires ReadyT() && Below(Bits(p), Degree(poly))
      ensures Residue(r, Add(Shift(Bits(p), 8), Bits(m)), poly)
    {
      var x := Shr(p, shift);
      BitsShr(p, shift);
      assert Below(Bits(x), 8);
      Pow2Word();
      BitsBelow(x, 8);
      ByteBits(m);
      BitsShl(p, 8);
      assert CancelsOverflow(T[x], x, poly);
      AppendAlgebra(Bits(p), Bits(m), Bits(x), Bits(T[x]), Bits(poly), Degree(poly));
      OrIsAdd(Shl(p, 8), m);
      XorWord(OrWord(Shl(p, 8), m), T[x])
    }
  }

  method CalcT(poly: Word) returns (T: array<Word>, shift: nat)
    requires Modulus(poly)
    ensures fresh(T) && forall U :: Tables(T[..], U, shift, poly).ReadyT()
  {
    T := new Word[256];
    var xshift := Fls64(poly) - 1;
    shift := xshift - 8;
    var T1 := Polymod(0, Shl(1, xshift), poly);
    BitsPower(xshift);
    WideLow(Shl(1, xshift));
    var j := 0;
    while j < 256
      invariant 0 <= j <= 256
      invariant forall i: Byte :: i < j ==> CancelsOverflow(T[i], i, poly)
    {
      var r := Polymmult(j, T1, poly);
      TableEntry(j, T1, r, poly);
      T[j] := OrWord(r, Shl(j, xshift));
      j := j + 1;
    }
  }

  /** x^(8 * 47) modulo poly, by 47 appends of a zero byte to 1. */
  method SizeShift(tables: Tables) returns (sizeshift: Word)
    requires tables.ReadyT()
    ensures Residue(sizeshift, {8 * (SIZE - 1)}, tables.poly)
  {
    sizeshift := 1;
    BitsOne();
    CongruentRefl({0}, Bits(tables.poly));
    var i := 1;
    while i < SIZE
      invariant 1 <= i <= SIZE
      invariant Residue(sizeshift, {8 * (i - 1)}, tables.poly)
    {
      var s := tables.Append8(sizeshift, 0);
      NextPower(sizeshift, s, 8 * (i - 1), tables.poly);
      sizeshift := s;
      i := i + 1;
    }
  }

  method WindowInit(poly: Word) returns (tables: Tables)
    requires Modulus(poly)
    ensures tables.Ready() && tables.poly == poly
  {
    var T, shift := CalcT(poly);
    tables := Tables(T[..], [], shift, poly);
    var sizeshift := SizeShift(tables);
    var U := new Word[256];
    var i := 0;
    while i < 256
      invariant 0 <= i <= 256
      invariant forall j: Byte :: j < i ==> Residue(U[j], Shift(Bits(j), 8 * (SIZE - 1)), poly)
    {
      var u := Polymmult(i, sizeshift, poly);
      ScaledPower(i, sizeshift, 8 * (SIZE - 1), u, poly);
      U[i] := u;
      i := i + 1;
    }
    tables := tables.(U := U[..]);
  }

  /** The SLIDE macro: drops the oldest byte of the ring and takes in m. */
  method Slide(tables: Tables, m: Byte, fp: Word, bufPos: int, buf: array<Byte>) returns (fp': Word, bufPos': int)
    requires tables.Ready() && RingOk(buf, bufPos)
    requires fp == Fingerprint(Window(buf[..], bufPos), tables.poly)
    modifies buf
    ensures RingOk(buf, bufPos')
    ensures Window(buf[..], bufPos') == old(Window(buf[..], bufPos))[1..] + [m]
    ensures fp' == Fingerprint(Window(buf[..], bufPos'), tables.poly)
  {
    bufPos' := bufPos + 1;
    if bufPos' >= SIZE { bufPos' := 0; }
    var om := buf[bufPos'];
    RingStep(buf[..], bufPos, m);
    SlideCorrect(tables, Window(buf[..], bufPos), fp, m);
    buf[bufPos'] := m;
    fp' := XorWord(fp, tables.U[om]);
    fp' := tables.Append8(fp', m);
  }

  lemma RingStep(b: seq<Byte>, pos: int, m: Byte)
    requires |b| >= SIZE && -1 <= pos < SIZE
    ensures var pos' := if pos + 1 >= SIZE then 0 else pos + 1;
      b[pos'] == Window(b, pos)[0] && Window(b[pos' := m], pos') == Window(b, pos)[1..] + [m]
  {}

  lemma SlideCorrect(tables: Tables, w: seq<Byte>, fp: Word, m: Byte)
    requires tables.Ready() && |w| == SIZE && fp == Fingerprint(w, tables.poly)
    ensures var fp0 := XorWord(fp, tables.U[w[0]]);
      Residue(fp0, Spell(w[1..]), tables.poly)
      && tables.Append8(fp0, m) == Fingerprint(w[1..] + [m], tables.poly)
  {
    var u := tables.U[w[0]];
    assert Residue(u, Shift(Bits(w[0]), 8 * (SIZE - 1)), tables.poly);
    FingerprintResidue(w, tables.poly);
    DropOldest(w, fp, u, tables.poly);
    SlidIn(tables, w[1..], XorWord(fp, u), m);
    FingerprintUnique(tables.Append8(XorWord(fp, u), m), w[1..] + [m], tables.poly);
  }

  /** The second half of SLIDE: append8 on the window without its oldest byte. */
  lemma SlidIn(tables: Tables, w: seq<Byte>, fp: Word, m: Byte)
    requires tables.ReadyT() && Residue(fp, Spell(w), tables.poly)
    ensures Residue(tables.Append8(fp, m), Spell(w + [m]), tables.poly)
  {
    var r, d := tables.Append8(fp, m), Bits(tables.poly);
    assert (w + [m])[..|w|] == w;
    CongruentShift(Bits(fp), Spell(w), d, 8);
    CongruentRefl(Bits(m), d);
    CongruentAdd(Shift(Bits(fp), 8), Shift(Spell(w), 8), Bits(m), Bits(m), d);
    CongruentTrans(Bits(r), Add(Shift(Bits(fp), 8), Bits(m)), Spell(w + [m]), d);
  }

  lemma OrIsAdd(x: Word, m: Byte)
    requires forall n :: n in Bits(x) ==> n >= 8
    ensures Bits(OrWord(x, m)) == Add(Bits(x), Bits(m))
  {
    ByteBits(m);
    assert forall n :: n in Bits(x) ==> n !in Bits(m);
  }

  lemma TableEntry(j: Byte, T1: Word, r: Word, poly: Word)
    requires Modulus(poly)
    requires Residue(T1, {Degree(poly)}, poly)
    requires Residue(r, Times(Bits(j), Bits(T1), 64), poly)
    ensures CancelsOverflow(OrWord(r, Shl(j, Degree(poly))), j, poly)
  {
    var k := Degree(poly);
    ScaledPower(j, T1, k, r, poly);
    BitsShl(j, k);
    var over := Truncated(Shift(Bits(j), k), 64);
    assert forall n :: n in Bits(r) ==> n < k;
    assert Add(Bits(r) + over, over) == Bits(r);
  }

  /** j * s is the residue of j * x^e when s is the residue of x^e. */
  lemma ScaledPower(j: Byte, s: Word, e: nat, r: Word, poly: Word)
    requires Modulus(poly) && Residue(s, {e}, poly)
    requires Residue(r, Times(Bits(j), Bits(s), 64), poly)
    ensures Residue(r, Shift(Bits(j), e), poly)
  {
    var d := Bits(poly);
    CongruentTimes(Bits(j), Bits(s), {e}, d, 64);
    TimesMonomial(Bits(j), e, 64);
    CongruentTrans(Bits(r), Times(Bits(j), Bits(s), 64), Shift(Bits(j), e), d);
  }

  lemma NextPower(s: Word, s': Word, e: nat, poly: Word)
    requires Modulus(poly) && Residue(s, {e}, poly)
    requires Residue(s', Add(Shift(Bits(s), 8), Bits(0)), poly)
    ensures Residue(s', {e + 8}, poly)
  {
    var d := Bits(poly);
    BitsZero();
    assert Add(Shift(Bits(s), 8), {}) == Shift(Bits(s), 8);
    CongruentShift(Bits(s), {e}, d, 8);
    assert Shift({e}, 8) == {e + 8};
    CongruentTrans(Bits(s'), Shift(Bits(s), 8), {e + 8}, d);
  }

  lemma DropOldest(w: seq<Byte>, fp: Word, u: Word, poly: Word)
    requires Modulus(poly) && |w| == SIZE && Residue(fp, Spell(w), poly)
    requires Residue(u, Shift(Bits(w[0]), 8 * (SIZE - 1)), poly)
    ensures Residue(XorWord(fp, u), Spell(w[1..]), poly)
  {
    SpellFirst(w);
    var first := Shift(Bits(w[0]), 8 * (SIZE - 1));
    CongruentAdd(Bits(fp), Spell(w), Bits(u), first, Bits(poly));
    assert Add(Spell(w), first) == Spell(w[1..]);
  }

  // ---- the ring

  ghost predicate RingOk(buf: array<Byte>, bufPos: int) {
    buf.Length >= SIZE && -1 <= bufPos < SIZE
  }

  /** The ring's bytes, oldest first. */
  function Window(buf: seq<Byte>, bufPos: int): (w: seq<Byte>)
    requires |buf| >= SIZE && -1 <= bufPos < SIZE
    ensures |w| == SIZE
  {
    buf[bufPos + 1..SIZE] + buf[..bufPos + 1]
  }

  function Zeros(n: nat): seq<Byte> {
    seq(n, i => 0)
  }

  /** The last 48 bytes of a stream that started from 48 zero bytes. */
  function LastWindow(s: seq<Byte>): (w: seq<Byte>)
    ensures |w| == SIZE
  {
    (Zeros(SIZE) + s)[|s|..]
  }

  lemma LastWindowStep(s: seq<Byte>, m: Byte)
    ensures LastWindow(s + [m]) == LastWindow(s)[1..] + [m]
  {}

  lemma {:induction false} SpellZeros(n: nat)
    ensures Spell(Zeros(n)) == {}
  {
    if n > 0 {
      SpellZeros(n - 1);
      assert Zeros(n)[..n - 1] == Zeros(n - 1);
      BitsZero();
      assert Shift({}, 8) == {};
    }
  }

  /** fp = 0 is right for the zeroed ring. */
  lemma FingerprintStart(poly: Word)
    requires Modulus(poly)
    ensures Fingerprint(LastWindow([]), poly) == 0
  {
    assert LastWindow([]) == Zeros(SIZE);
    SpellZeros(SIZE);
    BitsZero();
    CongruentRefl({}, Bits(poly));
    FingerprintUnique(0, Zeros(SIZE), poly);
  }

  /** Zero bytes in front of a string do not change its fingerprint: only the real bytes count. */
  lemma {:induction false} SpellPadded(n: nat, s: seq<Byte>)
    ensures Spell(Zeros(n) + s) == Spell(s)
  {
    if s == [] {
      assert Zeros(n) + s == Zeros(n);
      SpellZeros(n);
    } else {
      var t := Zeros(n) + s;
      assert t[..|t| - 1] == Zeros(n) + s[..|s| - 1];
      SpellPadded(n, s[..|s| - 1]);
    }
  }

  /** The modulus destor uses has degree 63, so every fingerprint is below 2^63. */
  lemma DefaultModulus(w: seq<Byte>)
    ensures Modulus(FINGERPRINT_PT) && Degree(FINGERPRINT_PT) == 63
    ensures Fingerprint(w, FINGERPRINT_PT) < 0x8000_0000_0000_0000
  {
    assert Fls64(FINGERPRINT_PT) == 64;
    FingerprintResidue(w, FINGERPRINT_PT);
    BitsBelow(Fingerprint(w, FINGERPRINT_PT), 63);
    Pow2Word();
  }

  lemma ZeroRing(buf: seq<Byte>)
    requires |buf| >= SIZE && forall i :: 0 <= i < |buf| ==> buf[i] == 0
    ensures Window(buf, -1) == LastWindow([])
  {}

  // ---- whole runs

  predicate Opened(tables: Tables) { true }

  predicate Seen(s: seq<Byte>) { true }

  /** tables.Ready(), carried unopened until Opened is mentioned, which keeps the loops cheap. */
  ghost predicate Initialised(tables: Tables) {
    forall t: Tables {:trigger Opened(t)} :: Opened(t) && t == tables ==> t.Ready()
  }

  /** The ring and fp are those after sliding over exactly the bytes of s, from fp = 0 and a
      zeroed ring; carried unopened until Seen is mentioned. */
  ghost predicate Covers(s: seq<Byte>, poly: Word, fp: Word, bufPos: int, buf: array<Byte>)
    reads buf
  {
    && RingOk(buf, bufPos)
    && forall w: seq<Byte> {:trigger Seen(w)} :: Seen(w) && w == s ==>
         Modulus(poly) && Window(buf[..], bufPos) == LastWindow(w) && fp == Fingerprint(LastWindow(w), poly)
  }

  method NewRing(poly: Word) returns (buf: array<Byte>)
    requires Modulus(poly)
    ensures fresh(buf) && Covers([], poly, 0, -1, buf)
  {
    buf := new Byte[128](_ => 0);
    FingerprintStart(poly);
    ZeroRing(buf[..]);
  }

  method SlideOver(tables: Tables, ghost s: seq<Byte>, m: Byte, fp: Word, bufPos: int, buf: array<Byte>)
    returns (fp': Word, bufPos': int)
    requires Initialised(tables) && Covers(s, tables.poly, fp, bufPos, buf)
    modifies buf
    ensures Covers(s + [m], tables.poly, fp', bufPos', buf)
  {
    assert Seen(s) && Opened(tables);
    fp', bufPos' := Slide(tables, m, fp, bufPos, buf);
    LastWindowStep(s, m);
  }

  /** Rolling equals direct: any number of SLIDE steps from fp = 0 and a zeroed ring. */
  method RollAll(tables: Tables, s: seq<Byte>) returns (fp: Word)
    requires Initialised(tables) && Modulus(tables.poly)
    ensures fp == Fingerprint(LastWindow(s), tables.poly)
  {
    var buf := NewRing(tables.poly);
    var bufPos, i := -1, 0;
    fp := 0;
    while i < |s|
      invariant 0 <= i <= |s|
      invariant fresh(buf) && Covers(s[..i], tables.poly, fp, bufPos, buf)
    {
      fp, bufPos := SlideOver(tables, s[..i], s[i], fp, bufPos, buf);
      assert s[..i + 1] == s[..i] + [s[i]];
      i := i + 1;
    }
    assert s[..|s|] == s && Seen(s);
  }
}
