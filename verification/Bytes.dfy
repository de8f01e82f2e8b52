/** Integers and byte strings: serial.c (big-endian) and plain memory copies of ints (little-endian). */
module Bytes {
  import opened Common

  type Text = seq<Byte>

  function Pow256(n: nat): (p: nat)
    ensures p > 0
  {
    if n == 0 then 1 else 256 * Pow256(n - 1)
  }

  /** n bytes, least significant first. */
  function Little(v: nat, n: nat): (s: Text)
    ensures |s| == n
  {
    if n == 0 then [] else [v % 256] + Little(v / 256, n - 1)
  }

  function FromLittle(s: Text): nat {
    if s == [] then 0 else s[0] + 256 * FromLittle(s[1..])
  }

  lemma {:induction false} LittleRoundTrip(v: nat, n: nat)
    requires v < Pow256(n)
    ensures FromLittle(Little(v, n)) == v
  {
    if n > 0 {
      LittleRoundTrip(v / 256, n - 1);
      assert Little(v, n)[1..] == Little(v / 256, n - 1);
    }
  }

  function Reversed(s: Text): (r: Text)
    ensures |r| == |s|
  {
    if s == [] then [] else Reversed(s[1..]) + [s[0]]
  }

  lemma {:induction false} ReversedSnoc(s: Text, b: Byte)
    ensures Reversed(s + [b]) == [b] + Reversed(s)
  {
    if s == [] {
      assert s + [b] == [b];
    } else {
      ReversedSnoc(s[1..], b);
      assert (s + [b])[1..] == s[1..] + [b];
    }
  }

  lemma {:induction false} ReversedTwice(s: Text)
    ensures Reversed(Reversed(s)) == s
  {
    if s != [] {
      ReversedSnoc(Reversed(s[1..]), s[0]);
      ReversedTwice(s[1..]);
    }
  }

  /** serial_int64 and serial_int32 on a little-endian machine: the bytes of the int, reversed. */
  function Big(v: nat, n: nat): (s: Text)
    ensures |s| == n
  {
    Reversed(Little(v, n))
  }

  function FromBig(s: Text): nat {
    FromLittle(Reversed(s))
  }

  lemma BigRoundTrip(v: nat, n: nat)
    requires v < Pow256(n)
    ensures FromBig(Big(v, n)) == v
  {
    ReversedTwice(Little(v, n));
    LittleRoundTrip(v, n);
  }

  predicate Fits(v: int, n: nat) {
    0 <= 2 * v + Pow256(n) && 2 * v < Pow256(n)
  }

  /** Two's complement, for the ids that mark segments. */
  function Signed(v: int, n: nat): (s: Text)
    requires Fits(v, n)
    ensures |s| == n
  {
    Little(if v < 0 then v + Pow256(n) else v, n)
  }

  function FromSigned(s: Text): int {
    var u := FromLittle(s);
    if 2 * u < Pow256(|s|) then u else u - Pow256(|s|)
  }

  lemma SignedRoundTrip(v: int, n: nat)
    requires Fits(v, n)
    ensures FromSigned(Signed(v, n)) == v
  {
    LittleRoundTrip(if v < 0 then v + Pow256(n) else v, n);
  }

  lemma Pow256Values()
    ensures Pow256(4) == 0x1_0000_0000 && Pow256(8) == 0x1_0000_0000_0000_0000
  {
    assert Pow256(1) == 256;
    assert Pow256(2) == 0x1_0000;
    assert Pow256(3) == 0x100_0000;
    assert Pow256(5) == 0x100_0000_0000;
    assert Pow256(6) == 0x1_0000_0000_0000;
    assert Pow256(7) == 0x100_0000_0000_0000;
  }

  // ---- files

  function Zeros(n: nat): (s: Text)
    ensures |s| == n
  {
    seq(n, _ => 0)
  }

  /** fseek and fwrite: what lies before and after stays, a gap reads as zeros. */
  function WriteAt(file: Text, pos: nat, s: Text): (r: Text)
    ensures |r| == if |file| >= pos + |s| then |file| else pos + |s|
  {
    var before := if |file| >= pos then file[..pos] else file + Zeros(pos - |file|);
    before + s + (if |file| >= pos + |s| then file[pos + |s|..] else [])
  }

  /** What is at pos in the file, if the file is that long. */
  predicate ReadsAt(file: Text, pos: nat, s: Text) {
    pos + |s| <= |file| && file[pos..pos + |s|] == s
  }

  lemma ReadAfterWrite(file: Text, pos: nat, s: Text)
    ensures ReadsAt(WriteAt(file, pos, s), pos, s)
  {}

  lemma ReadElsewhere(file: Text, pos: nat, s: Text, other: nat, t: Text)
    requires ReadsAt(file, other, t) && (other + |t| <= pos || pos + |s| <= other)
    ensures ReadsAt(WriteAt(file, pos, s), other, t)
  {
    var r := WriteAt(file, pos, s);
    assert r[other..other + |t|] == file[other..other + |t|];
  }

  // ---- buffers

  function Overlay(data: Text, pos: nat, s: Text): (r: Text)
    requires pos + |s| <= |data|
    ensures |r| == |data|
  {
    data[..pos] + s + data[pos + |s|..]
  }

  lemma OverlayTwice(d: Text, pos: nat, a: Text, b: Text)
    requires pos + |a| + |b| <= |d|
    ensures Overlay(Overlay(d, pos, a), pos + |a|, b) == Overlay(d, pos, a + b)
  {}

  /** memcpy into a buffer. */
  method CopyIn(data: array<Byte>, pos: nat, s: Text)
    requires pos + |s| <= data.Length
    modifies data
    ensures data[..] == Overlay(old(data[..]), pos, s)
  {
    var i := 0;
    while i < |s|
      invariant 0 <= i <= |s|
      invariant forall k :: 0 <= k < data.Length ==>
        data[k] == if pos <= k < pos + i then s[k - pos] else old(data[k])
    {
      data[pos + i] := s[i];
      i := i + 1;
    }
  }
}
