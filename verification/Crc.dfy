/**
 The block CRC: byte at a time through a table, and eight bytes at a time through
 eight tables, both against division by the generator.
 */
module Crc {
  import opened Bits
  import opened Codes
  import opened Gf2

  const CRC_INIT: nat := 0xffff_ffff

  // The register after one more byte: eight bit steps.
  function Step(c: nat, b: Byte): (r: nat)
    requires c < TOP32
    ensures r < TOP32
  {
    ByteTop(b);
    XorBound32(c, Shl(b, 24));
    MulXN(Xor(c, Shl(b, 24)), 8)
  }

  /** The CRC register after a string of bytes. */
  function Update(c: nat, s: seq<Byte>): (r: nat)
    requires c < TOP32
    ensures r < TOP32
    decreases |s|
  {
    if s == [] then c else Step(Update(c, s[..|s| - 1]), s[|s| - 1])
  }

  lemma ByteTop(b: nat)
    requires b < 256
    ensures Shl(b, 24) < TOP32 && Shl(b, 24) == b * 0x100_0000
  {
    ShlIsMul(b, 24);
    Pow24();
  }

  lemma Pow24()
    ensures Pow2(24) == 0x100_0000 && Pow2(8) == 256 && Pow2(16) == 0x1_0000
  {
    assert Pow2(8) == 256;
    Pow2Add(8, 8);
    Pow2Add(16, 8);
  }

  lemma UpdateSnoc(c: nat, s: seq<Byte>, b: Byte)
    requires c < TOP32
    ensures Update(c, s + [b]) == Step(Update(c, s), b)
  {
    hide Step;
    assert (s + [b])[..|s|] == s;
  }

  /** Updates compose over concatenation. */
  lemma {:induction false} UpdateConcat(c: nat, s: seq<Byte>, t: seq<Byte>)
    requires c < TOP32
    ensures Update(c, s + t) == Update(Update(c, s), t)
    decreases |t|
  {
    hide Step;
    if t == [] {
      assert s + t == s;
    } else {
      var m := |t| - 1;
      UpdateConcat(c, s, t[..m]);
      assert (s + t)[..|s + t| - 1] == s + t[..m];
    }
  }

  // ----- byte at a time

  // BZ2_crc32Table[i]: eight bit steps from i at the top.
  function Entry(i: nat): (r: nat)
    requires i < 256
    ensures r < TOP32
  {
    ByteTop(i);
    MulXN(Shl(i, 24), 8)
  }

  lemma XorByte(a: nat, b: nat)
    requires a < 256 && b < 256
    ensures Xor(a, b) < 256
  {
    hide Xor;
    Pow24();
    XorBound(a, b, 8);
  }

  lemma SplitTop(c: nat)
    requires c < TOP32
    ensures var h, lo := c / 0x100_0000, c % 0x100_0000;
      h < 256 && c == Shl(h, 24) + lo && Xor(Shl(h, 24), lo) == c && Shl(lo, 8) == 0x100 * lo < TOP32
  {
    var h, lo := c / 0x100_0000, c % 0x100_0000;
    ByteTop(h);
    Pow24();
    ShlIsMul(lo, 8);
    hide Xor, Shl;
    XorDisjoint(h, lo, 24);
  }

  /** BZ_UPDATE_CRC: shifting out the top byte and adding its table entry is one byte step. */
  lemma TableStep(c: nat, b: Byte)
    requires c < TOP32
    ensures c / 0x100_0000 < 256 && Xor(c / 0x100_0000, b) < 256
    ensures Xor(0x100 * c % TOP32, Entry(Xor(c / 0x100_0000, b))) == Step(c, b)
  {
    hide *;
    var h, lo := c / 0x100_0000, c % 0x100_0000;
    TopConstants();
    SplitTop(c);
    XorByte(h, b);
    ByteTop(b);
    ByteTop(h);
    ByteTop(Xor(h, b));
    // c ^ b << 24 is the new index at the top and the low bytes below
    XorShl(h, b, 24);
    XorComm(Shl(h, 24), lo);
    XorAssoc(lo, Shl(h, 24), Shl(b, 24));
    MulXNXor(lo, Shl(Xor(h, b), 24), 8);
    MulXNShift(lo, 8);
    LowBytes(c);
    StepIs(c, b);
    EntryIs(Xor(h, b));
  }

  lemma TopConstants()
    ensures TOP32 == 0x1_0000_0000
  {
  }

  lemma LowBytes(c: nat)
    requires c < TOP32
    ensures 0x100 * c % TOP32 == 0x100 * (c % 0x100_0000)
  {
  }

  lemma StepIs(c: nat, b: Byte)
    requires c < TOP32
    ensures Xor(c, Shl(b, 24)) < TOP32 && Step(c, b) == MulXN(Xor(c, Shl(b, 24)), 8)
  {
    ByteTop(b);
    XorBound32(c, Shl(b, 24));
  }

  lemma EntryIs(i: nat)
    requires i < 256
    ensures Shl(i, 24) < TOP32 && Entry(i) == MulXN(Shl(i, 24), 8)
  {
    ByteTop(i);
  }

  method UpdateByte(c: nat, b: Byte) returns (r: nat)
    requires c < TOP32
    ensures r == Step(c, b) && r < TOP32
  {
    hide *;
    TopConstants();
    TableStep(c, b);
    r := Xor(0x100 * c % TOP32, Entry(Xor(c / 0x100_0000, b)));
  }

  // The byte-at-a-time loop from p to end.
  method UpdateBytes(c: nat, buf: seq<Byte>, p: nat, end: nat) returns (r: nat)
    requires c < TOP32 && p <= end <= |buf|
    ensures r == Update(c, buf[p..end]) && r < TOP32
  {
    hide *;
    r := c;
    var i := p;
    UpdateNothing(c, buf[p..p]);
    while i < end
      invariant p <= i <= end && r == Update(c, buf[p..i]) && r < TOP32
    {
      UpdateSnoc(c, buf[p..i], buf[i]);
      assert buf[p..i + 1] == buf[p..i] + [buf[i]];
      r := UpdateByte(r, buf[i]);
      i := i + 1;
    }
  }

  lemma UpdateNothing(c: nat, s: seq<Byte>)
    requires c < TOP32 && s == []
    ensures Update(c, s) == c
  {
  }

  // ----- strings of bytes as polynomials

  // The bytes as one big-endian number.
  function Poly(s: seq<Byte>): nat
    decreases |s|
  {
    if s == [] then 0 else Shl(Poly(s[..|s| - 1]), 8) + s[|s| - 1]
  }

  lemma PolySnoc(s: seq<Byte>, b: Byte)
    ensures Poly(s + [b]) == Shl(Poly(s), 8) + b && Poly(s + [b]) == Xor(Shl(Poly(s), 8), b)
  {
    assert (s + [b])[..|s|] == s;
    Pow24();
    hide Poly, Xor;
    XorDisjoint(Poly(s), b, 8);
  }

  lemma {:induction false} PolyBound(s: seq<Byte>)
    ensures Poly(s) < Pow2(8 * |s|)
    decreases |s|
  {
    if s != [] {
      PolyBound(s[..|s| - 1]);
      FieldBound(Poly(s[..|s| - 1]), s[|s| - 1], 8 * (|s| - 1));
    }
  }

  lemma FieldBound(v: nat, b: Byte, n: nat)
    requires v < Pow2(n)
    ensures Shl(v, 8) + b < Pow2(n + 8)
  {
    hide *;
    ShlMono(v + 1, Pow2(n), 8);
    ShlAdd(v, 1, 8);
    ShlPow2(n, 8);
    ByteUnit();
  }

  lemma ByteUnit()
    ensures Shl(1, 8) == 256
  {
    ShlIsMul(1, 8);
    Pow24();
  }

  lemma {:induction false} PolyConcat(s: seq<Byte>, t: seq<Byte>)
    ensures Poly(s + t) == Xor(Shl(Poly(s), 8 * |t|), Poly(t))
    decreases |t|
  {
    hide Poly, Xor, Shl;
    if t == [] {
      assert s + t == s;
      PolyNone();
      ShlNone(Poly(s));
      XorZero(Poly(s));
    } else {
      var t0, b := t[..|t| - 1], t[|t| - 1];
      PolyConcat(s, t0);
      assert s + t == s + t0 + [b] && t == t0 + [b];
      PolySnoc(s + t0, b);
      PolySnoc(t0, b);
      XorShl(Shl(Poly(s), 8 * |t0|), Poly(t0), 8);
      ShlPlus(Poly(s), 8 * |t0|, 8);
      XorAssoc(Shl(Poly(s), 8 * |t|), Shl(Poly(t0), 8), b);
    }
  }

  lemma PolyNone()
    ensures Poly([]) == 0
  {
  }

  // The message with the register added to its first four bytes.
  function Seeded(c: nat, s: seq<Byte>): nat
    requires 4 <= |s|
  {
    Xor(Poly(s), Shl(c, 8 * |s| - 32))
  }

  // Up to four bytes meet the register where they stand.
  lemma {:induction false} UpdateShort(c: nat, s: seq<Byte>)
    requires c < TOP32 && |s| <= 4
    ensures Shl(Poly(s), 32 - 8 * |s|) < TOP32
    ensures Update(c, s) == (XorBound32(c, Shl(Poly(s), 32 - 8 * |s|));
                             MulXN(Xor(c, Shl(Poly(s), 32 - 8 * |s|)), 8 * |s|))
    decreases |s|
  {
    hide *;
    TopConstants();
    WordBound(s);
    if s == [] {
      UpdateNothing(c, s);
      PolyNone();
      MulXNNone(c);
    } else {
      var n := |s| - 1;
      var s0, b := s[..n], s[n];
      assert s == s0 + [b];
      UpdateShort(c, s0);
      UpdateSnoc(c, s0, b);
      PolySnoc(s0, b);
      UpdateOneMore(c, Poly(s0), b, n);
      WordBound(s0);
    }
  }

  lemma MulXNNone(c: nat)
    requires c < TOP32
    ensures Shl(0, 32) == 0 && Xor(c, 0) == c && MulXN(c, 0) == c
  {
    XorZero(c);
    ShlIsMul(0, 32);
  }

  lemma WordBound(s: seq<Byte>)
    requires |s| <= 4
    ensures Shl(Poly(s), 32 - 8 * |s|) < TOP32
  {
    hide *;
    PolyBound(s);
    ShlBelow(Poly(s), 8 * |s|, 32 - 8 * |s|);
    Pow2Is64();
    TopConstants();
  }

  lemma UpdateOneMore(c: nat, v: nat, b: Byte, n: nat)
    requires c < TOP32 && n < 4 && Shl(v, 32 - 8 * n) < TOP32 && Shl(Xor(Shl(v, 8), b), 24 - 8 * n) < TOP32
    ensures Xor(c, Shl(v, 32 - 8 * n)) < TOP32 && Xor(c, Shl(Xor(Shl(v, 8), b), 24 - 8 * n)) < TOP32
    ensures Step(MulXN(Xor(c, Shl(v, 32 - 8 * n)), 8 * n), b) ==
      MulXN(Xor(c, Shl(Xor(Shl(v, 8), b), 24 - 8 * n)), 8 * n + 8)
  {
    hide *;
    TopConstants();
    var a, m := Xor(c, Shl(v, 32 - 8 * n)), 24 - 8 * n;
    XorBound32(c, Shl(v, 32 - 8 * n));
    ByteTop(b);
    ShlPlus(b, m, 8 * n);
    ByteUp(b, m, 8 * n);
    StepIs(MulXN(a, 8 * n), b);
    MulXNShift(Shl(b, m), 8 * n);
    MulXNXor(a, Shl(b, m), 8 * n);
    MulXNPlus(Xor(a, Shl(b, m)), 8 * n, 8);
    XorShl(Shl(v, 8), b, m);
    ShlPlus(v, 8, m);
    XorAssoc(c, Shl(v, 32 - 8 * n), Shl(b, m));
  }

  lemma ByteUp(b: nat, m: nat, n: nat)
    requires b < 256 && m + n <= 24
    ensures Shl(b, m) < TOP32 && Shl(b, m + n) < TOP32
  {
    hide *;
    Pow24();
    Pow2Is64();
    TopConstants();
    ShlBelow(b, 8, m);
    ShlBelow(b, 8, m + n);
    Pow2Mono(8 + m, 32);
    Pow2Mono(8 + m + n, 32);
  }

  /** The register after at least four bytes is x^32 times the seeded message, modulo the generator. */
  lemma {:induction false} UpdateLong(c: nat, s: seq<Byte>)
    requires c < TOP32 && 4 <= |s|
    ensures Update(c, s) == MulXN(Rem(Seeded(c, s)), 32)
    decreases |s|
  {
    hide *;
    TopConstants();
    if |s| == 4 {
      UpdateShort(c, s);
      ShlNone(Poly(s));
      ShlNone(c);
      XorComm(c, Poly(s));
      WordBound(s);
      XorBound32(c, Poly(s));
      RemSmall(Xor(c, Poly(s)));
      SeededIs(c, s);
    } else {
      var n := |s| - 1;
      var s0, b := s[..n], s[n];
      assert s == s0 + [b];
      UpdateLong(c, s0);
      UpdateSnoc(c, s0, b);
      SeededSnoc(c, s0, b);
      var v := Seeded(c, s0);
      RemXor(Shl(v, 8), b);
      RemShl(v, 8);
      ByteSmall(b);
      RemSmall(b);
      StepIs(MulXN(Rem(v), 32), b);
      MulXNPlus(Rem(v), 32, 8);
      MulXNPlus(Rem(v), 8, 32);
      ByteTop(b);
      MulXNShift(b, 24);
      MulXNPlus(b, 24, 8);
      MulXNXor(MulXN(Rem(v), 32), Shl(b, 24), 8);
      MulXNXor(MulXN(Rem(v), 8), b, 32);
    }
  }

  lemma ByteSmall(b: nat)
    requires b < 256
    ensures b < TOP32
  {
  }

  lemma SeededIs(c: nat, s: seq<Byte>)
    requires 4 <= |s|
    ensures Seeded(c, s) == Xor(Poly(s), Shl(c, 8 * |s| - 32))
  {
  }

  lemma SeededSnoc(c: nat, s: seq<Byte>, b: Byte)
    requires 4 <= |s|
    ensures Seeded(c, s + [b]) == Xor(Shl(Seeded(c, s), 8), b)
  {
    hide *;
    SeededIs(c, s);
    SeededIs(c, s + [b]);
    PolySnoc(s, b);
    var k := 8 * |s| - 32;
    XorShl(Poly(s), Shl(c, k), 8);
    ShlPlus(c, k, 8);
    XorAssoc(Shl(Poly(s), 8), b, Shl(c, k + 8));
    XorComm(b, Shl(c, k + 8));
    XorAssoc(Shl(Poly(s), 8), Shl(c, k + 8), b);
  }

  // ----- eight bytes at a time

  // crc32_s8[k][i]: the step of byte i and then k zero bytes.
  function Slice(k: nat, i: nat): (r: nat)
    requires i < 256
    ensures r < TOP32
  {
    ByteTop(i);
    MulXN(Shl(i, 24), 8 * (k + 1))
  }

  /** The meaning of the k-th slicing table. */
  lemma {:induction false} SliceMeaning(k: nat, i: Byte)
    ensures Slice(k, i) == Update(0, [i] + seq(k, _ => 0))
    decreases k
  {
    hide *;
    TopConstants();
    SliceIs(k, i);
    if k == 0 {
      assert [i] + seq(0, _ => 0) == [] + [i];
      UpdateSnoc(0, [], i);
      UpdateNothing(0, []);
      StepIs(0, i);
      XorZero(Shl(i, 24));
    } else {
      SliceMeaning(k - 1, i);
      SliceIs(k - 1, i);
      assert [i] + seq(k, _ => 0) == [i] + seq(k - 1, _ => 0) + [0];
      UpdateSnoc(0, [i] + seq(k - 1, _ => 0), 0);
      StepIs(Slice(k - 1, i), 0);
      ZeroByte(Slice(k - 1, i));
      MulXNPlus(Shl(i, 24), 8 * k, 8);
    }
  }

  lemma ZeroByte(c: nat)
    ensures Shl(0, 24) == 0 && Xor(c, 0) == c
  {
    ByteTop(0);
    XorZero(c);
  }

  lemma SliceIs(k: nat, i: nat)
    requires i < 256
    ensures Shl(i, 24) < TOP32 && Slice(k, i) == MulXN(Shl(i, 24), 8 * k + 8)
  {
    ByteTop(i);
  }

  // Byte j (0 lowest) of a word.
  function ByteAt(w: nat, j: nat): (b: Byte) {
    Shr(w, 8 * j) % 256
  }

  // A byte k places below the top needs k fewer byte steps.
  lemma SlicePlace(i: nat, j: nat, k: nat)
    requires i < 256 && j <= 3
    ensures Shl(i, 8 * j) < TOP32 && MulXN(Shl(i, 8 * j), 8 * k + 8 + (24 - 8 * j)) == Slice(k, i)
  {
    hide *;
    ByteUp(i, 8 * j, 24 - 8 * j);
    ShlPlus(i, 8 * j, 24 - 8 * j);
    MulXNShift(Shl(i, 8 * j), 24 - 8 * j);
    MulXNPlus(Shl(i, 8 * j), 24 - 8 * j, 8 * k + 8);
    SliceIs(k, i);
  }

  lemma WordBytes(w: nat)
    requires w < TOP32
    ensures w == Xor(Shl(ByteAt(w, 3), 24), Xor(Shl(ByteAt(w, 2), 16), Xor(Shl(ByteAt(w, 1), 8), ByteAt(w, 0))))
  {
    hide Xor, Shl, Shr;
    var b3, b2, b1, b0 := w / 0x100_0000, w / 0x1_0000 % 256, w / 0x100 % 256, w % 256;
    WordDigits(w);
    ShrIsDiv(w, 24);
    ShrIsDiv(w, 16);
    ShrIsDiv(w, 8);
    ShrIsDiv(w, 0);
    Pow24();
    assert Pow2(0) == 1;
    ShlIsMul(b1, 8);
    ShlIsMul(b2, 16);
    ShlIsMul(b3, 24);
    XorDisjoint(b1, b0, 8);
    XorDisjoint(b2, b1 * 0x100 + b0, 16);
    XorDisjoint(b3, b2 * 0x1_0000 + b1 * 0x100 + b0, 24);
  }

  lemma WordDigits(w: nat)
    requires w < TOP32
    ensures var b3, b2, b1, b0 := w / 0x100_0000, w / 0x1_0000 % 256, w / 0x100 % 256, w % 256;
      b3 < 256 && b3 % 256 == b3 && w == b3 * 0x100_0000 + b2 * 0x1_0000 + b1 * 0x100 + b0
  {
    assert w / 0x1_0000 == 0x100 * (w / 0x100_0000) + w / 0x1_0000 % 256;
    assert w / 0x100 == 0x100 * (w / 0x1_0000) + w / 0x100 % 256;
    assert w == 0x100 * (w / 0x100) + w % 256;
  }

  // The four table entries for one word, k zero bytes further on.
  function FourSlices(w: nat, k: nat): nat {
    Xor(Slice(k + 3, ByteAt(w, 3)),
        Xor(Slice(k + 2, ByteAt(w, 2)), Xor(Slice(k + 1, ByteAt(w, 1)), Slice(k, ByteAt(w, 0)))))
  }

  lemma SlicedWord(w: nat, k: nat)
    requires w < TOP32
    ensures FourSlices(w, k) == MulXN(w, 8 * k + 32)
  {
    hide Xor, Shl, Slice, MulXN, ByteAt;
    var n := 8 * k + 32;
    var b3, b2, b1, b0 := ByteAt(w, 3), ByteAt(w, 2), ByteAt(w, 1), ByteAt(w, 0);
    WordBytes(w);
    SlicePlace(b3, 3, k + 3);
    SlicePlace(b2, 2, k + 2);
    SlicePlace(b1, 1, k + 1);
    SlicePlace(b0, 0, k);
    ShlNone(b0);
    MulXNXor(Shl(b1, 8), b0, n);
    MulXNXor(Shl(b2, 16), Xor(Shl(b1, 8), b0), n);
    MulXNXor(Shl(b3, 24), Xor(Shl(b2, 16), Xor(Shl(b1, 8), b0)), n);
  }

  lemma WordOf(s: seq<Byte>)
    requires |s| == 4
    ensures Poly(s) < TOP32
  {
    hide *;
    WordBound(s);
    ShlNone(Poly(s));
  }

  /** Eight table lookups are eight byte steps. */
  lemma EightBytes(c: nat, s: seq<Byte>)
    requires c < TOP32 && |s| == 8
    ensures var one, two := Xor(Poly(s[..4]), c), Poly(s[4..]);
      Update(c, s) == Xor(FourSlices(one, 4), FourSlices(two, 0))
  {
    hide *;
    var one, two := Xor(Poly(s[..4]), c), Poly(s[4..]);
    assert s == s[..4] + s[4..];
    UpdateConcat(c, s[..4], s[4..]);
    WordOf(s[..4]);
    WordOf(s[4..]);
    UpdateShort(c, s[..4]);
    UpdateShort(Update(c, s[..4]), s[4..]);
    ShlNone(Poly(s[..4]));
    ShlNone(two);
    XorComm(c, Poly(s[..4]));
    XorBound32(Poly(s[..4]), c);
    SlicedWord(one, 4);
    SlicedWord(two, 0);
    MulXNPlus(one, 32, 32);
    MulXNXor(MulXN(one, 32), two, 32);
  }

  /** BZ2_crc32_update without carry-less multiply: for every buffer, starting alignment and
      register, the result is the byte-at-a-time CRC. */
  method UpdateSliced(c: nat, buf: seq<Byte>, address: nat) returns (crc: nat)
    requires c < TOP32
    ensures crc == Update(c, buf) && crc < TOP32
  {
    hide *;
    crc := c;
    var p, end := 0, |buf|;
    UpdateNothing(c, buf[..0]);
    while p < end && (address + p) % 4 != 0
      invariant 0 <= p <= end && crc == Update(c, buf[..p]) && crc < TOP32
    {
      UpdateSnoc(c, buf[..p], buf[p]);
      assert buf[..p + 1] == buf[..p] + [buf[p]];
      crc := UpdateByte(crc, buf[p]);
      p := p + 1;
    }
    while p + 8 <= end
      invariant 0 <= p <= end && crc == Update(c, buf[..p]) && crc < TOP32
    {
      var w := buf[p..p + 8];
      EightBytes(crc, w);
      UpdateConcat(c, buf[..p], w);
      assert buf[..p + 8] == buf[..p] + w;
      var one, two := Xor(Poly(w[..4]), crc), Poly(w[4..]);
      crc := Xor(FourSlices(one, 4), FourSlices(two, 0));
      p := p + 8;
    }
    var tail := UpdateBytes(crc, buf, p, end);
    UpdateConcat(c, buf[..p], buf[p..end]);
    assert buf == buf[..p] + buf[p..end];
    crc := tail;
  }

  lemma InitBound()
    ensures CRC_INIT < TOP32
  {
  }
}
