/**
 The fold constants of the carry-less-multiply CRC are what they are called: powers
 of x modulo the generator, worked out eight steps at a time on 32-bit words.
 */
module FoldConstants {
  import opened Bits
  import opened Gf2

  // ----- the words

  function Times(w: bv32): bv32 {
    if w >= 0x8000_0000 then (w << 1) ^ 0x04c1_1db7 else w << 1
  }

  function Times8(w: bv32): bv32 {
    Times(Times(Times(Times(Times(Times(Times(Times(w))))))))
  }

  // Flag k of a word.
  predicate B(w: bv32, k: nat)
    requires k < 32
  {
    (w >> k) & 1 == 1
  }

  // The word, most significant bit first.
  function BitsOf(w: bv32): (s: seq<bool>)
    ensures |s| == 32
  {
    seq(32, i requires 0 <= i < 32 => B(w, 31 - i))
  }

  // Where the generator has a term below its leading one.
  predicate Tap(k: int) {
    k in {0, 1, 2, 4, 5, 7, 8, 10, 11, 12, 16, 22, 23, 26}
  }

  lemma Flags0(w: bv32)
    ensures B(Times(w), 0) == B(w, 31)
    ensures B(Times(w), 1) == (B(w, 0) != B(w, 31))
    ensures B(Times(w), 2) == (B(w, 1) != B(w, 31))
    ensures B(Times(w), 3) == B(w, 2)
    ensures B(Times(w), 4) == (B(w, 3) != B(w, 31))
    ensures B(Times(w), 5) == (B(w, 4) != B(w, 31))
    ensures B(Times(w), 6) == B(w, 5)
    ensures B(Times(w), 7) == (B(w, 6) != B(w, 31))
  {
  }

  lemma Flags1(w: bv32)
    ensures B(Times(w), 8) == (B(w, 7) != B(w, 31))
    ensures B(Times(w), 9) == B(w, 8)
    ensures B(Times(w), 10) == (B(w, 9) != B(w, 31))
    ensures B(Times(w), 11) == (B(w, 10) != B(w, 31))
    ensures B(Times(w), 12) == (B(w, 11) != B(w, 31))
    ensures B(Times(w), 13) == B(w, 12)
    ensures B(Times(w), 14) == B(w, 13)
    ensures B(Times(w), 15) == B(w, 14)
  {
  }

  lemma Flags2(w: bv32)
    ensures B(Times(w), 16) == (B(w, 15) != B(w, 31))
    ensures B(Times(w), 17) == B(w, 16)
    ensures B(Times(w), 18) == B(w, 17)
    ensures B(Times(w), 19) == B(w, 18)
    ensures B(Times(w), 20) == B(w, 19)
    ensures B(Times(w), 21) == B(w, 20)
    ensures B(Times(w), 22) == (B(w, 21) != B(w, 31))
    ensures B(Times(w), 23) == (B(w, 22) != B(w, 31))
  {
  }

  lemma Flags3(w: bv32)
    ensures B(Times(w), 24) == B(w, 23)
    ensures B(Times(w), 25) == B(w, 24)
    ensures B(Times(w), 26) == (B(w, 25) != B(w, 31))
    ensures B(Times(w), 27) == B(w, 26)
    ensures B(Times(w), 28) == B(w, 27)
    ensures B(Times(w), 29) == B(w, 28)
    ensures B(Times(w), 30) == B(w, 29)
    ensures B(Times(w), 31) == B(w, 30)
  {
  }

  // One step moves every flag up; the top one, if set, brings in the generator.
  lemma FlagStep(w: bv32, k: nat)
    requires k < 32
    ensures B(Times(w), k) == ((0 < k && B(w, k - 1)) != (B(w, 31) && Tap(k)))
  {
    hide Times, B;
    if k < 8 {
      Flags0(w);
    } else if k < 16 {
      Flags1(w);
    } else if k < 24 {
      Flags2(w);
    } else {
      Flags3(w);
    }
  }

  function Shifted(s: seq<bool>): (t: seq<bool>)
    requires |s| == 32
    ensures |t| == 32
  {
    seq(32, i requires 0 <= i < 32 => (i < 31 && s[i + 1]) != (s[0] && Tap(31 - i)))
  }

  lemma TimesBits(w: bv32)
    ensures BitsOf(Times(w)) == Shifted(BitsOf(w))
  {
    hide B, Times, Tap;
    forall i | 0 <= i < 32
      ensures BitsOf(Times(w))[i] == Shifted(BitsOf(w))[i]
    {
      FlagStep(w, 31 - i);
    }
  }

  lemma PolyTaps(k: nat)
    requires k < 32
    ensures B(0x04c1_1db7, k) == Tap(k)
  {
    hide B;
    PolyFlags();
  }

  lemma PolyFlags()
    ensures B(0x04c1_1db7, 0) && B(0x04c1_1db7, 1) && B(0x04c1_1db7, 2) && !B(0x04c1_1db7, 3) && B(0x04c1_1db7, 4)
      && B(0x04c1_1db7, 5) && !B(0x04c1_1db7, 6) && B(0x04c1_1db7, 7)
    ensures B(0x04c1_1db7, 8) && !B(0x04c1_1db7, 9) && B(0x04c1_1db7, 10) && B(0x04c1_1db7, 11) && B(0x04c1_1db7, 12)
      && !B(0x04c1_1db7, 13) && !B(0x04c1_1db7, 14) && !B(0x04c1_1db7, 15)
    ensures B(0x04c1_1db7, 16) && !B(0x04c1_1db7, 17) && !B(0x04c1_1db7, 18) && !B(0x04c1_1db7, 19)
      && !B(0x04c1_1db7, 20) && !B(0x04c1_1db7, 21) && B(0x04c1_1db7, 22) && B(0x04c1_1db7, 23)
    ensures !B(0x04c1_1db7, 24) && !B(0x04c1_1db7, 25) && B(0x04c1_1db7, 26) && !B(0x04c1_1db7, 27)
      && !B(0x04c1_1db7, 28) && !B(0x04c1_1db7, 29) && !B(0x04c1_1db7, 30) && !B(0x04c1_1db7, 31)
  {
  }

  // ----- words as numbers

  lemma ValSnoc(s: seq<bool>, b: bool)
    ensures Val(s + [b]) == 2 * Val(s) + (if b then 1 else 0)
  {
    assert (s + [b])[..|s|] == s;
  }

  lemma {:induction false} ValXor(s: seq<bool>, t: seq<bool>, u: seq<bool>)
    requires |s| == |t| == |u| && forall i :: 0 <= i < |s| ==> u[i] == (s[i] != t[i])
    ensures Val(u) == Xor(Val(s), Val(t))
    decreases |s|
  {
    hide Xor;
    if s == [] {
      XorZero(0);
    } else {
      var n := |s| - 1;
      ValXor(s[..n], t[..n], u[..n]);
      XorUnfold(Val(s), Val(t));
    }
  }

  lemma {:induction false} ValFront(b: bool, s: seq<bool>)
    ensures Val([b] + s) == Val(s) + (if b then Pow2(|s|) else 0)
    decreases |s|
  {
    if s == [] {
      assert [b][..0] == [];
    } else {
      var n := |s| - 1;
      ValFront(b, s[..n]);
      assert ([b] + s)[..|s|] == [b] + s[..n];
    }
  }

  lemma ShiftedVal(s: seq<bool>, d: seq<bool>)
    requires |s| == 32 && d == s[1..] + [false]
    ensures s[0] ==> Val(Shifted(s)) == Xor(Val(d), Val(BitsOf(0x04c1_1db7)))
    ensures !s[0] ==> Shifted(s) == d
  {
    hide Xor, Val, Tap, B;
    if s[0] {
      forall i | 0 <= i < 32
        ensures Shifted(s)[i] == (d[i] != BitsOf(0x04c1_1db7)[i])
      {
        PolyTaps(31 - i);
      }
      ValXor(d, BitsOf(0x04c1_1db7), Shifted(s));
    }
  }

  lemma ValParts(s: seq<bool>, d: seq<bool>)
    requires |s| == 32 && d == s[1..] + [false]
    ensures Val(s[1..]) < TOP31 && Val(d) == 2 * Val(s[1..]) && Val(s) == Val(s[1..]) + (if s[0] then TOP31 else 0)
  {
    hide Val, Pow2;
    Pow31();
    ToBitsVal(s[1..]);
    assert s == [s[0]] + s[1..];
    ValFront(s[0], s[1..]);
    ValSnoc(s[1..], false);
  }

  /** One word step multiplies by x. */
  lemma TimesIsMulX(w: bv32)
    requires Val(BitsOf(0x04c1_1db7)) == POLY
    ensures Val(BitsOf(w)) < TOP32 && Val(BitsOf(Times(w))) == MulX(Val(BitsOf(w)))
  {
    hide Times, BitsOf, Xor, Val, Shifted;
    var s := BitsOf(w);
    var d := s[1..] + [false];
    TimesBits(w);
    ShiftedVal(s, d);
    ValParts(s, d);
  }

  // The value of eight bits.
  lemma ValByte(s: seq<bool>, k: nat)
    requires k + 8 <= |s|
    ensures Val(s[k..k + 8]) == N(s[k], 128) + N(s[k + 1], 64) + N(s[k + 2], 32) + N(s[k + 3], 16)
      + N(s[k + 4], 8) + N(s[k + 5], 4) + N(s[k + 6], 2) + N(s[k + 7], 1)
  {
    hide Val;
    ValFour(s[k..k + 4]);
    ValFour(s[k + 4..k + 8]);
    ValJoin(s[k..k + 4], s[k + 4..k + 8]);
    ShlIsMul(Val(s[k..k + 4]), 4);
    assert Pow2(4) == 16;
    assert s[k..k + 8] == s[k..k + 4] + s[k + 4..k + 8];
  }

  function N(b: bool, v: nat): nat { if b then v else 0 }

  lemma ValFour(s: seq<bool>)
    requires |s| == 4
    ensures Val(s) == N(s[0], 8) + N(s[1], 4) + N(s[2], 2) + N(s[3], 1)
  {
    assert s == [s[0]] + [s[1]] + [s[2]] + [s[3]];
    ValSnoc([], s[0]);
    ValSnoc([s[0]], s[1]);
    ValSnoc([s[0]] + [s[1]], s[2]);
    ValSnoc([s[0]] + [s[1]] + [s[2]], s[3]);
    assert [] + [s[0]] == [s[0]];
    assert Val([]) == 0;
    hide Val;
  }

  lemma {:induction false} ValJoin(s: seq<bool>, t: seq<bool>)
    ensures Val(s + t) == Shl(Val(s), |t|) + Val(t)
    decreases |t|
  {
    if t == [] {
      assert s + t == s;
    } else {
      var n := |t| - 1;
      ValJoin(s, t[..n]);
      assert (s + t)[..|s + t| - 1] == s + t[..n];
    }
  }

  // A word from the values of its four bytes.
  lemma ValWord(s: seq<bool>, b3: nat, b2: nat, b1: nat, b0: nat)
    requires |s| == 32 && Val(s[0..8]) == b3 && Val(s[8..16]) == b2 && Val(s[16..24]) == b1 && Val(s[24..32]) == b0
    ensures Val(s) == 0x100_0000 * b3 + 0x1_0000 * b2 + 0x100 * b1 + b0
  {
    hide Val, Shl;
    ValJoin(s[..8], s[8..16]);
    ValJoin(s[..16], s[16..24]);
    ValJoin(s[..24], s[24..]);
    assert s[0..8] == s[..8] && s[24..32] == s[24..];
    assert s[..8] + s[8..16] == s[..16] && s[..16] + s[16..24] == s[..24] && s[..24] + s[24..] == s;
    ShlIsMul(b3, 8);
    ShlIsMul(Val(s[..16]), 8);
    ShlIsMul(Val(s[..24]), 8);
    assert Pow2(8) == 256;
  }

  lemma Value32()
    ensures Val(BitsOf(0x04c1_1db7)) == 0x04c1_1db7
  {
    hide B, Val, BitsOf;
    PolyFlags();
    BytePart(0x04c1_1db7, 0);
    BytePart(0x04c1_1db7, 8);
    BytePart(0x04c1_1db7, 16);
    BytePart(0x04c1_1db7, 24);
    ValWord(BitsOf(0x04c1_1db7), 0x04, 0xc1, 0x1d, 0xb7);
  }

  lemma Flags64()
    ensures B(0x490d_678d, 0) && !B(0x490d_678d, 1) && B(0x490d_678d, 2) && B(0x490d_678d, 3) && !B(0x490d_678d, 4)
      && !B(0x490d_678d, 5) && !B(0x490d_678d, 6) && B(0x490d_678d, 7)
    ensures B(0x490d_678d, 8) && B(0x490d_678d, 9) && B(0x490d_678d, 10) && !B(0x490d_678d, 11) && !B(0x490d_678d, 12)
      && B(0x490d_678d, 13) && B(0x490d_678d, 14) && !B(0x490d_678d, 15)
    ensures B(0x490d_678d, 16) && !B(0x490d_678d, 17) && B(0x490d_678d, 18) && B(0x490d_678d, 19) && !B(0x490d_678d, 20)
      && !B(0x490d_678d, 21) && !B(0x490d_678d, 22) && !B(0x490d_678d, 23)
    ensures B(0x490d_678d, 24) && !B(0x490d_678d, 25) && !B(0x490d_678d, 26) && B(0x490d_678d, 27)
      && !B(0x490d_678d, 28) && !B(0x490d_678d, 29) && B(0x490d_678d, 30) && !B(0x490d_678d, 31)
  {
  }

  lemma Value64()
    ensures Val(BitsOf(0x490d_678d)) == 0x490d_678d
  {
    hide B, Val, BitsOf;
    Flags64();
    BytePart(0x490d_678d, 0);
    BytePart(0x490d_678d, 8);
    BytePart(0x490d_678d, 16);
    BytePart(0x490d_678d, 24);
    ValWord(BitsOf(0x490d_678d), 0x49, 0x0d, 0x67, 0x8d);
  }

  lemma Flags128()
    ensures B(0xe8a4_5605, 0) && !B(0xe8a4_5605, 1) && B(0xe8a4_5605, 2) && !B(0xe8a4_5605, 3) && !B(0xe8a4_5605, 4)
      && !B(0xe8a4_5605, 5) && !B(0xe8a4_5605, 6) && !B(0xe8a4_5605, 7)
    ensures !B(0xe8a4_5605, 8) && B(0xe8a4_5605, 9) && B(0xe8a4_5605, 10) && !B(0xe8a4_5605, 11) && B(0xe8a4_5605, 12)
      && !B(0xe8a4_5605, 13) && B(0xe8a4_5605, 14) && !B(0xe8a4_5605, 15)
    ensures !B(0xe8a4_5605, 16) && !B(0xe8a4_5605, 17) && B(0xe8a4_5605, 18) && !B(0xe8a4_5605, 19)
      && !B(0xe8a4_5605, 20) && B(0xe8a4_5605, 21) && !B(0xe8a4_5605, 22) && B(0xe8a4_5605, 23)
    ensures !B(0xe8a4_5605, 24) && !B(0xe8a4_5605, 25) && !B(0xe8a4_5605, 26) && B(0xe8a4_5605, 27)
      && !B(0xe8a4_5605, 28) && B(0xe8a4_5605, 29) && B(0xe8a4_5605, 30) && B(0xe8a4_5605, 31)
  {
  }

  lemma Value128()
    ensures Val(BitsOf(0xe8a4_5605)) == 0xe8a4_5605
  {
    hide B, Val, BitsOf;
    Flags128();
    BytePart(0xe8a4_5605, 0);
    BytePart(0xe8a4_5605, 8);
    BytePart(0xe8a4_5605, 16);
    BytePart(0xe8a4_5605, 24);
    ValWord(BitsOf(0xe8a4_5605), 0xe8, 0xa4, 0x56, 0x05);
  }

  lemma Flags192()
    ensures !B(0xc5b9_cd4c, 0) && !B(0xc5b9_cd4c, 1) && B(0xc5b9_cd4c, 2) && B(0xc5b9_cd4c, 3) && !B(0xc5b9_cd4c, 4)
      && !B(0xc5b9_cd4c, 5) && B(0xc5b9_cd4c, 6) && !B(0xc5b9_cd4c, 7)
    ensures B(0xc5b9_cd4c, 8) && !B(0xc5b9_cd4c, 9) && B(0xc5b9_cd4c, 10) && B(0xc5b9_cd4c, 11) && !B(0xc5b9_cd4c, 12)
      && !B(0xc5b9_cd4c, 13) && B(0xc5b9_cd4c, 14) && B(0xc5b9_cd4c, 15)
    ensures B(0xc5b9_cd4c, 16) && !B(0xc5b9_cd4c, 17) && !B(0xc5b9_cd4c, 18) && B(0xc5b9_cd4c, 19) && B(0xc5b9_cd4c, 20)
      && B(0xc5b9_cd4c, 21) && !B(0xc5b9_cd4c, 22) && B(0xc5b9_cd4c, 23)
    ensures B(0xc5b9_cd4c, 24) && !B(0xc5b9_cd4c, 25) && B(0xc5b9_cd4c, 26) && !B(0xc5b9_cd4c, 27)
      && !B(0xc5b9_cd4c, 28) && !B(0xc5b9_cd4c, 29) && B(0xc5b9_cd4c, 30) && B(0xc5b9_cd4c, 31)
  {
  }

  lemma Value192()
    ensures Val(BitsOf(0xc5b9_cd4c)) == 0xc5b9_cd4c
  {
    hide B, Val, BitsOf;
    Flags192();
    BytePart(0xc5b9_cd4c, 0);
    BytePart(0xc5b9_cd4c, 8);
    BytePart(0xc5b9_cd4c, 16);
    BytePart(0xc5b9_cd4c, 24);
    ValWord(BitsOf(0xc5b9_cd4c), 0xc5, 0xb9, 0xcd, 0x4c);
  }

  lemma Flags512()
    ensures B(0xe622_8b11, 0) && !B(0xe622_8b11, 1) && !B(0xe622_8b11, 2) && !B(0xe622_8b11, 3) && B(0xe622_8b11, 4)
      && !B(0xe622_8b11, 5) && !B(0xe622_8b11, 6) && !B(0xe622_8b11, 7)
    ensures B(0xe622_8b11, 8) && B(0xe622_8b11, 9) && !B(0xe622_8b11, 10) && B(0xe622_8b11, 11) && !B(0xe622_8b11, 12)
      && !B(0xe622_8b11, 13) && !B(0xe622_8b11, 14) && B(0xe622_8b11, 15)
    ensures !B(0xe622_8b11, 16) && B(0xe622_8b11, 17) && !B(0xe622_8b11, 18) && !B(0xe622_8b11, 19)
      && !B(0xe622_8b11, 20) && B(0xe622_8b11, 21) && !B(0xe622_8b11, 22) && !B(0xe622_8b11, 23)
    ensures !B(0xe622_8b11, 24) && B(0xe622_8b11, 25) && B(0xe622_8b11, 26) && !B(0xe622_8b11, 27)
      && !B(0xe622_8b11, 28) && B(0xe622_8b11, 29) && B(0xe622_8b11, 30) && B(0xe622_8b11, 31)
  {
  }

  lemma Value512()
    ensures Val(BitsOf(0xe622_8b11)) == 0xe622_8b11
  {
    hide B, Val, BitsOf;
    Flags512();
    BytePart(0xe622_8b11, 0);
    BytePart(0xe622_8b11, 8);
    BytePart(0xe622_8b11, 16);
    BytePart(0xe622_8b11, 24);
    ValWord(BitsOf(0xe622_8b11), 0xe6, 0x22, 0x8b, 0x11);
  }

  lemma Flags576()
    ensures !B(0x8833_794c, 0) && !B(0x8833_794c, 1) && B(0x8833_794c, 2) && B(0x8833_794c, 3) && !B(0x8833_794c, 4)
      && !B(0x8833_794c, 5) && B(0x8833_794c, 6) && !B(0x8833_794c, 7)
    ensures B(0x8833_794c, 8) && !B(0x8833_794c, 9) && !B(0x8833_794c, 10) && B(0x8833_794c, 11) && B(0x8833_794c, 12)
      && B(0x8833_794c, 13) && B(0x8833_794c, 14) && !B(0x8833_794c, 15)
    ensures B(0x8833_794c, 16) && B(0x8833_794c, 17) && !B(0x8833_794c, 18) && !B(0x8833_794c, 19) && B(0x8833_794c, 20)
      && B(0x8833_794c, 21) && !B(0x8833_794c, 22) && !B(0x8833_794c, 23)
    ensures !B(0x8833_794c, 24) && !B(0x8833_794c, 25) && !B(0x8833_794c, 26) && B(0x8833_794c, 27)
      && !B(0x8833_794c, 28) && !B(0x8833_794c, 29) && !B(0x8833_794c, 30) && B(0x8833_794c, 31)
  {
  }

  lemma Value576()
    ensures Val(BitsOf(0x8833_794c)) == 0x8833_794c
  {
    hide B, Val, BitsOf;
    Flags576();
    BytePart(0x8833_794c, 0);
    BytePart(0x8833_794c, 8);
    BytePart(0x8833_794c, 16);
    BytePart(0x8833_794c, 24);
    ValWord(BitsOf(0x8833_794c), 0x88, 0x33, 0x79, 0x4c);
  }

  // Eight flags of a word as a number.
  lemma BytePart(w: bv32, j: nat)
    requires j <= 24
    ensures Val(BitsOf(w)[j..j + 8]) == N(B(w, 31 - j), 128) + N(B(w, 30 - j), 64) + N(B(w, 29 - j), 32)
      + N(B(w, 28 - j), 16)
      + N(B(w, 27 - j), 8) + N(B(w, 26 - j), 4) + N(B(w, 25 - j), 2) + N(B(w, 24 - j), 1)
  {
    hide Val, B, N;
    ValByte(BitsOf(w), j);
  }

  // ----- climbing in steps of eight

  // w is x^n.
  ghost predicate IsPower(w: bv32, n: nat) {
    Val(BitsOf(w)) < TOP32 && Val(BitsOf(w)) == MulXN(1, n)
  }

  lemma OneStep(w: bv32, n: nat)
    requires IsPower(w, n)
    ensures IsPower(Times(w), n + 1)
  {
    hide Times, BitsOf, MulX, Val;
    Value32();
    TimesIsMulX(w);
    MulXBound(Val(BitsOf(w)));
  }

  lemma EightSteps(w: bv32, n: nat)
    requires IsPower(w, n)
    ensures IsPower(Times8(w), n + 8)
  {
    hide IsPower, Times;
    OneStep(w, n);
    OneStep(Times(w), n + 1);
    OneStep(Times(Times(w)), n + 2);
    OneStep(Times(Times(Times(w))), n + 3);
    OneStep(Times(Times(Times(Times(w)))), n + 4);
    OneStep(Times(Times(Times(Times(Times(w))))), n + 5);
    OneStep(Times(Times(Times(Times(Times(Times(w)))))), n + 6);
    OneStep(Times(Times(Times(Times(Times(Times(Times(w))))))), n + 7);
  }

  // Eight steps from the word v lead to w.
  lemma Climb(v: bv32, w: bv32, n: nat)
    requires IsPower(v, n) && Times8(v) == w
    ensures IsPower(w, n + 8)
  {
    hide IsPower, Times8;
    EightSteps(v, n);
  }

  lemma Power32()
    ensures IsPower(0x04c1_1db7, 32)
  {
    hide Xor;
    Value32();
    Pow31();
    MulXNShift(1, 31);
    XorZero(POLY);
    hide MulXN, Val, BitsOf;
    assert MulXN(1, 32) == MulX(MulXN(1, 31)) by { MulXNPlus(1, 31, 1); MulXNOnce(MulXN(1, 31)); }
  }

  lemma MulXNOnce(c: nat)
    requires c < TOP32
    ensures MulXN(c, 1) == MulX(c)
  {
    assert MulXN(c, 0) == c;
    hide MulX;
  }

  lemma Power64()
    ensures IsPower(0x490d_678d, 64)
  {
    hide IsPower;
    Power32();
    Climb(0x04c1_1db7, 0xd219_c1dc, 32);
    Climb(0xd219_c1dc, 0x01d8_ac87, 40);
    Climb(0x01d8_ac87, 0xdc6d_9ab7, 48);
    Climb(0xdc6d_9ab7, 0x490d_678d, 56);
  }

  lemma Power128()
    ensures IsPower(0xe8a4_5605, 128)
  {
    hide IsPower;
    Power64();
    Climb(0x490d_678d, 0x1b28_0d78, 64);
    Climb(0x1b28_0d78, 0x4f57_6811, 72);
    Climb(0x4f57_6811, 0x5ba1_dcca, 80);
    Climb(0x5ba1_dcca, 0xf200_aa66, 88);
    Climb(0xf200_aa66, 0x8090_a067, 96);
    Climb(0x8090_a067, 0xf9ac_87ee, 104);
    Climb(0xf9ac_87ee, 0x07f6_e306, 112);
    Climb(0x07f6_e306, 0xe8a4_5605, 120);
  }

  lemma Power192()
    ensures IsPower(0xc5b9_cd4c, 192)
  {
    hide IsPower;
    Power128();
    Climb(0xe8a4_5605, 0x47f7_cec1, 128);
    Climb(0x47f7_cec1, 0xdd0f_e172, 136);
    Climb(0xdd0f_e172, 0x2fb7_bf3a, 144);
    Climb(0x2fb7_bf3a, 0x17d3_315d, 152);
    Climb(0x17d3_315d, 0x8167_d675, 160);
    Climb(0x8167_d675, 0x0a1b_8859, 168);
    Climb(0x0a1b_8859, 0x3402_8fd6, 176);
    Climb(0x3402_8fd6, 0xc5b9_cd4c, 184);
  }

  lemma Power256()
    ensures IsPower(0x75be_46b7, 256)
  {
    hide IsPower;
    Power192();
    Climb(0xc5b9_cd4c, 0xf382_b7f2, 192);
    Climb(0xf382_b7f2, 0x064c_29d0, 200);
    Climb(0x064c_29d0, 0x56af_9db2, 208);
    Climb(0x56af_9db2, 0xcd8c_54b5, 216);
    Climb(0xcd8c_54b5, 0xe013_a34a, 224);
    Climb(0xe013_a34a, 0xd60a_6c79, 232);
    Climb(0xd60a_6c79, 0x0171_7f5b, 240);
    Climb(0x0171_7f5b, 0x75be_46b7, 248);
  }

  lemma Power320()
    ensures IsPower(0x5697_00e5, 320)
  {
    hide IsPower;
    Power256();
    Climb(0x75be_46b7, 0x4937_c18c, 256);
    Climb(0x4937_c18c, 0x218e_0c78, 264);
    Climb(0x218e_0c78, 0x12ee_d357, 272);
    Climb(0x12ee_d357, 0xab40_b71e, 280);
    Climb(0xab40_b71e, 0x9ad3_836f, 288);
    Climb(0x9ad3_836f, 0xd914_8248, 296);
    Climb(0xd914_8248, 0x27d0_f3e6, 304);
    Climb(0x27d0_f3e6, 0x5697_00e5, 312);
  }

  lemma Power384()
    ensures IsPower(0x8c38_28a8, 384)
  {
    hide IsPower;
    Power320();
    Climb(0x5697_00e5, 0xf511_03b5, 320);
    Climb(0xf511_03b5, 0x8f7e_2362, 328);
    Climb(0x8f7e_2362, 0x2f60_3f53, 336);
    Climb(0x2f60_3f53, 0xc053_585d, 344);
    Climb(0xc053_585d, 0x0ed2_cd99, 352);
    Climb(0x0ed2_cd99, 0xee43_390a, 360);
    Climb(0xee43_390a, 0xba1e_8c73, 368);
    Climb(0xba1e_8c73, 0x8c38_28a8, 376);
  }

  lemma Power448()
    ensures IsPower(0x64bf_7a9b, 448)
  {
    hide IsPower;
    Power384();
    Climb(0x8c38_28a8, 0x6428_d38a, 384);
    Climb(0x6428_d38a, 0x9772_3a4b, 392);
    Climb(0x9772_3a4b, 0x4960_209b, 400);
    Climb(0x4960_209b, 0x766f_1b78, 408);
    Climb(0x766f_1b78, 0x9529_2855, 416);
    Climb(0x9529_2855, 0x1bf0_05f5, 424);
    Climb(0x1bf0_05f5, 0x975f_e511, 432);
    Climb(0x975f_e511, 0x64bf_7a9b, 440);
  }

  lemma Power512()
    ensures IsPower(0xe622_8b11, 512)
  {
    hide IsPower;
    Power448();
    Climb(0x64bf_7a9b, 0x00db_2b4b, 448);
    Climb(0x00db_2b4b, 0xdb2b_4b00, 456);
    Climb(0xdb2b_4b00, 0x119b_8088, 464);
    Climb(0x119b_8088, 0xd350_4ec7, 472);
    Climb(0xd350_4ec7, 0x4c96_aa30, 480);
    Climb(0x4c96_aa30, 0x9720_db13, 488);
    Climb(0x9720_db13, 0x1b81_789b, 496);
    Climb(0x1b81_789b, 0xe622_8b11, 504);
  }

  lemma Power576()
    ensures IsPower(0x8833_794c, 576)
  {
    hide IsPower;
    Power512();
    Climb(0xe622_8b11, 0xfda4_7acb, 512);
    Climb(0xfda4_7acb, 0x1c0f_b0da, 520);
    Climb(0x1c0f_b0da, 0x76ad_9a14, 528);
    Climb(0x76ad_9a14, 0x57a8_4455, 536);
    Climb(0x57a8_4455, 0xce94_ae02, 544);
    Climb(0xce94_ae02, 0xf5aa_3293, 552);
    Climb(0xf5aa_3293, 0x344f_0562, 560);
    Climb(0x344f_0562, 0x8833_794c, 568);
  }

  // A word that is x^n, as a number.
  lemma PowerRem(w: bv32, v: nat, n: nat)
    requires IsPower(w, n) && Val(BitsOf(w)) == v
    ensures v < TOP32 && Rem(v) == MulXN(1, n)
  {
    hide BitsOf, Val, Rem, MulXN;
    RemSmall(v);
  }

  /** K_X32_MOD_P, K_REDUCE_64, K_FOLD1 and K_FOLD4 are the powers 32, 64, 128 and 192, 512 and 576. */
  lemma Constants()
    ensures Rem(0x04c1_1db7) == MulXN(1, 32) && Rem(0x490d_678d) == MulXN(1, 64)
    ensures Rem(0xe8a4_5605) == MulXN(1, 128) && Rem(0xc5b9_cd4c) == MulXN(1, 192)
    ensures Rem(0xe622_8b11) == MulXN(1, 512) && Rem(0x8833_794c) == MulXN(1, 576)
  {
    hide *;
    Power32();
    Value32();
    PowerRem(0x04c1_1db7, 0x04c1_1db7, 32);
    Power64();
    Value64();
    PowerRem(0x490d_678d, 0x490d_678d, 64);
    Power128();
    Value128();
    PowerRem(0xe8a4_5605, 0xe8a4_5605, 128);
    Power192();
    Value192();
    PowerRem(0xc5b9_cd4c, 0xc5b9_cd4c, 192);
    Power512();
    Value512();
    PowerRem(0xe622_8b11, 0xe622_8b11, 512);
    Power576();
    Value576();
    PowerRem(0x8833_794c, 0x8833_794c, 576);
  }

  // ----- the quotient of x^64 by the generator

  // x^(32 + n) divided by the generator: quotient q, remainder w.
  ghost predicate Division(n: nat, q: nat, w: bv32) {
    IsPower(w, 32 + n) && Shl(1, 32 + n) == Xor(Clmul(q, FULL_POLY), Val(BitsOf(w)))
  }

  // The remainder's top bit is the next bit of the quotient.
  lemma DivideOn(c: nat, v: nat)
    requires v < TOP32
    ensures var low := if v >= TOP31 then FULL_POLY else 0;
      MulX(v) < TOP32 && Xor(Xor(2 * c, low), MulX(v)) == 2 * Xor(c, v)
  {
    MulXBound(v);
    hide Xor, Pow2, Shl;
    XorDouble(c, v);
    if v >= TOP31 {
      var t, u := Shl(1, 32), 2 * v - TOP32;
      Pow2Is64();
      ShlIsMul(1, 32);
      XorDisjoint(1, u, 32);
      XorDisjoint(1, POLY, 32);
      XorAssoc(2 * c, FULL_POLY, Xor(u, POLY));
      XorComm(u, POLY);
      XorAssoc(t, POLY, Xor(POLY, u));
      XorCancel(u, POLY);
    } else {
      XorZero(2 * c);
    }
  }

  lemma DivisionStep(n: nat, q: nat, w: bv32)
    requires Division(n, q, w)
    ensures Division(n + 1, if w >= 0x8000_0000 then 2 * q + 1 else 2 * q, Times(w))
  {
    hide Xor, Clmul, Times, MulX, Val, BitsOf, MulXN;
    OneStep(w, 32 + n);
    Value32();
    TimesIsMulX(w);
    TopFlag(w);
    var v := Val(BitsOf(w));
    DivideOn(Clmul(q, FULL_POLY), v);
    ClmulUnfold(2 * q, FULL_POLY);
    ClmulUnfold(2 * q + 1, FULL_POLY);
  }

  lemma TopFlag(w: bv32)
    ensures w >= 0x8000_0000 <==> Val(BitsOf(w)) >= TOP31
  {
    var s := BitsOf(w);
    TopBit(w);
    assert s[0] == B(w, 31);
    hide B, Val, BitsOf;
    ValParts(s, s[1..] + [false]);
  }

  lemma TopBit(w: bv32)
    ensures B(w, 31) <==> w >= 0x8000_0000
  {
  }

  lemma DivisionTo(n: nat, q: nat, w: bv32, q': nat, w': bv32)
    requires Division(n, q, w) && Times(w) == w' && q' == if w >= 0x8000_0000 then 2 * q + 1 else 2 * q
    ensures Division(n + 1, q', w')
  {
    hide Division, Times;
    DivisionStep(n, q, w);
  }

  lemma DivisionStart()
    ensures Division(0, 1, 0x04c1_1db7)
  {
    Power32();
    Value32();
    hide Val, BitsOf, IsPower, Shl, Xor, Clmul;
    FirstQuotient();
  }

  lemma FirstQuotient()
    ensures Shl(1, 32) == Xor(Clmul(1, FULL_POLY), POLY)
  {
    ClmulUnfold(1, FULL_POLY);
    ClmulZero(FULL_POLY);
    hide Xor, Pow2, Shl, Clmul;
    XorZero(FULL_POLY);
    Pow2Is64();
    ShlIsMul(1, 32);
    XorDisjoint(1, POLY, 32);
    XorCancel(Shl(1, 32), POLY);
  }

  /** K_BARRETT_MU is the quotient of x^64 by the generator. */
  lemma BarrettMu()
    ensures Shl(1, 64) == Xor(Clmul(0x1_04d1_01df, FULL_POLY), 0x490d_678d)
  {
    hide Division;
    DivisionStart();
    DivisionTo(0, 0x1, 0x04c1_1db7, 0x2, 0x0982_3b6e);
    DivisionTo(1, 0x2, 0x0982_3b6e, 0x4, 0x1304_76dc);
    DivisionTo(2, 0x4, 0x1304_76dc, 0x8, 0x2608_edb8);
    DivisionTo(3, 0x8, 0x2608_edb8, 0x10, 0x4c11_db70);
    DivisionTo(4, 0x10, 0x4c11_db70, 0x20, 0x9823_b6e0);
    DivisionTo(5, 0x20, 0x9823_b6e0, 0x41, 0x3486_7077);
    DivisionTo(6, 0x41, 0x3486_7077, 0x82, 0x690c_e0ee);
    DivisionTo(7, 0x82, 0x690c_e0ee, 0x104, 0xd219_c1dc);
    DivisionTo(8, 0x104, 0xd219_c1dc, 0x209, 0xa0f2_9e0f);
    DivisionTo(9, 0x209, 0xa0f2_9e0f, 0x413, 0x4524_21a9);
    DivisionTo(10, 0x413, 0x4524_21a9, 0x826, 0x8a48_4352);
    DivisionTo(11, 0x826, 0x8a48_4352, 0x104d, 0x1051_9b13);
    DivisionTo(12, 0x104d, 0x1051_9b13, 0x209a, 0x20a3_3626);
    DivisionTo(13, 0x209a, 0x20a3_3626, 0x4134, 0x4146_6c4c);
    DivisionTo(14, 0x4134, 0x4146_6c4c, 0x8268, 0x828c_d898);
    DivisionTo(15, 0x8268, 0x828c_d898, 0x104d1, 0x01d8_ac87);
    DivisionTo(16, 0x104d1, 0x01d8_ac87, 0x209a2, 0x03b1_590e);
    DivisionTo(17, 0x209a2, 0x03b1_590e, 0x41344, 0x0762_b21c);
    DivisionTo(18, 0x41344, 0x0762_b21c, 0x82688, 0x0ec5_6438);
    DivisionTo(19, 0x82688, 0x0ec5_6438, 0x104d10, 0x1d8a_c870);
    DivisionTo(20, 0x104d10, 0x1d8a_c870, 0x209a20, 0x3b15_90e0);
    DivisionTo(21, 0x209a20, 0x3b15_90e0, 0x413440, 0x762b_21c0);
    DivisionTo(22, 0x413440, 0x762b_21c0, 0x826880, 0xec56_4380);
    DivisionTo(23, 0x826880, 0xec56_4380, 0x104d101, 0xdc6d_9ab7);
    DivisionTo(24, 0x104d101, 0xdc6d_9ab7, 0x209a203, 0xbc1a_28d9);
    DivisionTo(25, 0x209a203, 0xbc1a_28d9, 0x4134407, 0x7cf5_4c05);
    DivisionTo(26, 0x4134407, 0x7cf5_4c05, 0x826880e, 0xf9ea_980a);
    DivisionTo(27, 0x826880e, 0xf9ea_980a, 0x104d101d, 0xf714_2da3);
    DivisionTo(28, 0x104d101d, 0xf714_2da3, 0x209a203b, 0xeae9_46f1);
    DivisionTo(29, 0x209a203b, 0xeae9_46f1, 0x41344077, 0xd113_9055);
    DivisionTo(30, 0x41344077, 0xd113_9055, 0x826880ef, 0xa6e6_3d1d);
    DivisionTo(31, 0x826880ef, 0xa6e6_3d1d, 0x104d101df, 0x490d_678d);
    Value64();
    DivisionIs(32, 0x1_04d1_01df, 0x490d_678d);
  }

  lemma DivisionIs(n: nat, q: nat, w: bv32)
    requires Division(n, q, w)
    ensures Shl(1, 32 + n) == Xor(Clmul(q, FULL_POLY), Val(BitsOf(w)))
  {
  }
}
