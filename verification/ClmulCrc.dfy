/**
 The carry-less-multiply CRC: four 128-bit lanes folded together, reduced to 96, 64
 and by Barrett's method to 32 bits, and multiplied by x^32 at the end.
 */
module ClmulCrc {
  import opened Bits
  import opened Codes
  import opened Gf2
  import opened Crc
  import FC = FoldConstants

  const MU: nat := 0x1_04d1_01df       // K_BARRETT_MU
  const K64: nat := 0x490d_678d        // K_REDUCE_64
  const K128: nat := 0xe8a4_5605       // K_FOLD1_LO
  const K192: nat := 0xc5b9_cd4c       // K_FOLD1_HI
  const K512: nat := 0xe622_8b11       // K_FOLD4_LO
  const K576: nat := 0x8833_794c       // K_FOLD4_HI

  // ----- halves of a register

  function Low64(x: nat): nat { x % WORD64 }
  function High64(x: nat): nat { x / WORD64 }

  lemma Halves(x: nat)
    ensures x == Shl(High64(x), 64) + Low64(x) && Low64(x) < Pow2(64) && x == Xor(Shl(High64(x), 64), Low64(x))
    ensures x < Pow2(128) ==> High64(x) < Pow2(64)
  {
    hide Xor, Pow2, Shl;
    Pow2Is64();
    ShlIsMul(High64(x), 64);
    DivMod(x, WORD64);
    XorDisjoint(High64(x), Low64(x), 64);
    Pow2Add(64, 64);
    if x < Pow2(128) && WORD64 <= High64(x) { MulMono(WORD64, High64(x), WORD64); }
  }

  // The remainder of a register from those of its halves.
  lemma HalvesRem(x: nat)
    ensures Rem(x) == Xor(MulXN(Rem(High64(x)), 64), Rem(Low64(x)))
  {
    hide *;
    Halves(x);
    RemXor(Shl(High64(x), 64), Low64(x));
    RemShl(High64(x), 64);
  }

  // ----- folding

  // fold_128
  function Fold(data: nat, prev: nat, hi: nat, lo: nat): nat {
    Xor(data, Xor(Clmul(Low64(prev), lo), Clmul(High64(prev), hi)))
  }

  /** Folding multiplies what was there by x^n and adds the new data, modulo the generator. */
  lemma FoldRem(data: nat, prev: nat, hi: nat, lo: nat, n: nat)
    requires Rem(lo) == MulXN(1, n) && Rem(hi) == MulXN(1, n + 64)
    ensures Rem(Fold(data, prev, hi, lo)) == Xor(Rem(data), MulXN(Rem(prev), n))
  {
    hide *;
    FoldIs(data, prev, hi, lo);
    var a, b := Low64(prev), High64(prev);
    RemXor(data, Xor(Clmul(a, lo), Clmul(b, hi)));
    RemXor(Clmul(a, lo), Clmul(b, hi));
    ClmulRem(a, lo, n);
    ClmulRem(b, hi, n + 64);
    MulXNPlus(Rem(b), 64, n);
    HalvesRem(prev);
    MulXNXor(MulXN(Rem(b), 64), Rem(a), n);
    XorComm(MulXN(Rem(a), n), MulXN(MulXN(Rem(b), 64), n));
  }

  lemma FoldIs(data: nat, prev: nat, hi: nat, lo: nat)
    ensures Fold(data, prev, hi, lo) == Xor(data, Xor(Clmul(Low64(prev), lo), Clmul(High64(prev), hi)))
  {
  }

  lemma FoldBound(data: nat, prev: nat, hi: nat, lo: nat)
    requires data < Pow2(128) && prev < Pow2(128) && hi < Pow2(32) && lo < Pow2(32)
    ensures Fold(data, prev, hi, lo) < Pow2(128)
  {
    hide *;
    FoldIs(data, prev, hi, lo);
    Halves(prev);
    ClmulBound(Low64(prev), lo, 64, 32);
    ClmulBound(High64(prev), hi, 64, 32);
    Pow2Mono(96, 128);
    XorBound(Clmul(Low64(prev), lo), Clmul(High64(prev), hi), 128);
    XorBound(data, Xor(Clmul(Low64(prev), lo), Clmul(High64(prev), hi)), 128);
  }

  // ----- Barrett reduction

  // barrett_reduce on a 64-bit value
  function Barrett(x: nat): nat {
    var t := x / TOP32 % TOP32;
    var q := Clmul(t, MU) / TOP32;
    Xor(x, Clmul(q, FULL_POLY)) % TOP32
  }

  lemma Split32(x: nat)
    ensures x == Shl(x / TOP32, 32) + x % TOP32 && x % TOP32 < Pow2(32) && x == Xor(Shl(x / TOP32, 32), x % TOP32)
  {
    hide Xor, Pow2, Shl;
    Pow2Is64();
    ShlIsMul(x / TOP32, 32);
    XorDisjoint(x / TOP32, x % TOP32, 32);
  }

  // The quotient estimate: t * x^64 and (t * mu) * P differ by t * (x^64 mod P).
  lemma QuotientGap(t: nat)
    requires t < Pow2(32)
    ensures Xor(Shl(t, 64), Clmul(Clmul(t, MU), FULL_POLY)) == Clmul(t, K64)
  {
    hide *;
    Named();
    FC.BarrettMu();
    ClmulAssoc(t, MU, FULL_POLY);
    var m := Clmul(MU, FULL_POLY);
    ClmulPow(t, 64);
    ClmulXorRight(t, m, K64);
    XorComm(Clmul(t, m), Clmul(t, K64));
    XorCancel(Clmul(t, K64), Clmul(t, m));
  }

  lemma Named()
    ensures MU == 0x1_04d1_01df && K64 == 0x490d_678d && K64 < Pow2(32) && FULL_POLY < Pow2(33) && POLY < TOP32
      && POLY < Pow2(32)
  {
    Pow2Is64();
    assert Pow2(33) == 2 * Pow2(32);
  }

  // What is left of t * x^32 after subtracting q * P stays below x^32.
  lemma QuotientExact(t: nat, q: nat, s: nat)
    requires t < Pow2(32) && Clmul(t, MU) == Xor(Shl(q, 32), s) && s < Pow2(32)
    ensures Xor(Shl(t, 32), Clmul(q, FULL_POLY)) < Pow2(32)
  {
    hide *;
    Named();
    var e := Xor(Shl(t, 32), Clmul(q, FULL_POLY));
    var sp, qp, r := Clmul(s, FULL_POLY), Clmul(q, FULL_POLY), Clmul(t, K64);
    QuotientGap(t);
    ClmulXorLeft(Shl(q, 32), s, FULL_POLY);
    ClmulShlLeft(q, FULL_POLY, 32);
    ShlPlus(t, 32, 32);
    XorShl(Shl(t, 32), qp, 32);
    // e * x^32 = (t * rho) + s * P
    XorAssoc(Shl(t, 64), Shl(qp, 32), sp);
    XorCancel(Shl(e, 32), sp);
    ClmulBound(t, K64, 32, 32);
    ClmulBound(s, FULL_POLY, 32, 33);
    Pow2Mono(63, 64);
    XorBound(r, sp, 64);
    ShlPow2(32, 32);
    if Pow2(32) <= e { ShlMono(Pow2(32), e, 32); }
  }

  /** Barrett reduction is exact over GF(2). */
  lemma BarrettExact(x: nat)
    requires x < Pow2(64)
    ensures Barrett(x) == Rem(x) && Barrett(x) < TOP32
  {
    hide *;
    Named();
    Pow2Is64();
    var t, low := x / TOP32, x % TOP32;
    TopHalf(x);
    Split32(x);
    var q, s := Clmul(t, MU) / TOP32, Clmul(t, MU) % TOP32;
    Split32(Clmul(t, MU));
    QuotientExact(t, q, s);
    var qp := Clmul(q, FULL_POLY);
    var e := Xor(Shl(t, 32), qp);
    // x - q * P
    XorComm(Shl(t, 32), low);
    XorAssoc(low, Shl(t, 32), qp);
    XorBound(low, e, 32);
    var y := Xor(x, qp);
    BarrettIs(x, t, q);
    SmallMod(y);
    RemXor(x, qp);
    ProductRem(q);
    XorZero(Rem(x));
    RemSmall(y);
  }

  lemma TopHalf(x: nat)
    requires x < Pow2(64)
    ensures x / TOP32 < Pow2(32) && x / TOP32 % TOP32 == x / TOP32 && TOP32 == Pow2(32) && TOP32 == 0x1_0000_0000
  {
    Pow2Is64();
    hide Pow2;
  }

  lemma SmallMod(y: nat)
    requires y < TOP32
    ensures y % TOP32 == y
  {
  }

  lemma BarrettIs(x: nat, t: nat, q: nat)
    requires t == x / TOP32 % TOP32 && q == Clmul(t, MU) / TOP32
    ensures Barrett(x) == Xor(x, Clmul(q, FULL_POLY)) % TOP32
  {
  }

  // A multiple of the generator leaves nothing.
  lemma {:induction false} ProductRem(q: nat)
    ensures Rem(Clmul(q, FULL_POLY)) == 0
    decreases q
  {
    hide *;
    if q == 0 {
      ClmulZero(FULL_POLY);
      RemZero();
    } else {
      ProductRem(q / 2);
      ClmulUnfold(q, FULL_POLY);
      var low := if q % 2 == 1 then FULL_POLY else 0;
      RemXor(2 * Clmul(q / 2, FULL_POLY), low);
      RemDouble(Clmul(q / 2, FULL_POLY));
      GeneratorRem();
      RemZero();
      XorZero(0);
    }
  }

  lemma GeneratorRem()
    ensures Rem(FULL_POLY) == 0
  {
    hide Xor, Pow2, Shl, Rem, MulXN;
    Pow2Is64();
    ShlIsMul(1, 32);
    XorDisjoint(1, POLY, 32);
    RemXor(Shl(1, 32), POLY);
    RemShl(1, 32);
    RemSmall(1);
    RemSmall(POLY);
    FC.Constants();
    XorZero(POLY);
  }

  // ----- 128 bits to 32

  /** The two 64-bit folds and Barrett reduction leave the remainder. */
  method Reduce(x0: nat) returns (r: nat)
    requires x0 < Pow2(128)
    ensures r == Rem(x0) && r < TOP32
  {
    hide *;
    Named();
    Pow2Is64();
    FC.Constants();
    var x := Xor(Low64(x0), Clmul(High64(x0), K64));
    ReduceStep(x0);
    Halves(x0);
    ClmulBound(High64(x0), K64, 64, 32);
    Pow2Mono(64, 95);
    XorBound(Low64(x0), Clmul(High64(x0), K64), 95);
    ghost var x1 := x;
    HighSmall(x);
    x := Xor(Low64(x), Clmul(High64(x) % TOP32, K64));
    ReduceStep(x1);
    Halves(x1);
    ClmulBound(High64(x1), K64, 32, 32);
    Pow2Mono(63, 64);
    XorBound(Low64(x1), Clmul(High64(x1), K64), 64);
    BarrettExact(x);
    r := Barrett(x);
  }

  lemma HighSmall(x: nat)
    requires x < Pow2(95)
    ensures High64(x) < Pow2(32) && High64(x) % TOP32 == High64(x)
  {
    hide Pow2;
    Pow2Is64();
    Pow2Mono(95, 96);
    Pow2Add(32, 64);
    if TOP32 <= High64(x) { MulMono(TOP32, High64(x), WORD64); DivMod(x, WORD64); }
  }

  // Replacing the high half by its product with x^64 mod P.
  lemma ReduceStep(x: nat)
    ensures Rem(Xor(Low64(x), Clmul(High64(x), K64))) == Rem(x)
  {
    hide *;
    Named();
    FC.Constants();
    RemXor(Low64(x), Clmul(High64(x), K64));
    ClmulRem(High64(x), K64, 64);
    HalvesRem(x);
    XorComm(Rem(Low64(x)), MulXN(Rem(High64(x)), 64));
  }

  // ----- the lanes

  // Four registers standing for one 512-bit string, modulo the generator.
  function Lanes(x0: nat, x1: nat, x2: nat, x3: nat): nat {
    Xor(MulXN(Rem(x0), 384), Xor(MulXN(Rem(x1), 256), Xor(MulXN(Rem(x2), 128), Rem(x3))))
  }

  lemma LanesIs(x0: nat, x1: nat, x2: nat, x3: nat)
    ensures Lanes(x0, x1, x2, x3) ==
      Xor(MulXN(Rem(x0), 384), Xor(MulXN(Rem(x1), 256), Xor(MulXN(Rem(x2), 128), Rem(x3))))
  {
  }

  // More bytes: shift what was there and add.
  lemma SeededMore(c: nat, s: seq<Byte>, t: seq<Byte>)
    requires 4 <= |s|
    ensures Seeded(c, s + t) == Xor(Shl(Seeded(c, s), 8 * |t|), Poly(t))
  {
    hide *;
    var k, m := 8 * |s| - 32, 8 * |t|;
    SeededIs(c, s);
    SeededIs(c, s + t);
    PolyConcat(s, t);
    XorShl(Poly(s), Shl(c, k), m);
    ShlPlus(c, k, m);
    XorAssoc(Shl(Poly(s), m), Poly(t), Shl(c, k + m));
    XorComm(Poly(t), Shl(c, k + m));
    XorAssoc(Shl(Poly(s), m), Shl(c, k + m), Poly(t));
  }

  lemma SeededMoreRem(c: nat, s: seq<Byte>, t: seq<Byte>)
    requires 4 <= |s|
    ensures Rem(Seeded(c, s + t)) == Xor(MulXN(Rem(Seeded(c, s)), 8 * |t|), Rem(Poly(t)))
  {
    hide *;
    SeededMore(c, s, t);
    RemXor(Shl(Seeded(c, s), 8 * |t|), Poly(t));
    RemShl(Seeded(c, s), 8 * |t|);
  }

  lemma PolyTwo(s: seq<Byte>, t: seq<Byte>)
    ensures Rem(Poly(s + t)) == Xor(MulXN(Rem(Poly(s)), 8 * |t|), Rem(Poly(t)))
  {
    hide *;
    PolyConcat(s, t);
    RemXor(Shl(Poly(s), 8 * |t|), Poly(t));
    RemShl(Poly(s), 8 * |t|);
  }

  // Sixty-four bytes loaded into four registers.
  lemma LoadLanes(s: seq<Byte>)
    requires |s| == 64
    ensures Rem(Poly(s)) == Lanes(Poly(s[..16]), Poly(s[16..32]), Poly(s[32..48]), Poly(s[48..]))
  {
    hide *;
    LanesIs(Poly(s[..16]), Poly(s[16..32]), Poly(s[32..48]), Poly(s[48..]));
    assert s == s[..16] + s[16..] && s[16..] == s[16..32] + s[32..] && s[32..] == s[32..48] + s[48..];
    PolyTwo(s[..16], s[16..]);
    PolyTwo(s[16..32], s[32..]);
    PolyTwo(s[32..48], s[48..]);
  }

  // The register goes into the top of the first lane.
  lemma SeedLane(c: nat, s: seq<Byte>)
    requires |s| == 64 && c < TOP32
    ensures Rem(Seeded(c, s)) == Lanes(Xor(Poly(s[..16]), Shl(c, 96)), Poly(s[16..32]), Poly(s[32..48]), Poly(s[48..]))
  {
    hide *;
    var y := Poly(s[..16]);
    var rest := Xor(MulXN(Rem(Poly(s[16..32])), 256), Xor(MulXN(Rem(Poly(s[32..48])), 128), Rem(Poly(s[48..]))));
    SeededIs(c, s);
    LoadLanes(s);
    LanesIs(y, Poly(s[16..32]), Poly(s[32..48]), Poly(s[48..]));
    LanesIs(Xor(y, Shl(c, 96)), Poly(s[16..32]), Poly(s[32..48]), Poly(s[48..]));
    RemXor(Poly(s), Shl(c, 480));
    ShlPlus(c, 96, 384);
    RemShl(Shl(c, 96), 384);
    RemXor(y, Shl(c, 96));
    MulXNXor(Rem(y), Rem(Shl(c, 96)), 384);
    var p, q := MulXN(Rem(y), 384), MulXN(Rem(Shl(c, 96)), 384);
    XorAssoc(p, rest, q);
    XorComm(rest, q);
    XorAssoc(p, q, rest);
  }

  lemma LanesXor(x0: nat, x1: nat, x2: nat, x3: nat, r0: nat, r1: nat, r2: nat, r3: nat, y0: nat, y1: nat, y2: nat,
                 y3: nat, n: nat)
    requires Rem(y0) == Xor(Rem(r0), MulXN(Rem(x0), n)) && Rem(y1) == Xor(Rem(r1), MulXN(Rem(x1), n))
    requires Rem(y2) == Xor(Rem(r2), MulXN(Rem(x2), n)) && Rem(y3) == Xor(Rem(r3), MulXN(Rem(x3), n))
    ensures Lanes(x0, x1, x2, x3) < TOP32
    ensures Lanes(y0, y1, y2, y3) == Xor(MulXN(Lanes(x0, x1, x2, x3), n), Lanes(r0, r1, r2, r3))
  {
    hide *;
    LanesIs(x0, x1, x2, x3);
    LanesIs(r0, r1, r2, r3);
    LanesIs(y0, y1, y2, y3);
    LaneShift(x0, r0, y0, 384, n);
    LaneShift(x1, r1, y1, 256, n);
    LaneShift(x2, r2, y2, 128, n);
    var a0, a1, a2, a3 := MulXN(Rem(x0), 384), MulXN(Rem(x1), 256), MulXN(Rem(x2), 128), Rem(x3);
    var b0, b1, b2, b3 := MulXN(Rem(r0), 384), MulXN(Rem(r1), 256), MulXN(Rem(r2), 128), Rem(r3);
    MulXNXor(a2, a3, n);
    MulXNXor(a1, Xor(a2, a3), n);
    MulXNXor(a0, Xor(a1, Xor(a2, a3)), n);
    XorSwap(b2, MulXN(a2, n), b3, MulXN(a3, n));
    XorSwap(b1, MulXN(a1, n), Xor(b2, b3), Xor(MulXN(a2, n), MulXN(a3, n)));
    XorSwap(b0, MulXN(a0, n), Xor(b1, Xor(b2, b3)), Xor(MulXN(a1, n), Xor(MulXN(a2, n), MulXN(a3, n))));
    XorComm(Xor(b0, Xor(b1, Xor(b2, b3))), Xor(MulXN(a0, n), Xor(MulXN(a1, n), Xor(MulXN(a2, n), MulXN(a3, n)))));
  }

  lemma LaneShift(x: nat, r: nat, y: nat, k: nat, n: nat)
    requires Rem(y) == Xor(Rem(r), MulXN(Rem(x), n))
    ensures MulXN(Rem(y), k) == Xor(MulXN(Rem(r), k), MulXN(MulXN(Rem(x), k), n))
  {
    hide *;
    MulXNXor(Rem(r), MulXN(Rem(x), n), k);
    MulXNPlus(Rem(x), n, k);
    MulXNPlus(Rem(x), k, n);
  }

  // Collapsing the four lanes one after the other.
  lemma CollapseLanes(x0: nat, x1: nat, x2: nat, x3: nat, y1: nat, y2: nat, y3: nat)
    requires Rem(y1) == Xor(Rem(x1), MulXN(Rem(x0), 128)) && Rem(y2) == Xor(Rem(x2), MulXN(Rem(y1), 128))
    requires Rem(y3) == Xor(Rem(x3), MulXN(Rem(y2), 128))
    ensures Rem(y3) == Lanes(x0, x1, x2, x3)
  {
    hide *;
    LanesIs(x0, x1, x2, x3);
    var p0 := MulXN(Rem(x0), 128);
    MulXNXor(Rem(x1), p0, 128);
    MulXNPlus(Rem(x0), 128, 128);
    var p1, q0 := MulXN(Rem(x1), 128), MulXN(Rem(x0), 256);
    MulXNXor(p1, q0, 128);
    MulXNXor(Rem(x2), Xor(p1, q0), 128);
    MulXNPlus(Rem(x1), 128, 128);
    MulXNPlus(Rem(x0), 256, 128);
    var a0, a1, a2, a3 := MulXN(Rem(x0), 384), MulXN(Rem(x1), 256), MulXN(Rem(x2), 128), Rem(x3);
    // x3 + (x2 + (x1 + x0)) is x0 + (x1 + (x2 + x3))
    XorComm(a1, a0);
    XorAssoc(a2, a0, a1);
    XorComm(a2, a0);
    XorAssoc(a0, a2, a1);
    XorComm(a2, a1);
    XorComm(a3, Xor(a0, Xor(a1, a2)));
    XorAssoc(a0, Xor(a1, a2), a3);
    XorAssoc(a1, a2, a3);
  }

  lemma BlockBound(s: seq<Byte>)
    requires |s| == 16
    ensures Poly(s) < Pow2(128)
  {
    hide *;
    PolyBound(s);
  }

  lemma KBounds()
    ensures K128 < Pow2(32) && K192 < Pow2(32) && K512 < Pow2(32) && K576 < Pow2(32)
    ensures Rem(K128) == MulXN(1, 128) && Rem(K192) == MulXN(1, 128 + 64) && Rem(K512) == MulXN(1, 512)
      && Rem(K576) == MulXN(1, 512 + 64)
  {
    hide Pow2, Rem, MulXN;
    Pow2Is64();
    FC.Constants();
  }

  // The state of the folding loop after p bytes.
  ghost predicate Folding(c: nat, s: seq<Byte>, x0: nat, x1: nat, x2: nat, x3: nat) {
    && c < TOP32 && 64 <= |s| && Rem(Seeded(c, s)) == Lanes(x0, x1, x2, x3)
    && x0 < Pow2(128) && x1 < Pow2(128) && x2 < Pow2(128) && x3 < Pow2(128)
  }

  lemma FoldingStart(c: nat, s: seq<Byte>)
    requires c < TOP32 && |s| == 64
    ensures Folding(c, s, Xor(Poly(s[..16]), Shl(c, 96)), Poly(s[16..32]), Poly(s[32..48]), Poly(s[48..]))
  {
    hide Xor, Pow2, Shl, Poly, Seeded, Lanes, Rem;
    SeedLane(c, s);
    BlockBound(s[..16]);
    BlockBound(s[16..32]);
    BlockBound(s[32..48]);
    BlockBound(s[48..]);
    Pow2Is64();
    ShlBelow(c, 32, 96);
    XorBound(Poly(s[..16]), Shl(c, 96), 128);
  }

  lemma FoldingStep(c: nat, s: seq<Byte>, x0: nat, x1: nat, x2: nat, x3: nat, t: seq<Byte>)
    requires Folding(c, s, x0, x1, x2, x3) && |t| == 64
    ensures Folding(c, s + t, Fold(Poly(t[..16]), x0, K576, K512), Fold(Poly(t[16..32]), x1, K576, K512),
                    Fold(Poly(t[32..48]), x2, K576, K512), Fold(Poly(t[48..]), x3, K576, K512))
  {
    hide Xor, Pow2, Shl, Poly, Seeded, Lanes, Rem, Fold, MulXN, K512, K576;
    KBounds();
    var r0, r1, r2, r3 := Poly(t[..16]), Poly(t[16..32]), Poly(t[32..48]), Poly(t[48..]);
    BlockBound(t[..16]);
    BlockBound(t[16..32]);
    BlockBound(t[32..48]);
    BlockBound(t[48..]);
    FoldRem(r0, x0, K576, K512, 512);
    FoldRem(r1, x1, K576, K512, 512);
    FoldRem(r2, x2, K576, K512, 512);
    FoldRem(r3, x3, K576, K512, 512);
    FoldBound(r0, x0, K576, K512);
    FoldBound(r1, x1, K576, K512);
    FoldBound(r2, x2, K576, K512);
    FoldBound(r3, x3, K576, K512);
    LanesXor(x0, x1, x2, x3, r0, r1, r2, r3, Fold(r0, x0, K576, K512), Fold(r1, x1, K576, K512),
             Fold(r2, x2, K576, K512), Fold(r3, x3, K576, K512), 512);
    LoadLanes(t);
    SeededMoreRem(c, s, t);
  }

  // One register standing for everything read.
  ghost predicate Single(c: nat, s: seq<Byte>, x: nat) {
    c < TOP32 && 64 <= |s| && Rem(Seeded(c, s)) == Rem(x) && x < Pow2(128)
  }

  lemma FoldingEnd(c: nat, s: seq<Byte>, x0: nat, x1: nat, x2: nat, x3: nat, y1: nat, y2: nat, y3: nat)
    requires Folding(c, s, x0, x1, x2, x3)
    requires y1 == Fold(x1, x0, K192, K128) && y2 == Fold(x2, y1, K192, K128) && y3 == Fold(x3, y2, K192, K128)
    ensures Single(c, s, y3)
  {
    hide Xor, Pow2, Shl, Poly, Seeded, Lanes, Rem, Fold, MulXN, K128, K192;
    KBounds();
    FoldRem(x1, x0, K192, K128, 128);
    FoldRem(x2, y1, K192, K128, 128);
    FoldRem(x3, y2, K192, K128, 128);
    FoldBound(x1, x0, K192, K128);
    FoldBound(x2, y1, K192, K128);
    FoldBound(x3, y2, K192, K128);
    CollapseLanes(x0, x1, x2, x3, y1, y2, y3);
  }

  lemma SingleStep(c: nat, s: seq<Byte>, x: nat, t: seq<Byte>)
    requires Single(c, s, x) && |t| == 16
    ensures Single(c, s + t, Fold(Poly(t), x, K192, K128))
  {
    hide Xor, Pow2, Shl, Poly, Seeded, Rem, Fold, MulXN, K128, K192;
    KBounds();
    BlockBound(t);
    FoldRem(Poly(t), x, K192, K128, 128);
    FoldBound(Poly(t), x, K192, K128);
    SeededMoreRem(c, s, t);
    XorComm(Rem(Poly(t)), MulXN(Rem(x), 128));
  }

  // The last multiplication, by x^32.
  lemma PostMultiply(c: nat, s: seq<Byte>, x: nat, v: nat)
    requires Single(c, s, x) && v == Rem(x)
    ensures Clmul(v, POLY) < Pow2(64) && Barrett(Clmul(v, POLY)) == Update(c, s) && Barrett(Clmul(v, POLY)) < TOP32
  {
    hide *;
    SingleFacts(c, s, x);
    Named();
    TopHalf(0);
    FC.Constants();
    PolyConstant();
    ClmulBound(v, POLY, 32, 32);
    Pow2Mono(63, 64);
    BarrettExact(Clmul(v, POLY));
    ClmulRem(v, POLY, 32);
    RemSmall(v);
    UpdateLong(c, s);
  }

  lemma PolyConstant()
    ensures POLY == 0x04c1_1db7
  {
  }

  lemma SingleFacts(c: nat, s: seq<Byte>, x: nat)
    requires Single(c, s, x)
    ensures c < TOP32 && 64 <= |s| && Rem(Seeded(c, s)) == Rem(x) && x < Pow2(128) && Rem(x) < TOP32
  {
    hide Rem, Pow2, Seeded;
  }

  /** crc32_pclmul: for every register and every buffer of 64 bytes or more, the folded
      result is the byte-at-a-time CRC. */
  method CrcPclmul(c: nat, buf: seq<Byte>) returns (crc: nat)
    requires c < TOP32 && 64 <= |buf|
    ensures crc == Update(c, buf) && crc < TOP32
  {
    hide *;
    var end := |buf|;
    var x0, x1, x2, x3 := Xor(Poly(buf[0..16]), Shl(c, 96)), Poly(buf[16..32]), Poly(buf[32..48]), Poly(buf[48..64]);
    Blocks(buf, 0);
    FoldingStart(c, buf[..64]);
    var p := 64;
    while p + 64 <= end
      invariant 64 <= p <= end && Folding(c, buf[..p], x0, x1, x2, x3)
    {
      Blocks(buf, p);
      FoldingStep(c, buf[..p], x0, x1, x2, x3, buf[p..p + 64]);
      x0 := Fold(Poly(buf[p..p + 16]), x0, K576, K512);
      x1 := Fold(Poly(buf[p + 16..p + 32]), x1, K576, K512);
      x2 := Fold(Poly(buf[p + 32..p + 48]), x2, K576, K512);
      x3 := Fold(Poly(buf[p + 48..p + 64]), x3, K576, K512);
      p := p + 64;
    }
    var y1 := Fold(x1, x0, K192, K128);
    var y2 := Fold(x2, y1, K192, K128);
    var x := Fold(x3, y2, K192, K128);
    FoldingEnd(c, buf[..p], x0, x1, x2, x3, y1, y2, x);
    while p + 16 <= end
      invariant 64 <= p <= end && Single(c, buf[..p], x)
    {
      SingleStep(c, buf[..p], x, buf[p..p + 16]);
      assert buf[..p + 16] == buf[..p] + buf[p..p + 16];
      x := Fold(Poly(buf[p..p + 16]), x, K192, K128);
      p := p + 16;
    }
    SingleFacts(c, buf[..p], x);
    var v := Reduce(x);
    PostMultiply(c, buf[..p], x, v);
    crc := Barrett(Clmul(v, POLY));
    UpdateConcat(c, buf[..p], buf[p..end]);
    assert buf == buf[..p] + buf[p..end];
    crc := UpdateBytes(crc, buf, p, end);
  }

  // The four 16-byte blocks of 64 bytes at p.
  lemma Blocks(buf: seq<Byte>, p: nat)
    requires p + 64 <= |buf|
    ensures var t := buf[p..p + 64];
      && t[..16] == buf[p..p + 16] && t[16..32] == buf[p + 16..p + 32] && t[32..48] == buf[p + 32..p + 48]
        && t[48..] == buf[p + 48..p + 64]
      && buf[..p + 64] == buf[..p] + t && (p == 0 ==> buf[..64] == t)
  {
    var t := buf[p..p + 64];
    SubSlice(buf, p, 16, 32);
    SubSlice(buf, p, 32, 48);
    SubSlice(buf, p, 48, 64);
    assert t[48..] == t[48..64];
  }

  lemma SubSlice(buf: seq<Byte>, p: nat, i: nat, j: nat)
    requires i <= j <= 64 && p + 64 <= |buf|
    ensures buf[p..p + 64][i..j] == buf[p + i..p + j]
  {
    var t := buf[p..p + 64];
    forall k | 0 <= k < j - i
      ensures t[i..j][k] == buf[p + i..p + j][k]
    {
      assert t[i..j][k] == t[i + k] == buf[p + (i + k)] == buf[(p + i) + k];
    }
    assert |t[i..j]| == |buf[p + i..p + j]|;
  }

  /** BZ2_crc32_update: whichever branch is taken, the byte-at-a-time CRC. */
  method UpdateBuffer(c: nat, buf: seq<Byte>, address: nat, pclmul: bool) returns (crc: nat)
    requires c < TOP32
    ensures crc == Update(c, buf) && crc < TOP32
  {
    hide *;
    if pclmul && |buf| >= 64 {
      crc := CrcPclmul(c, buf);
    } else {
      crc := UpdateSliced(c, buf, address);
    }
  }
}
