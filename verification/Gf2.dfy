/**
 Polynomials over GF(2) as numbers: bit n is the coefficient of x^n.  Addition is
 exclusive or, carry-less multiplication is Clmul, and Rem is the remainder by the
 generator of section 3.2.9 of IEEE 802.3.
 */
module Gf2 {
  import opened Bits

  const TOP31: nat := 0x8000_0000
  const TOP32: nat := 0x1_0000_0000
  const POLY: nat := 0x04c1_1db7          // the generator without its leading term
  const FULL_POLY: nat := 0x1_04c1_1db7

  // ----- exclusive or

  function Xor(a: nat, b: nat): nat
    decreases a + b
  {
    if a == 0 && b == 0 then 0 else 2 * Xor(a / 2, b / 2) + (if a % 2 != b % 2 then 1 else 0)
  }

  lemma XorUnfold(a: nat, b: nat)
    ensures Xor(a, b) == 2 * Xor(a / 2, b / 2) + (if a % 2 != b % 2 then 1 else 0)
    ensures Xor(a, b) / 2 == Xor(a / 2, b / 2) && (Xor(a, b) % 2 == 1 <==> a % 2 != b % 2)
  {
    if a == 0 && b == 0 { assert Xor(0, 0) == 0; }
  }

  lemma {:induction false} XorComm(a: nat, b: nat)
    ensures Xor(a, b) == Xor(b, a)
    decreases a + b
  {
    if a + b != 0 { XorComm(a / 2, b / 2); }
  }

  lemma {:induction false} XorZero(a: nat)
    ensures Xor(a, 0) == a && Xor(0, a) == a && Xor(a, a) == 0
    decreases a
  {
    if a != 0 { XorZero(a / 2); }
  }

  lemma {:induction false} XorAssoc(a: nat, b: nat, c: nat)
    ensures Xor(Xor(a, b), c) == Xor(a, Xor(b, c))
    decreases a + b + c
  {
    hide Xor;
    XorUnfold(a, b);
    XorUnfold(b, c);
    XorUnfold(Xor(a, b), c);
    XorUnfold(a, Xor(b, c));
    if a + b + c != 0 {
      XorAssoc(a / 2, b / 2, c / 2);
    } else {
      XorZero(0);
    }
  }

  // Exchanging the middle terms of a sum of four.
  lemma XorSwap(a: nat, b: nat, c: nat, d: nat)
    ensures Xor(Xor(a, b), Xor(c, d)) == Xor(Xor(a, c), Xor(b, d))
  {
    hide Xor;
    XorAssoc(a, b, Xor(c, d));
    XorAssoc(b, c, d);
    XorComm(b, c);
    XorAssoc(c, b, d);
    XorAssoc(a, c, Xor(b, d));
  }

  // What is added twice disappears.
  lemma XorCancel(a: nat, b: nat)
    ensures Xor(Xor(a, b), b) == a && Xor(b, Xor(b, a)) == a
  {
    hide Xor;
    XorAssoc(a, b, b);
    XorAssoc(b, b, a);
    XorZero(a);
    XorZero(b);
  }

  lemma XorDouble(a: nat, b: nat)
    ensures Xor(2 * a, 2 * b) == 2 * Xor(a, b)
    ensures Xor(2 * a + 1, 2 * b) == 2 * Xor(a, b) + 1
  {
    hide Xor;
    XorUnfold(2 * a, 2 * b);
    XorUnfold(2 * a + 1, 2 * b);
  }

  lemma {:induction false} XorBound(a: nat, b: nat, n: nat)
    requires a < Pow2(n) && b < Pow2(n)
    ensures Xor(a, b) < Pow2(n)
    decreases n
  {
    hide Xor;
    XorUnfold(a, b);
    if n == 0 {
      XorZero(0);
    } else {
      XorBound(a / 2, b / 2, n - 1);
    }
  }

  // Written out in bits: a bit of the sum is set where the two bits differ.
  lemma {:induction false} XorBits(a: nat, b: nat, n: nat, j: nat)
    requires j < n
    ensures ToBits(Xor(a, b), n)[j] == (ToBits(a, n)[j] != ToBits(b, n)[j])
    decreases n
  {
    hide Xor;
    XorUnfold(a, b);
    if j < n - 1 { XorBits(a / 2, b / 2, n - 1, j); }
  }

  // Disjoint fields: adding is exclusive or.
  lemma {:induction false} XorDisjoint(q: nat, b: nat, k: nat)
    requires b < Pow2(k)
    ensures Xor(Shl(q, k), b) == Shl(q, k) + b
    decreases k
  {
    hide Xor;
    XorUnfold(Shl(q, k), b);
    if k == 0 {
      XorZero(q);
    } else {
      XorDisjoint(q, b / 2, k - 1);
    }
  }

  lemma {:induction false} XorShl(a: nat, b: nat, k: nat)
    ensures Xor(Shl(a, k), Shl(b, k)) == Shl(Xor(a, b), k)
    decreases k
  {
    hide Xor;
    if k != 0 {
      XorShl(a, b, k - 1);
      XorDouble(Shl(a, k - 1), Shl(b, k - 1));
    }
  }

  // ----- the remainder

  // x times c, by the generator.
  function MulX(c: nat): (r: nat)
    requires c < TOP32
  {
    if c >= TOP31 then Xor(2 * c - TOP32, POLY) else 2 * c
  }

  lemma MulXBound(c: nat)
    requires c < TOP32
    ensures MulX(c) < TOP32
  {
    hide Xor;
    Pow2Is64();
    hide Pow2;
    if c >= TOP31 { XorBound(2 * c - TOP32, POLY, 32); }
  }

  lemma XorBound32(a: nat, b: nat)
    requires a < TOP32 && b < TOP32
    ensures Xor(a, b) < TOP32
  {
    hide Xor, Pow2;
    Pow2Is64();
    XorBound(a, b, 32);
  }

  // Adding the top bit.
  lemma XorTop(a: nat, b: nat)
    requires a < TOP31 && b < TOP31
    ensures Xor(a + TOP31, b) == Xor(a, b) + TOP31 && Xor(a + TOP31, b + TOP31) == Xor(a, b)
      && Xor(a, b + TOP31) == Xor(a, b) + TOP31
    ensures Xor(a, b) < TOP31
  {
    hide Xor, Pow2, Shl;
    Pow31();
    XorBound(a, b, 31);
    XorDisjoint(1, a, 31);
    XorDisjoint(1, b, 31);
    XorDisjoint(1, Xor(a, b), 31);
    var t := Shl(1, 31);
    XorAssoc(t, a, b);
    XorComm(t, b);
    XorAssoc(a, b, t);
    XorComm(Xor(a, b), t);
    XorSwap(t, a, t, b);
    XorZero(t);
    XorZero(Xor(a, b));
    XorComm(b, t);
  }

  lemma Pow31()
    ensures Shl(1, 31) == TOP31 && Pow2(31) == TOP31
  {
    ShlIsMul(1, 31);
    Pow2Is64();
    assert Pow2(32) == 2 * Pow2(31);
  }

  // The generator if the top bit is set.
  function Carry(top: bool): nat { if top then POLY else 0 }

  lemma MulXParts(c0: nat, top: bool)
    requires c0 < TOP31
    ensures MulX(if top then c0 + TOP31 else c0) == Xor(2 * c0, Carry(top))
  {
    XorZero(2 * c0);
    hide Xor;
  }

  lemma CarryXor(p: bool, q: bool)
    ensures Xor(Carry(p), Carry(q)) == Carry(p != q)
  {
    XorZero(POLY);
    XorZero(0);
    hide Xor;
  }

  lemma MulXXorParts(a0: nat, p: bool, b0: nat, q: bool)
    requires a0 < TOP31 && b0 < TOP31
    ensures Xor(Xor(2 * a0, Carry(p)), Xor(2 * b0, Carry(q))) == Xor(2 * Xor(a0, b0), Carry(p != q))
  {
    hide *;
    XorSwap(2 * a0, Carry(p), 2 * b0, Carry(q));
    XorDouble(a0, b0);
    CarryXor(p, q);
  }

  /** Multiplication by x is linear. */
  lemma MulXXor(a: nat, b: nat)
    requires a < TOP32 && b < TOP32
    ensures Xor(a, b) < TOP32 && MulX(Xor(a, b)) == Xor(MulX(a), MulX(b))
  {
    hide Xor, MulX, Carry;
    XorBound32(a, b);
    var p, q := a >= TOP31, b >= TOP31;
    var a0, b0 := if p then a - TOP31 else a, if q then b - TOP31 else b;
    XorTop(a0, b0);
    XorTop(b0, a0);
    XorComm(b0, a0);
    XorComm(b0 + TOP31, a0);
    MulXParts(a0, p);
    MulXParts(b0, q);
    MulXParts(Xor(a0, b0), p != q);
    MulXXorParts(a0, p, b0, q);
  }

  // x^n times c.
  function MulXN(c: nat, n: nat): (r: nat)
    requires c < TOP32
    ensures r < TOP32
    decreases n
  {
    if n == 0 then c else (MulXBound(MulXN(c, n - 1)); MulX(MulXN(c, n - 1)))
  }

  lemma {:induction false} MulXNXor(a: nat, b: nat, n: nat)
    requires a < TOP32 && b < TOP32
    ensures Xor(a, b) < TOP32 && MulXN(Xor(a, b), n) == Xor(MulXN(a, n), MulXN(b, n))
    decreases n
  {
    hide Xor, MulX;
    XorBound32(a, b);
    if n != 0 {
      MulXNXor(a, b, n - 1);
      MulXXor(MulXN(a, n - 1), MulXN(b, n - 1));
    }
  }

  lemma {:induction false} MulXNPlus(c: nat, m: nat, n: nat)
    requires c < TOP32
    ensures MulXN(c, m + n) == MulXN(MulXN(c, m), n)
    decreases n
  {
    hide MulX;
    if n != 0 { MulXNPlus(c, m, n - 1); }
  }

  // Numbers that stay below 2^32 are simply shifted.
  lemma {:induction false} MulXNShift(c: nat, n: nat)
    requires Shl(c, n) < TOP32 && c < TOP32
    ensures MulXN(c, n) == Shl(c, n)
    decreases n
  {
    hide Xor;
    if n != 0 {
      assert Shl(c, n) == 2 * Shl(c, n - 1);
      MulXNShift(c, n - 1);
    }
  }

  // a modulo the generator, bit by bit from the top.
  function Rem(a: nat): (r: nat)
    ensures r < TOP32
    decreases a
  {
    if a == 0 then 0
    else
      MulXBound(Rem(a / 2));
      XorBound32(MulX(Rem(a / 2)), a % 2);
      Xor(MulX(Rem(a / 2)), a % 2)
  }

  lemma RemUnfold(a: nat)
    ensures MulX(Rem(a / 2)) < TOP32 && Rem(a) == Xor(MulX(Rem(a / 2)), a % 2)
  {
    MulXBound(Rem(a / 2));
    if a == 0 {
      RemZero();
      XorZero(0);
    }
    hide Xor;
  }

  lemma RemZero()
    ensures Rem(0) == 0 && MulX(0) == 0
  {
  }

  lemma RemDouble(a: nat)
    ensures Rem(2 * a) == MulX(Rem(a))
  {
    hide *;
    RemUnfold(2 * a);
    XorZero(MulX(Rem(a)));
  }

  lemma {:induction false} RemXor(a: nat, b: nat)
    ensures Rem(Xor(a, b)) == Xor(Rem(a), Rem(b))
    decreases a + b
  {
    hide *;
    if a + b == 0 {
      RemZero();
      XorZero(0);
    } else {
      RemXor(a / 2, b / 2);
      XorUnfold(a, b);
      RemUnfold(a);
      RemUnfold(b);
      RemUnfold(Xor(a, b));
      MulXXor(Rem(a / 2), Rem(b / 2));
      XorSwap(MulX(Rem(a / 2)), a % 2, MulX(Rem(b / 2)), b % 2);
      BitXor(a % 2, b % 2);
    }
  }

  lemma BitXor(p: nat, q: nat)
    requires p < 2 && q < 2
    ensures Xor(p, q) == (if p != q then 1 else 0)
  {
    hide Xor;
    XorUnfold(p, q);
    XorZero(0);
  }

  lemma {:induction false} RemSmall(a: nat)
    requires a < TOP32
    ensures Rem(a) == a
    decreases a
  {
    hide Xor, Rem;
    if a == 0 {
      RemZero();
    } else {
      RemSmall(a / 2);
      RemUnfold(a);
      XorDisjointOne(a / 2, a % 2);
    }
  }

  lemma XorDisjointOne(h: nat, p: nat)
    requires p < 2
    ensures Xor(2 * h, p) == 2 * h + p
  {
    hide Xor;
    XorUnfold(2 * h, p);
    XorZero(h);
  }

  lemma {:induction false} RemShl(a: nat, n: nat)
    ensures Rem(Shl(a, n)) == MulXN(Rem(a), n)
    decreases n
  {
    hide Xor, Rem, MulX;
    if n != 0 {
      RemShl(a, n - 1);
      RemDouble(Shl(a, n - 1));
    }
  }

  // ----- carry-less multiplication

  function Clmul(a: nat, b: nat): nat
    decreases a
  {
    if a == 0 then 0 else Xor(2 * Clmul(a / 2, b), if a % 2 == 1 then b else 0)
  }

  lemma ClmulUnfold(a: nat, b: nat)
    ensures Clmul(a, b) == Xor(2 * Clmul(a / 2, b), if a % 2 == 1 then b else 0)
  {
    if a == 0 { XorZero(0); }
    hide Xor;
  }

  /** Multiplying by anything congruent to x^n multiplies the remainder by x^n. */
  lemma {:induction false} ClmulRem(a: nat, k: nat, n: nat)
    requires Rem(k) == MulXN(1, n)
    ensures Rem(Clmul(a, k)) == MulXN(Rem(a), n)
    decreases a
  {
    hide Xor, Rem, MulX, MulXN, Clmul;
    if a == 0 {
      ClmulZero(k);
      RemZero();
      MulXNZero(n);
    } else {
      ClmulRem(a / 2, k, n);
      ClmulUnfold(a, k);
      var low := if a % 2 == 1 then k else 0;
      RemXor(2 * Clmul(a / 2, k), low);
      RemDouble(Clmul(a / 2, k));
      RemUnfold(a);
      MulXBound(Rem(a / 2));
      MulXNXor(MulX(Rem(a / 2)), a % 2, n);
      MulXNMulX(Rem(a / 2), n);
      RemZero();
      MulXNZero(n);
    }
  }

  lemma ClmulZero(k: nat)
    ensures Clmul(0, k) == 0
  {
  }

  lemma {:induction false} MulXNZero(n: nat)
    ensures MulXN(0, n) == 0
    decreases n
  {
    if n != 0 { MulXNZero(n - 1); RemZero(); }
  }

  lemma {:induction false} MulXNMulX(c: nat, n: nat)
    requires c < TOP32
    ensures MulX(c) < TOP32 && MulXN(MulX(c), n) == MulX(MulXN(c, n))
    decreases n
  {
    hide MulX, Xor;
    MulXBound(c);
    if n != 0 { MulXNMulX(c, n - 1); }
  }

  lemma {:induction false} ClmulXorLeft(a: nat, b: nat, k: nat)
    ensures Clmul(Xor(a, b), k) == Xor(Clmul(a, k), Clmul(b, k))
    decreases a + b
  {
    hide Xor, Clmul;
    if a + b == 0 {
      XorZero(0);
      ClmulZero(k);
    } else {
      ClmulXorLeft(a / 2, b / 2, k);
      XorUnfold(a, b);
      ClmulUnfold(a, k);
      ClmulUnfold(b, k);
      ClmulUnfold(Xor(a, b), k);
      XorDouble(Clmul(a / 2, k), Clmul(b / 2, k));
      var p, q := if a % 2 == 1 then k else 0, if b % 2 == 1 then k else 0;
      XorSwap(2 * Clmul(a / 2, k), p, 2 * Clmul(b / 2, k), q);
      XorZero(k);
      XorZero(0);
    }
  }

  lemma {:induction false} ClmulXorRight(a: nat, b: nat, c: nat)
    ensures Clmul(a, Xor(b, c)) == Xor(Clmul(a, b), Clmul(a, c))
    decreases a
  {
    hide Xor, Clmul;
    if a == 0 {
      ClmulZero(b);
      ClmulZero(c);
      ClmulZero(Xor(b, c));
      XorZero(0);
    } else {
      ClmulXorRight(a / 2, b, c);
      ClmulUnfold(a, b);
      ClmulUnfold(a, c);
      ClmulUnfold(a, Xor(b, c));
      XorDouble(Clmul(a / 2, b), Clmul(a / 2, c));
      var p, q := if a % 2 == 1 then b else 0, if a % 2 == 1 then c else 0;
      XorSwap(2 * Clmul(a / 2, b), p, 2 * Clmul(a / 2, c), q);
      XorZero(0);
    }
  }

  lemma {:induction false} ClmulDoubleRight(a: nat, b: nat)
    ensures Clmul(a, 2 * b) == 2 * Clmul(a, b)
    decreases a
  {
    hide Xor, Clmul;
    if a == 0 {
      ClmulZero(b);
      ClmulZero(2 * b);
    } else {
      ClmulDoubleRight(a / 2, b);
      ClmulUnfold(a, b);
      ClmulUnfold(a, 2 * b);
      XorDouble(2 * Clmul(a / 2, b), if a % 2 == 1 then b else 0);
    }
  }

  lemma ClmulDoubleLeft(a: nat, b: nat)
    ensures Clmul(2 * a, b) == 2 * Clmul(a, b)
  {
    hide Xor, Clmul;
    ClmulUnfold(2 * a, b);
    XorZero(2 * Clmul(a, b));
  }

  lemma {:induction false} ClmulShlLeft(a: nat, b: nat, n: nat)
    ensures Clmul(Shl(a, n), b) == Shl(Clmul(a, b), n)
    decreases n
  {
    hide Clmul;
    if n != 0 {
      ClmulShlLeft(a, b, n - 1);
      ClmulDoubleLeft(Shl(a, n - 1), b);
    }
  }

  lemma {:induction false} ClmulAssoc(a: nat, b: nat, c: nat)
    ensures Clmul(Clmul(a, b), c) == Clmul(a, Clmul(b, c))
    decreases a
  {
    hide Xor, Clmul;
    if a == 0 {
      ClmulZero(b);
      ClmulZero(c);
      ClmulZero(Clmul(b, c));
    } else {
      ClmulAssoc(a / 2, b, c);
      ClmulUnfold(a, b);
      ClmulUnfold(a, Clmul(b, c));
      var low := if a % 2 == 1 then b else 0;
      ClmulXorLeft(2 * Clmul(a / 2, b), low, c);
      ClmulDoubleLeft(Clmul(a / 2, b), c);
      ClmulZero(c);
    }
  }

  // Multiplying by x^n.
  lemma {:induction false} ClmulPow(a: nat, n: nat)
    ensures Clmul(a, Shl(1, n)) == Shl(a, n)
    decreases n
  {
    hide Clmul;
    if n == 0 {
      ClmulOne(a);
    } else {
      ClmulPow(a, n - 1);
      ClmulDoubleRight(a, Shl(1, n - 1));
    }
  }

  lemma {:induction false} ClmulOne(a: nat)
    ensures Clmul(a, 1) == a
    decreases a
  {
    hide Xor, Clmul;
    if a == 0 {
      ClmulZero(1);
    } else {
      ClmulOne(a / 2);
      ClmulUnfold(a, 1);
      XorDisjointOne(a / 2, a % 2);
    }
  }

  // Degrees add.
  lemma {:induction false} ClmulBound(a: nat, b: nat, n: nat, m: nat)
    requires a < Pow2(n) && b < Pow2(m)
    ensures Clmul(a, b) < Pow2(n + m) && (1 <= n && 1 <= m ==> Clmul(a, b) < Pow2(n + m - 1))
    decreases n
  {
    hide Xor, Clmul;
    if n == 0 {
      ClmulZero(b);
    } else {
      ClmulBound(a / 2, b, n - 1, m);
      ClmulUnfold(a, b);
      if n == 1 {
        ClmulZero(b);
        XorZero(if a % 2 == 1 then b else 0);
        Pow2Mono(m, n + m);
        if m == 0 { assert b == 0; }
      } else {
        if m >= 1 {
          Pow2Mono(m, n + m - 1);
          XorBound(2 * Clmul(a / 2, b), if a % 2 == 1 then b else 0, n + m - 1);
          Pow2Mono(n + m - 1, n + m);
        } else {
          Pow2Mono(m, n + m);
          XorBound(2 * Clmul(a / 2, b), if a % 2 == 1 then b else 0, n + m);
        }
      }
    }
  }
}
