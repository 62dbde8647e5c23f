/**
 Bits, most significant first, and their relation to the machine words and
 bytes that carry them.  Both bit buffers of the codec are 64-bit words; the
 words are natural numbers here and every truncation is written out.
 */
module Bits {

  type Byte = b: int | 0 <= b < 256
  type UInt16 = x: int | 0 <= x < 0x1_0000

  const WORD64: nat := 0x1_0000_0000_0000_0000

  function Pow2(n: nat): (p: nat)
    ensures 1 <= p
    decreases n
  {
    if n == 0 then 1 else 2 * Pow2(n - 1)
  }

  function Val(b: seq<bool>): nat
    decreases |b|
  {
    if b == [] then 0 else 2 * Val(b[..|b| - 1]) + (if b[|b| - 1] then 1 else 0)
  }

  function ToBits(v: nat, n: nat): (b: seq<bool>)
    ensures |b| == n
    decreases n
  {
    if n == 0 then [] else ToBits(v / 2, n - 1) + [v % 2 == 1]
  }

  function BytesToBits(s: seq<Byte>): (b: seq<bool>)
    ensures |b| == 8 * |s|
    decreases |s|
  {
    if s == [] then [] else BytesToBits(s[..|s| - 1]) + ToBits(s[|s| - 1], 8)
  }

  lemma {:induction false} Pow2Add(a: nat, b: nat)
    ensures Pow2(a + b) == Pow2(a) * Pow2(b)
    decreases b
  {
    if b != 0 {
      Pow2Add(a, b - 1);
    }
  }

  lemma {:induction false} Pow2Mono(a: nat, b: nat)
    requires a <= b
    ensures Pow2(a) <= Pow2(b)
    decreases b
  {
    if a < b {
      Pow2Mono(a, b - 1);
    }
  }

  lemma Pow2Is64()
    ensures Pow2(64) == WORD64 && Pow2(32) == 0x1_0000_0000 && Pow2(8) == 256
  {
    assert Pow2(8) == 256;
    assert Pow2(16) == 0x1_0000 by { Pow2Add(8, 8); }
    assert Pow2(32) == 0x1_0000_0000 by { Pow2Add(16, 16); }
    assert Pow2(64) == WORD64 by { Pow2Add(32, 32); }
  }

  lemma DivMod(v: nat, p: nat)
    requires 0 < p
    ensures v == (v / p) * p + v % p && v % p < p
  {
  }

  lemma QuotientUnique(q: nat, r: nat, q': nat, r': nat, p: nat)
    requires r < p && r' < p && q * p + r == q' * p + r'
    ensures q == q' && r == r'
  {
    if q < q' {
      MulMono(q + 1, q', p);
    } else if q' < q {
      MulMono(q' + 1, q, p);
    }
  }

  lemma MulMono(a: nat, b: nat, p: nat)
    requires a <= b
    ensures a * p <= b * p
  {
  }

  // (q * p + r) has quotient q and remainder r.
  lemma DivModUnique(q: nat, p: nat, r: nat)
    requires r < p
    ensures (q * p + r) / p == q && (q * p + r) % p == r
  {
    var v := q * p + r;
    DivMod(v, p);
    QuotientUnique(v / p, v % p, q, r, p);
  }

  lemma HalveMod(v: nat, p: nat)
    requires 0 < p
    ensures v % (2 * p) == 2 * ((v / 2) % p) + v % 2
    ensures v / (2 * p) == (v / 2) / p
  {
    DivMod(v / 2, p);
    var q, r := (v / 2) / p, (v / 2) % p;
    assert v == q * (2 * p) + (2 * r + v % 2) by {
      assert v == 2 * (v / 2) + v % 2;
      assert 2 * (q * p) == q * (2 * p);
    }
    DivModUnique(q, 2 * p, 2 * r + v % 2);
  }

  lemma {:induction false} ValToBits(v: nat, n: nat)
    ensures Val(ToBits(v, n)) == v % Pow2(n)
    decreases n
  {
    if n != 0 {
      ValToBits(v / 2, n - 1);
      HalveMod(v, Pow2(n - 1));
      assert ToBits(v, n)[..n - 1] == ToBits(v / 2, n - 1);
    }
  }

  lemma ValOfWord(v: nat, n: nat)
    requires v < Pow2(n)
    ensures Val(ToBits(v, n)) == v
  {
    ValToBits(v, n);
  }

  lemma {:induction false} ToBitsVal(b: seq<bool>)
    ensures ToBits(Val(b), |b|) == b && Val(b) < Pow2(|b|)
    decreases |b|
  {
    if b != [] {
      ToBitsVal(b[..|b| - 1]);
      assert b == b[..|b| - 1] + [b[|b| - 1]];
    }
  }

  lemma {:induction false} ToBitsConcat(v: nat, w: nat, n: nat, m: nat)
    requires w < Pow2(m)
    ensures ToBits(Shl(v, m) + w, n + m) == ToBits(v, n) + ToBits(w, m)
    decreases m
  {
    if m != 0 {
      ToBitsConcat(v, w / 2, n, m - 1);
    }
  }

  // v >> m
  function Shr(v: nat, m: nat): nat
    decreases m
  {
    if m == 0 then v else Shr(v / 2, m - 1)
  }

  lemma {:induction false} ShrIsDiv(v: nat, m: nat)
    ensures Shr(v, m) == v / Pow2(m)
    decreases m
  {
    if m != 0 {
      ShrIsDiv(v / 2, m - 1);
      HalveMod(v, Pow2(m - 1));
    }
  }

  lemma {:induction false} ToBitsSplit(v: nat, n: nat, m: nat)
    ensures ToBits(v, n + m) == ToBits(Shr(v, m), n) + ToBits(v, m)
    decreases m
  {
    if m != 0 {
      ToBitsSplit(v / 2, n, m - 1);
    }
  }

  // Only the low n bits of a word matter, so truncating it further up is harmless.
  lemma {:induction false} ToBitsMod(v: nat, n: nat, k: nat)
    requires n <= k
    ensures ToBits(v % Pow2(k), n) == ToBits(v, n)
    decreases n
  {
    if n != 0 {
      HalveMod(v, Pow2(k - 1));
      var x := v % Pow2(k);
      assert x / 2 == (v / 2) % Pow2(k - 1) && x % 2 == v % 2;
      ToBitsMod(v / 2, n - 1, k - 1);
    }
  }

  lemma {:induction false} BytesToBitsConcat(s: seq<Byte>, t: seq<Byte>)
    ensures BytesToBits(s + t) == BytesToBits(s) + BytesToBits(t)
    decreases |t|
  {
    hide ToBits;
    if t == [] {
      assert s + t == s;
    } else {
      var t0, c := t[..|t| - 1], t[|t| - 1];
      BytesToBitsConcat(s, t0);
      BytesToBitsSnoc(s + t0, c);
      BytesToBitsSnoc(t0, c);
      assert s + t == s + t0 + [c] && t == t0 + [c];
    }
  }

  lemma NoBytes()
    ensures BytesToBits([]) == []
  {
  }

  lemma BytesToBitsSnoc(s: seq<Byte>, c: Byte)
    ensures BytesToBits(s + [c]) == BytesToBits(s) + ToBits(c, 8)
  {
    assert (s + [c])[..|s|] == s;
  }

  // Bitwise or of two words.
  function Or(a: nat, b: nat): nat
    decreases a + b
  {
    if a == 0 && b == 0 then 0
    else 2 * Or(a / 2, b / 2) + (if a % 2 == 1 || b % 2 == 1 then 1 else 0)
  }

  // v << m
  function Shl(v: nat, m: nat): nat
    decreases m
  {
    if m == 0 then v else 2 * Shl(v, m - 1)
  }

  lemma {:induction false} ShlIsMul(v: nat, m: nat)
    ensures Shl(v, m) == v * Pow2(m)
    decreases m
  {
    if m != 0 {
      ShlIsMul(v, m - 1);
      MulTwo(v, Pow2(m - 1));
    }
  }

  lemma MulTwo(v: nat, p: nat)
    ensures v * (2 * p) == 2 * (v * p)
  {
  }

  // Or-ing disjoint bit fields adds them.
  lemma {:induction false} OrDisjoint(q: nat, b: nat, k: nat)
    requires b < Pow2(k)
    ensures Or(Shl(q, k), b) == Shl(q, k) + b
    decreases k
  {
    if k == 0 {
      OrZero(q);
    } else {
      OrDisjoint(q, b / 2, k - 1);
    }
  }

  lemma {:induction false} OrZero(a: nat)
    ensures Or(a, 0) == a
    decreases a
  {
    if a != 0 {
      OrZero(a / 2);
    }
  }

  lemma {:induction false} ShrPlus(w: nat, m: nat, n: nat)
    ensures Shr(Shr(w, m), n) == Shr(w, m + n)
    decreases m
  {
    if m != 0 { ShrPlus(w / 2, m - 1, n); }
  }

  lemma {:induction false} ShrShlPlus(a: nat, r: nat, m: nat)
    requires r < Pow2(m)
    ensures Shr(Shl(a, m) + r, m) == a
    decreases m
  {
    if m != 0 {
      assert (Shl(a, m) + r) / 2 == Shl(a, m - 1) + r / 2;
      ShrShlPlus(a, r / 2, m - 1);
    }
  }

  lemma {:induction false} ShrDecompose(w: nat, m: nat) returns (r: nat)
    ensures r < Pow2(m) && w == Shl(Shr(w, m), m) + r
    decreases m
  {
    if m == 0 {
      r := 0;
    } else {
      r := ShrDecompose(w / 2, m - 1);
      r := 2 * r + w % 2;
    }
  }

  lemma {:induction false} ShlPlus(w: nat, m: nat, n: nat)
    ensures Shl(Shl(w, m), n) == Shl(w, m + n)
    decreases n
  {
    if n != 0 { ShlPlus(w, m, n - 1); }
  }

  lemma {:induction false} ShlMono(a: nat, b: nat, m: nat)
    requires a <= b
    ensures Shl(a, m) <= Shl(b, m)
    decreases m
  {
    if m != 0 { ShlMono(a, b, m - 1); }
  }

  lemma PowZero()
    ensures Pow2(0) == 1
  {
  }

  lemma ShlNone(e: nat)
    ensures Shl(e, 0) == e
  {
  }

  lemma ShrNone(a: nat)
    ensures Shr(a, 0) == a
  {
  }

  lemma {:induction false} ShrFits(c: nat, n: nat, m: nat)
    requires c < Pow2(n + m)
    ensures Shr(c, m) < Pow2(n)
    decreases m
  {
    if m != 0 { ShrFits(c / 2, n, m - 1); }
  }

  lemma {:induction false} ShlBelow(w: nat, n: nat, k: nat)
    requires w < Pow2(n)
    ensures Shl(w, k) < Pow2(n + k)
    decreases k
  {
    if k != 0 { ShlBelow(w, n, k - 1); }
  }

  // ----- sequences

  lemma NoTail<T>(a: seq<T>)
    ensures a + [] == a
  {
  }

  lemma Joins<T>(a: seq<T>, b: seq<T>, c: seq<T>)
    ensures a + (b + c) == a + b + c
  {
  }

  lemma JoinsFour<T>(a: seq<T>, b: seq<T>, c: seq<T>, d: seq<T>)
    ensures a + b + c + d == a + (b + (c + d))
  {
  }

  lemma PrefixOn<T>(s: seq<T>, a: nat, b: nat)
    requires a <= b <= |s|
    ensures s[..b] == s[..a] + s[a..b]
  {
  }

  // x has not occurred before its first place.
  lemma NotBefore(s: seq<Byte>, x: Byte, at: nat, j: nat)
    requires at < |s| && x !in s[..at] && j <= at
    ensures j < at ==> s[j] != x
  {
    if j < at { assert s[..at][j] == s[j]; }
  }
}
