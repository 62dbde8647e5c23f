/**
 Canonical Huffman codes: assignment on the encoder side, limit/base/perm tables
 on the decoder side, and the bit-by-bit decoding they support.
 */
module Codes {
  import opened Bits
  import Forest

  const MAX_LEN: nat := 20       // longest code the decoder accepts
  const TABLE_ROWS: nat := 23    // BZ_MAX_CODE_LEN

  // Code lengths as the decoder admits them.
  predicate ValidLens(lens: seq<int>) {
    1 <= |lens| <= 258 && forall i :: 0 <= i < |lens| ==> 1 <= lens[i] <= MAX_LEN
  }

  // Symbols before i whose code has length n; symbols before i with a shorter code.
  function Rank(lens: seq<int>, n: int, i: nat): (k: nat)
    requires i <= |lens|
    ensures k <= i
    decreases i
  {
    if i == 0 then 0 else Rank(lens, n, i - 1) + (if lens[i - 1] == n then 1 else 0)
  }

  function Shorter(lens: seq<int>, n: int, i: nat): (k: nat)
    requires i <= |lens|
    ensures k <= i
    decreases i
  {
    if i == 0 then 0 else Shorter(lens, n, i - 1) + (if lens[i - 1] < n then 1 else 0)
  }

  // The first code of length n, and the number of codes of length n.
  function First(lens: seq<int>, n: int): (c: nat)
    decreases n
  {
    if n <= 0 then 0 else 2 * (First(lens, n - 1) + Rank(lens, n - 1, |lens|))
  }

  function Code(lens: seq<int>, s: int): nat
    requires 0 <= s < |lens|
  {
    First(lens, lens[s]) + Rank(lens, lens[s], s)
  }

  // The position of symbol s in (length, symbol) order.
  function Slot(lens: seq<int>, s: int): nat
    requires 0 <= s < |lens|
  {
    Shorter(lens, lens[s], |lens|) + Rank(lens, lens[s], s)
  }

  lemma {:induction false} ShorterStep(lens: seq<int>, n: int, i: nat)
    requires i <= |lens|
    ensures Shorter(lens, n + 1, i) == Shorter(lens, n, i) + Rank(lens, n, i)
    decreases i
  {
    if i != 0 { ShorterStep(lens, n, i - 1); }
  }

  lemma {:induction false} RankMono(lens: seq<int>, n: int, i: nat, j: nat)
    requires i <= j <= |lens|
    ensures Rank(lens, n, i) <= Rank(lens, n, j)
    decreases j
  {
    if i < j { RankMono(lens, n, i, j - 1); }
  }

  lemma {:induction false} ShorterMono(lens: seq<int>, m: int, n: int, i: nat)
    requires m <= n && i <= |lens|
    ensures Shorter(lens, m, i) <= Shorter(lens, n, i)
    decreases i
  {
    if i != 0 { ShorterMono(lens, m, n, i - 1); }
  }

  lemma {:induction false} NoneBelow(lens: seq<int>, n: int, i: nat)
    requires i <= |lens| && forall k :: 0 <= k < |lens| ==> n <= lens[k]
    ensures Shorter(lens, n, i) == 0 && forall m :: m < n ==> Rank(lens, m, i) == 0
    decreases i
  {
    if i != 0 { NoneBelow(lens, n, i - 1); }
  }

  lemma {:induction false} AllBelow(lens: seq<int>, n: int, i: nat)
    requires i <= |lens| && forall k :: 0 <= k < |lens| ==> lens[k] < n
    ensures Shorter(lens, n, i) == i
    decreases i
  {
    if i != 0 { AllBelow(lens, n, i - 1); }
  }

  lemma {:induction false} FirstIsZero(lens: seq<int>, n: int, m: int)
    requires m <= n && forall k :: 0 <= k < |lens| ==> n <= lens[k]
    ensures First(lens, m) == 0
    decreases m
  {
    if 0 < m {
      FirstIsZero(lens, n, m - 1);
      NoneBelow(lens, n, |lens|);
    }
  }

  lemma SlotBounds(lens: seq<int>, s: int)
    requires 0 <= s < |lens|
    ensures Shorter(lens, lens[s], |lens|) <= Slot(lens, s) < Shorter(lens, lens[s] + 1, |lens|) <= |lens|
  {
    RankMono(lens, lens[s], s + 1, |lens|);
    ShorterStep(lens, lens[s], |lens|);
  }

  lemma SlotInjective(lens: seq<int>, s: int, t: int)
    requires 0 <= s < |lens| && 0 <= t < |lens| && Slot(lens, s) == Slot(lens, t)
    ensures s == t
  {
    SlotBounds(lens, s);
    SlotBounds(lens, t);
    if lens[s] < lens[t] {
      ShorterMono(lens, lens[s] + 1, lens[t], |lens|);
    } else if lens[t] < lens[s] {
      ShorterMono(lens, lens[t] + 1, lens[s], |lens|);
    } else if s < t {
      RankMono(lens, lens[s], s + 1, t);
    } else if t < s {
      RankMono(lens, lens[s], t + 1, s);
    }
  }

  // ----- the codes fit and are prefix-free

  // The end of the code range of length n, shifted to length m, does not pass the start of m's.
  lemma {:induction false} FirstGrows(lens: seq<int>, n: int, m: int)
    requires 0 <= n < m
    ensures Shl(First(lens, n) + Rank(lens, n, |lens|), m - n) <= First(lens, m)
    decreases m
  {
    if n + 1 < m {
      FirstGrows(lens, n, m - 1);
    }
  }

  // Every proper prefix of a code lies beyond all codes of the prefix's length.
  lemma PrefixBeyond(lens: seq<int>, s: int, n: int)
    requires ValidLens(lens) && 0 <= s < |lens| && 0 <= n < lens[s]
    ensures First(lens, n) + Rank(lens, n, |lens|) <= Shr(Code(lens, s), lens[s] - n)
  {
    hide Shl, Shr, First, Rank;
    FirstGrows(lens, n, lens[s]);
    ShrMono(Shl(First(lens, n) + Rank(lens, n, |lens|), lens[s] - n), Code(lens, s), lens[s] - n);
    ShrShl(First(lens, n) + Rank(lens, n, |lens|), lens[s] - n);
  }

  lemma {:induction false} ShrMono(a: nat, b: nat, m: nat)
    requires a <= b
    ensures Shr(a, m) <= Shr(b, m)
    decreases m
  {
    if m != 0 { ShrMono(a / 2, b / 2, m - 1); }
  }

  lemma {:induction false} ShrShl(a: nat, m: nat)
    ensures Shr(Shl(a, m), m) == a
    decreases m
  {
    if m != 0 {
      assert Shl(a, m) / 2 == Shl(a, m - 1);
      ShrShl(a, m - 1);
    }
  }

  /** Canonical codes are prefix-free. */
  lemma PrefixFree(lens: seq<int>, s: int, t: int)
    requires ValidLens(lens) && 0 <= s < |lens| && 0 <= t < |lens| && s != t && lens[s] <= lens[t]
    ensures Shr(Code(lens, t), lens[t] - lens[s]) != Code(lens, s)
  {
    if lens[s] < lens[t] {
      PrefixBeyond(lens, t, lens[s]);
      RankMono(lens, lens[s], s + 1, |lens|);
    } else if s < t {
      RankMono(lens, lens[s], s + 1, t);
    } else {
      RankMono(lens, lens[s], t + 1, s);
    }
  }

  // The code space is not over-subscribed.
  ghost predicate Fits(lens: seq<int>) {
    forall s :: 0 <= s < |lens| ==> 0 <= lens[s] && Code(lens, s) < Pow2(lens[s])
  }

  // Kraft sum of the codes shorter than n, scaled by 2^TOP.
  ghost function KraftBelow(lens: seq<int>, n: int, i: nat): nat
    requires Forest.Short(lens) && i <= |lens|
    decreases i
  {
    if i == 0 then 0
    else KraftBelow(lens, n, i - 1) + (if lens[i - 1] < n then Pow2(Forest.TOP - lens[i - 1]) else 0)
  }

  lemma {:induction false} ShlAdd(a: nat, b: nat, m: nat)
    ensures Shl(a + b, m) == Shl(a, m) + Shl(b, m)
    decreases m
  {
    if m != 0 { ShlAdd(a, b, m - 1); }
  }

  lemma {:induction false} ShlPow2(n: nat, m: nat)
    ensures Shl(Pow2(n), m) == Pow2(n + m)
    decreases m
  {
    if m != 0 { ShlPow2(n, m - 1); }
  }

  lemma {:induction false} ShlReflects(a: nat, b: nat, m: nat)
    requires Shl(a, m) <= Shl(b, m)
    ensures a <= b
    decreases m
  {
    if m != 0 { ShlReflects(a, b, m - 1); }
  }

  lemma {:induction false} ShlTwice(a: nat, m: nat)
    ensures Shl(2 * a, m) == Shl(a, m + 1)
    decreases m
  {
    if m != 0 { ShlTwice(a, m - 1); }
  }

  lemma {:induction false} KraftBelowStep(lens: seq<int>, n: int, i: nat)
    requires Forest.Short(lens) && i <= |lens| && 0 <= n <= Forest.TOP
    ensures KraftBelow(lens, n + 1, i) == KraftBelow(lens, n, i) + Shl(Rank(lens, n, i), Forest.TOP - n)
    decreases i
  {
    var m := Forest.TOP - n;
    if i == 0 {
      ShlZero(m);
    } else {
      KraftBelowStep(lens, n, i - 1);
      if lens[i - 1] == n {
        ShlAdd(Rank(lens, n, i - 1), 1, m);
        ShlPow2(0, m);
      }
    }
  }

  lemma {:induction false} ShlZero(m: nat)
    ensures Shl(0, m) == 0
    decreases m
  {
    if m != 0 { ShlZero(m - 1); }
  }

  lemma {:induction false} KraftBelowTotal(lens: seq<int>, n: int, i: nat)
    requires Forest.Short(lens) && i <= |lens|
    ensures KraftBelow(lens, n, i) <= Forest.KraftSum(lens[..i])
    decreases i
  {
    hide Pow2;
    if i != 0 {
      KraftBelowTotal(lens, n, i - 1);
      assert lens[..i][..i - 1] == lens[..i - 1];
    }
  }

  lemma {:induction false} FirstIsKraft(lens: seq<int>, n: int)
    requires Forest.Short(lens) && ValidLens(lens) && 0 <= n <= Forest.TOP
    ensures Shl(First(lens, n), Forest.TOP - n) == KraftBelow(lens, n, |lens|)
    decreases n
  {
    hide Shl, KraftBelow, Rank;
    var m := Forest.TOP - n;
    if n == 0 {
      KraftBelowNone(lens, |lens|);
      ShlZero(m);
    } else {
      FirstIsKraft(lens, n - 1);
      KraftBelowStep(lens, n - 1, |lens|);
      var f, r := First(lens, n - 1), Rank(lens, n - 1, |lens|);
      ShlTwice(f + r, m);
      ShlAdd(f, r, m + 1);
    }
  }

  lemma {:induction false} KraftBelowNone(lens: seq<int>, i: nat)
    requires Forest.Short(lens) && ValidLens(lens) && i <= |lens|
    ensures KraftBelow(lens, 0, i) == 0
    decreases i
  {
    if i != 0 { KraftBelowNone(lens, i - 1); }
  }

  // Through length n the codes take no more than the whole space.
  lemma RangeFits(lens: seq<int>, n: nat)
    requires ValidLens(lens) && Forest.Short(lens) && n <= MAX_LEN
    requires Forest.KraftSum(lens) <= Pow2(Forest.TOP)
    ensures First(lens, n) + Rank(lens, n, |lens|) <= Pow2(n)
  {
    hide Shl, KraftBelow, Rank, First, Pow2, Forest.KraftSum;
    var m := Forest.TOP - n;
    var f, r := First(lens, n), Rank(lens, n, |lens|);
    FirstIsKraft(lens, n);
    KraftBelowStep(lens, n, |lens|);
    KraftBelowTotal(lens, n + 1, |lens|);
    assert lens[..|lens|] == lens;
    ShlAdd(f, r, m);
    ShlPow2(n, m);
    ShlReflects(f + r, Pow2(n), m);
  }

  /** Lengths meeting the Kraft inequality have room for every code. */
  lemma KraftFits(lens: seq<int>)
    requires ValidLens(lens) && Forest.Short(lens) && Forest.KraftSum(lens) <= Pow2(Forest.TOP)
    ensures Fits(lens)
  {
    hide Rank, First, Pow2, Forest.KraftSum;
    forall s | 0 <= s < |lens|
      ensures Code(lens, s) < Pow2(lens[s])
    {
      RangeFits(lens, lens[s]);
      RankBelow(lens, s);
    }
  }

  lemma RankBelow(lens: seq<int>, s: int)
    requires 0 <= s < |lens|
    ensures Rank(lens, lens[s], s) < Rank(lens, lens[s], |lens|)
  {
    RankMono(lens, lens[s], s + 1, |lens|);
  }

  // ----- code assignment

  function MinLen(lens: seq<int>, i: nat): (m: int)
    requires i <= |lens|
    decreases i
  {
    if i == 0 then 32 else if lens[i - 1] < MinLen(lens, i - 1) then lens[i - 1] else MinLen(lens, i - 1)
  }

  function MaxLen(lens: seq<int>, i: nat): (m: int)
    requires i <= |lens|
    decreases i
  {
    if i == 0 then 0 else if lens[i - 1] > MaxLen(lens, i - 1) then lens[i - 1] else MaxLen(lens, i - 1)
  }

  lemma {:induction false} MinMaxBounds(lens: seq<int>, i: nat)
    requires ValidLens(lens) && 1 <= i <= |lens|
    ensures 1 <= MinLen(lens, i) <= MaxLen(lens, i) <= MAX_LEN
    ensures forall k :: 0 <= k < i ==> MinLen(lens, i) <= lens[k] <= MaxLen(lens, i)
    decreases i
  {
    if i != 1 { MinMaxBounds(lens, i - 1); }
  }

  /** BZ2_hbAssignCodes: every symbol receives its canonical code. */
  method AssignCodes(code: array<int>, length: array<int>, minLen: int, maxLen: int, alphaSize: nat)
    requires code != length && alphaSize <= code.Length && alphaSize <= length.Length && 1 <= minLen <= maxLen + 1
    requires forall i :: 0 <= i < alphaSize ==> minLen <= length[i] <= maxLen
    modifies code
    ensures forall i :: 0 <= i < alphaSize ==> code[i] == Code(length[..alphaSize], i)
    ensures forall i :: alphaSize <= i < code.Length ==> code[i] == old(code[i])
  {
    ghost var lens := length[..alphaSize];
    FirstIsZero(lens, minLen, minLen);
    var vec := 0;
    for n := minLen to maxLen + 1
      invariant vec == First(lens, n)
      invariant length[..alphaSize] == lens
      invariant forall i :: 0 <= i < alphaSize && lens[i] < n ==> code[i] == Code(lens, i)
      invariant forall i :: alphaSize <= i < code.Length ==> code[i] == old(code[i])
    {
      for i := 0 to alphaSize
        invariant vec == First(lens, n) + Rank(lens, n, i)
        invariant length[..alphaSize] == lens
        invariant forall k :: 0 <= k < alphaSize && (lens[k] < n || (lens[k] == n && k < i)) ==>
          code[k] == Code(lens, k)
        invariant forall k :: alphaSize <= k < code.Length ==> code[k] == old(code[k])
      {
        assert length[i] == lens[i];
        if length[i] == n { code[i] := vec; vec := vec + 1; }
      }
      vec := vec * 2;
    }
  }

  // ----- decoding tables

  datatype Table = Table(limit: seq<int>, base: seq<int>, perm: seq<int>, minLen: int)

  // The symbols below i whose code has length n, in order.
  function OfLength(lens: seq<int>, n: int, i: nat): (p: seq<int>)
    requires i <= |lens|
    ensures |p| == Rank(lens, n, i)
    decreases i
  {
    if i == 0 then []
    else OfLength(lens, n, i - 1) + (if lens[i - 1] == n then [i - 1] else [])
  }

  // All symbols with codes shorter than n, by length and then by symbol.
  function PermBelow(lens: seq<int>, n: nat): (p: seq<int>)
    decreases n
  {
    if n == 0 then [] else PermBelow(lens, n - 1) + OfLength(lens, n - 1, |lens|)
  }

  lemma {:induction false} SymbolAt(lens: seq<int>, n: int, i: nat, s: int)
    requires i <= |lens| && 0 <= s < i && lens[s] == n
    ensures Rank(lens, n, s) < Rank(lens, n, i) && OfLength(lens, n, i)[Rank(lens, n, s)] == s
    decreases i
  {
    if s < i - 1 { SymbolAt(lens, n, i - 1, s); }
  }

  lemma {:induction false} PermBelowSize(lens: seq<int>, n: nat)
    requires ValidLens(lens)
    ensures |PermBelow(lens, n)| == Shorter(lens, n, |lens|)
    decreases n
  {
    hide Rank, Shorter, OfLength;
    if n == 0 {
      NoneBelow(lens, 1, |lens|);
      ShorterMono(lens, 0, 1, |lens|);
    } else {
      PermBelowSize(lens, n - 1);
      ShorterStep(lens, n - 1, |lens|);
    }
  }

  lemma PermNext(lens: seq<int>, i: nat)
    ensures PermBelow(lens, i + 1) == PermBelow(lens, i) + OfLength(lens, i, |lens|)
  {
  }

  lemma {:induction false} PermAt(lens: seq<int>, n: nat, s: int)
    requires ValidLens(lens) && 0 <= s < |lens| && lens[s] < n
    ensures Slot(lens, s) < |PermBelow(lens, n)| && PermBelow(lens, n)[Slot(lens, s)] == s
    decreases n
  {
    hide Rank, Shorter, OfLength, PermBelow;
    PermBelowSize(lens, n - 1);
    PermNext(lens, n - 1);
    if lens[s] == n - 1 {
      SymbolAt(lens, n - 1, |lens|, s);
    } else {
      PermAt(lens, n - 1, s);
    }
  }

  function Limit(lens: seq<int>, n: int): int {
    if MinLen(lens, |lens|) <= n <= MaxLen(lens, |lens|) then First(lens, n) + Rank(lens, n, |lens|) - 1 else 0
  }

  function Base(lens: seq<int>, n: int): int {
    if MinLen(lens, |lens|) < n <= MaxLen(lens, |lens|) then First(lens, n) - Shorter(lens, n, |lens|)
    else Shorter(lens, n, |lens|)
  }

  // The decoding table of a length vector.
  function MakeTable(lens: seq<int>): Table
  {
    Table(seq(TABLE_ROWS, n => Limit(lens, n)), seq(TABLE_ROWS, n => Base(lens, n)), Perm(lens), MinLen(lens, |lens|))
  }

  // All symbols, by code length and then by symbol.
  function Perm(lens: seq<int>): (p: seq<int>)
    ensures ValidLens(lens) ==> |p| == |lens|
  {
    if ValidLens(lens) then PermSize(lens); PermBelow(lens, MaxLen(lens, |lens|) + 1) else []
  }

  lemma PermSize(lens: seq<int>)
    requires ValidLens(lens)
    ensures 0 <= MaxLen(lens, |lens|) && |PermBelow(lens, MaxLen(lens, |lens|) + 1)| == |lens|
  {
    hide PermBelow;
    MinMaxBounds(lens, |lens|);
    PermBelowSize(lens, MaxLen(lens, |lens|) + 1);
    AllBelow(lens, MaxLen(lens, |lens|) + 1, |lens|);
  }

  lemma {:induction false} SymbolsInRange(lens: seq<int>, n: int, i: nat, k: int)
    requires i <= |lens| && 0 <= k < Rank(lens, n, i)
    ensures 0 <= OfLength(lens, n, i)[k] < i && lens[OfLength(lens, n, i)[k]] == n
    ensures Rank(lens, n, OfLength(lens, n, i)[k]) == k
    decreases i
  {
    if k < Rank(lens, n, i - 1) {
      SymbolsInRange(lens, n, i - 1, k);
    }
  }

  lemma {:induction false} PermBelowInRange(lens: seq<int>, n: nat, k: int)
    requires ValidLens(lens) && 0 <= k < |PermBelow(lens, n)|
    ensures 0 <= PermBelow(lens, n)[k] < |lens| && Slot(lens, PermBelow(lens, n)[k]) == k
    decreases n
  {
    hide Rank, Shorter, OfLength;
    PermBelowSize(lens, n - 1);
    if k < |PermBelow(lens, n - 1)| {
      PermBelowInRange(lens, n - 1, k);
    } else {
      SymbolsInRange(lens, n - 1, |lens|, k - |PermBelow(lens, n - 1)|);
    }
  }

  // Entry k of perm is the symbol in slot k.
  lemma PermSlot(lens: seq<int>, k: int)
    requires ValidLens(lens) && 0 <= k < |lens|
    ensures 0 <= Perm(lens)[k] < |lens| && Slot(lens, Perm(lens)[k]) == k
  {
    hide PermBelow;
    PermSize(lens);
    PermBelowInRange(lens, MaxLen(lens, |lens|) + 1, k);
  }

  lemma PermHolds(lens: seq<int>, s: int)
    requires ValidLens(lens) && 0 <= s < |lens|
    ensures Slot(lens, s) < |lens| && Perm(lens)[Slot(lens, s)] == s
  {
    hide PermBelow;
    MinMaxBounds(lens, |lens|);
    PermAt(lens, MaxLen(lens, |lens|) + 1, s);
    PermSize(lens);
  }

  /** What bit-by-bit decoding sees of symbol s: every proper prefix of its code is
      over the limit of its length, the code itself is not, and the table then names s. */
  lemma DecodesCode(lens: seq<int>, s: int, n: int)
    requires ValidLens(lens) && 0 <= s < |lens| && MinLen(lens, |lens|) <= n <= lens[s]
    ensures n < lens[s] ==> Shr(Code(lens, s), lens[s] - n) > Limit(lens, n)
    ensures n == lens[s] ==> Code(lens, s) <= Limit(lens, n)
    ensures n == lens[s] ==> Code(lens, s) - Base(lens, n) == Slot(lens, s) < |lens|
    ensures Slot(lens, s) < |lens| && Perm(lens)[Slot(lens, s)] == s
  {
    hide First, Rank, Shorter, Perm, Shr;
    MinMaxBounds(lens, |lens|);
    PermHolds(lens, s);
    if n < lens[s] {
      PrefixBeyond(lens, s, n);
    } else {
      RankBelow(lens, s);
      NoneBelow(lens, MinLen(lens, |lens|), |lens|);
      FirstIsZero(lens, MinLen(lens, |lens|), MinLen(lens, |lens|));
    }
  }

  // Append the symbols of one length to perm.
  method AppendLength(perm: array<int>, length: array<int>, alphaSize: nat, pp0: nat, n: nat, ghost done: seq<int>)
    returns (pp: nat)
    requires perm != length && alphaSize <= perm.Length && alphaSize <= length.Length
    requires pp0 + Rank(length[..alphaSize], n, alphaSize) <= alphaSize && perm[..pp0] == done
    modifies perm
    ensures pp <= alphaSize && perm[..pp] == done + OfLength(length[..alphaSize], n, alphaSize)
  {
    ghost var lens := length[..alphaSize];
    pp := pp0;
    for j := 0 to alphaSize
      invariant length[..alphaSize] == lens
      invariant pp == pp0 + Rank(lens, n, j) && pp <= alphaSize
      invariant perm[..pp] == done + OfLength(lens, n, j)
    {
      RankMono(lens, n, j + 1, alphaSize);
      assert length[j] == lens[j];
      if length[j] == n {
        perm[pp] := j;
        pp := pp + 1;
        assert perm[..pp] == perm[..pp - 1] + [j];
      }
    }
  }

  // perm: symbols by length, then by number
  method FillPerm(perm: array<int>, length: array<int>, minLen: nat, maxLen: nat, alphaSize: nat)
    requires perm != length && alphaSize <= perm.Length && alphaSize <= length.Length && ValidLens(length[..alphaSize])
    requires minLen == MinLen(length[..alphaSize], alphaSize) && maxLen == MaxLen(length[..alphaSize], alphaSize)
    modifies perm
    ensures perm[..alphaSize] == Perm(length[..alphaSize])
  {
    hide OfLength, Rank, Shorter, MinLen, MaxLen, PermBelow, First, Limit, Base;
    ghost var lens := length[..alphaSize];
    MinMaxBounds(lens, alphaSize);
    NoneBelow(lens, minLen, alphaSize);
    PermBelowSize(lens, minLen);
    var pp := 0;
    assert perm[..pp] == PermBelow(lens, minLen);
    for i := minLen to maxLen + 1
      invariant length[..alphaSize] == lens
      invariant 0 <= pp <= alphaSize && perm[..pp] == PermBelow(lens, i)
    {
      ghost var done := PermBelow(lens, i);
      PermRoom(lens, i);
      PermNext(lens, i);
      pp := AppendLength(perm, length, alphaSize, pp, i, done);
    }
    PermSize(lens);
  }

  lemma PermRoom(lens: seq<int>, i: nat)
    requires ValidLens(lens)
    ensures |PermBelow(lens, i)| + Rank(lens, i, |lens|) <= |lens|
  {
    PermBelowSize(lens, i);
    ShorterStep(lens, i, |lens|);
  }

  lemma RankNone(lens: seq<int>)
    ensures forall n :: Rank(lens, n, 0) == 0
  {
  }

  lemma RankSteps(lens: seq<int>, i: nat)
    requires i < |lens|
    ensures forall n :: Rank(lens, n, i + 1) == Rank(lens, n, i) + (if lens[i] == n then 1 else 0)
  {
  }

  // base[i] := number of codes shorter than i
  method CountBase(base: array<int>, length: array<int>, alphaSize: nat)
    requires base != length && TABLE_ROWS <= base.Length && alphaSize <= length.Length && ValidLens(length[..alphaSize])
    modifies base
    ensures forall n :: 0 <= n < TABLE_ROWS ==> base[n] == Shorter(length[..alphaSize], n, alphaSize)
  {
    ghost var lens := length[..alphaSize];
    for i := 0 to TABLE_ROWS
      invariant forall n :: 0 <= n < i ==> base[n] == 0
    {
      base[i] := 0;
    }
    RankNone(lens);
    hide Rank, Shorter;
    for i := 0 to alphaSize
      invariant length[..alphaSize] == lens
      invariant forall n :: 0 <= n < TABLE_ROWS ==> base[n] == Rank(lens, n - 1, i)
    {
      assert length[i] == lens[i];
      RankSteps(lens, i);
      base[length[i] + 1] := base[length[i] + 1] + 1;
    }
    NoneBelow(lens, 1, alphaSize);
    ShorterMono(lens, 0, 1, alphaSize);
    for i := 1 to TABLE_ROWS
      invariant forall n :: 0 <= n < i ==> base[n] == Shorter(lens, n, alphaSize)
      invariant forall n :: i <= n < TABLE_ROWS ==> base[n] == Rank(lens, n - 1, alphaSize)
    {
      ShorterStep(lens, i - 1, alphaSize);
      base[i] := base[i] + base[i - 1];
    }
  }

  // limit[i] := last code of length i; base[i] := first code of length i minus its slot
  method FillLimit(limit: array<int>, base: array<int>, minLen: nat, maxLen: nat, ghost lens: seq<int>)
    requires limit != base && TABLE_ROWS <= limit.Length && TABLE_ROWS <= base.Length && ValidLens(lens)
    requires minLen == MinLen(lens, |lens|) && maxLen == MaxLen(lens, |lens|)
    requires forall n :: 0 <= n < TABLE_ROWS ==> base[n] == Shorter(lens, n, |lens|)
    modifies limit, base
    ensures forall n :: 0 <= n < TABLE_ROWS ==> limit[n] == Limit(lens, n) && base[n] == Base(lens, n)
  {
    hide Rank, Shorter, MinLen, MaxLen;
    MinMaxBounds(lens, |lens|);
    FirstIsZero(lens, minLen, minLen);
    for i := 0 to TABLE_ROWS
      invariant forall n :: 0 <= n < i ==> limit[n] == 0
      invariant forall n :: 0 <= n < TABLE_ROWS ==> base[n] == Shorter(lens, n, |lens|)
    {
      limit[i] := 0;
    }
    var vec := 0;
    for i := minLen to maxLen + 1
      invariant vec == First(lens, i)
      invariant forall n :: 0 <= n < TABLE_ROWS ==> base[n] == Shorter(lens, n, |lens|)
      invariant forall n :: 0 <= n < TABLE_ROWS ==> limit[n] == if n < i then Limit(lens, n) else 0
    {
      ShorterStep(lens, i, |lens|);
      vec := vec + (base[i + 1] - base[i]);
      limit[i] := vec - 1;
      vec := vec * 2;
    }
    for i := minLen + 1 to maxLen + 1
      invariant forall n :: 0 <= n < TABLE_ROWS ==> limit[n] == Limit(lens, n)
      invariant forall n :: 0 <= n < TABLE_ROWS ==> base[n] == if n < i then Base(lens, n) else Shorter(lens, n, |lens|)
    {
      base[i] := (limit[i - 1] + 1) * 2 - base[i];
    }
  }

  /** BZ2_hbCreateDecodeTables */
  method CreateDecodeTables(limit: array<int>, base: array<int>, perm: array<int>, length: array<int>,
                            minLen: nat, maxLen: nat, alphaSize: nat)
    requires limit != base && limit != perm && base != perm && length != limit && length != base && length != perm
    requires TABLE_ROWS <= limit.Length && TABLE_ROWS <= base.Length && alphaSize <= perm.Length
      && alphaSize <= length.Length
    requires ValidLens(length[..alphaSize])
    requires minLen == MinLen(length[..alphaSize], alphaSize) && maxLen == MaxLen(length[..alphaSize], alphaSize)
    modifies limit, base, perm
    ensures Table(limit[..TABLE_ROWS], base[..TABLE_ROWS], perm[..alphaSize], minLen) == MakeTable(length[..alphaSize])
  {
    FillPerm(perm, length, minLen, maxLen, alphaSize);
    CountBase(base, length, alphaSize);
    FillLimit(limit, base, minLen, maxLen, length[..alphaSize]);
    assert limit[..TABLE_ROWS] == MakeTable(length[..alphaSize]).limit;
    assert base[..TABLE_ROWS] == MakeTable(length[..alphaSize]).base;
  }
}
