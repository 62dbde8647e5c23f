/**
 The bucket-header bitmap of fallbackSort: 32 flags to a word, set, cleared and
 scanned with whole-word skips.
 */
module Bitmap {
  import opened Bits

  // Flag j of a word.
  predicate Bit(w: nat, j: nat)
    decreases j
  {
    if j == 0 then w % 2 == 1 else Bit(w / 2, j - 1)
  }

  // a & ~b
  function AndNot(a: nat, b: nat): nat
    decreases a
  {
    if a == 0 then 0 else 2 * AndNot(a / 2, b / 2) + (if a % 2 == 1 && b % 2 == 0 then 1 else 0)
  }

  lemma {:induction false} BitOr(a: nat, b: nat, j: nat)
    ensures Bit(Or(a, b), j) == (Bit(a, j) || Bit(b, j))
    decreases j
  {
    OrHalf(a, b);
    hide Or;
    if j != 0 { BitOr(a / 2, b / 2, j - 1); }
  }

  lemma OrHalf(a: nat, b: nat)
    ensures Or(a, b) / 2 == Or(a / 2, b / 2) && (Or(a, b) % 2 == 1 <==> a % 2 == 1 || b % 2 == 1)
  {
  }

  lemma {:induction false} BitAndNot(a: nat, b: nat, j: nat)
    ensures Bit(AndNot(a, b), j) == (Bit(a, j) && !Bit(b, j))
    decreases j
  {
    AndNotHalf(a, b);
    hide AndNot;
    if j != 0 { BitAndNot(a / 2, b / 2, j - 1); }
  }

  lemma AndNotHalf(a: nat, b: nat)
    ensures AndNot(a, b) / 2 == AndNot(a / 2, b / 2) && (AndNot(a, b) % 2 == 1 <==> a % 2 == 1 && b % 2 == 0)
  {
  }

  lemma {:induction false} BitOne(i: nat, j: nat)
    ensures Bit(Shl(1, i), j) == (i == j)
    decreases j
  {
    if i == 0 {
      if j != 0 { BitZero(j - 1); }
    } else if j != 0 {
      BitOne(i - 1, j - 1);
    }
  }

  lemma {:induction false} BitZero(j: nat)
    ensures !Bit(0, j)
    decreases j
  {
    if j != 0 { BitZero(j - 1); }
  }

  lemma {:induction false} BitFull(w: nat, m: nat, j: nat)
    requires w + 1 == Pow2(m) && j < m
    ensures Bit(w, j)
    decreases j
  {
    if j != 0 { BitFull(w / 2, m - 1, j - 1); }
  }

  // ISSET_BH
  predicate IsSet(bh: seq<nat>, k: nat)
    requires k / 32 < |bh|
  {
    Bit(bh[k / 32], k % 32)
  }

  // heads lists the first flags.
  predicate Marks(bh: seq<nat>, heads: seq<bool>) {
    |heads| <= 32 * |bh| && forall k :: 0 <= k < |heads| ==> IsSet(bh, k) == heads[k]
  }

  // The flags with flag k made v; a flag past the end of the list is not recorded.
  function With(heads: seq<bool>, k: nat, v: bool): seq<bool> {
    if k < |heads| then heads[k := v] else heads
  }

  lemma SameCell(k: nat, x: nat)
    ensures k / 32 == x / 32 && k % 32 == x % 32 ==> k == x
  {
  }

  lemma MarkSet(bh: seq<nat>, heads: seq<bool>, k: nat)
    requires Marks(bh, heads) && k / 32 < |bh|
    ensures Marks(bh[k / 32 := Or(bh[k / 32], Shl(1, k % 32))], With(heads, k, true))
  {
    hide Bit, Or, Shl;
    var bh' := bh[k / 32 := Or(bh[k / 32], Shl(1, k % 32))];
    forall x | 0 <= x < |heads|
      ensures IsSet(bh', x) == With(heads, k, true)[x]
    {
      BitOr(bh[k / 32], Shl(1, k % 32), x % 32);
      BitOne(k % 32, x % 32);
      SameCell(k, x);
    }
  }

  lemma MarkClear(bh: seq<nat>, heads: seq<bool>, k: nat)
    requires Marks(bh, heads) && k / 32 < |bh|
    ensures Marks(bh[k / 32 := AndNot(bh[k / 32], Shl(1, k % 32))], With(heads, k, false))
  {
    hide Bit, AndNot, Shl;
    var bh' := bh[k / 32 := AndNot(bh[k / 32], Shl(1, k % 32))];
    forall x | 0 <= x < |heads|
      ensures IsSet(bh', x) == With(heads, k, false)[x]
    {
      BitAndNot(bh[k / 32], Shl(1, k % 32), x % 32);
      BitOne(k % 32, x % 32);
      SameCell(k, x);
    }
  }

  // SET_BH
  method SetBh(bhtab: array<nat>, k: nat, ghost heads: seq<bool>)
    requires Marks(bhtab[..], heads) && k / 32 < bhtab.Length
    modifies bhtab
    ensures Marks(bhtab[..], With(heads, k, true))
  {
    hide *;
    MarkSet(bhtab[..], heads, k);
    bhtab[k / 32] := Or(bhtab[k / 32], Shl(1, k % 32));
    assert bhtab[..] == old(bhtab[..])[k / 32 := Or(old(bhtab[k / 32]), Shl(1, k % 32))];
  }

  // CLEAR_BH
  method ClearBh(bhtab: array<nat>, k: nat, ghost heads: seq<bool>)
    requires Marks(bhtab[..], heads) && k / 32 < bhtab.Length
    modifies bhtab
    ensures Marks(bhtab[..], With(heads, k, false))
  {
    hide *;
    MarkClear(bhtab[..], heads, k);
    bhtab[k / 32] := AndNot(bhtab[k / 32], Shl(1, k % 32));
    assert bhtab[..] == old(bhtab[..])[k / 32 := AndNot(old(bhtab[k / 32]), Shl(1, k % 32))];
  }

  method IsSetBh(bhtab: array<nat>, k: nat, ghost heads: seq<bool>) returns (v: bool)
    requires Marks(bhtab[..], heads) && k < |heads|
    ensures v == heads[k]
  {
    hide Bit;
    v := Bit(bhtab[k / 32], k % 32);
    assert v == IsSet(bhtab[..], k);
  }

  ghost predicate AllHeads(heads: seq<bool>, a: int, b: int, v: bool) {
    0 <= a && b <= |heads| && forall k :: a <= k < b ==> heads[k] == v
  }

  lemma WordFull(bh: seq<nat>, heads: seq<bool>, k: nat)
    requires Marks(bh, heads) && k % 32 == 0 && k / 32 < |bh| && bh[k / 32] == 0xffff_ffff
    ensures forall j :: k <= j < k + 32 && j < |heads| ==> heads[j]
  {
    hide Bit;
    Pow2Is64();
    forall j | k <= j < k + 32 && j < |heads|
      ensures heads[j]
    {
      BitFull(0xffff_ffff, 32, j % 32);
      assert j / 32 == k / 32 && IsSet(bh, j) == heads[j];
    }
  }

  lemma WordEmpty(bh: seq<nat>, heads: seq<bool>, k: nat)
    requires Marks(bh, heads) && k % 32 == 0 && k / 32 < |bh| && bh[k / 32] == 0
    ensures forall j :: k <= j < k + 32 && j < |heads| ==> !heads[j]
  {
    hide Bit;
    forall j | k <= j < k + 32 && j < |heads|
      ensures !heads[j]
    {
      BitZero(j % 32);
      assert j / 32 == k / 32 && IsSet(bh, j) == heads[j];
    }
  }

  lemma InTable(bh: seq<nat>, heads: seq<bool>, k: nat)
    requires Marks(bh, heads) && k < |heads|
    ensures k / 32 < |bh|
  {
  }

  // while (ISSET_BH(k) == v && UNALIGNED_BH(k)) k++;
  method SkipUnaligned(bhtab: array<nat>, k0: nat, v: bool, end: nat, ghost heads: seq<bool>) returns (k: nat)
    requires Marks(bhtab[..], heads) && k0 <= end < |heads| && heads[end] != v
    ensures k0 <= k <= end && AllHeads(heads, k0, k, v) && (heads[k] != v || k % 32 == 0)
  {
    hide Marks;
    k := k0;
    var b := IsSetBh(bhtab, k, heads);
    while b == v && k % 32 != 0
      invariant k0 <= k <= end && AllHeads(heads, k0, k, v) && b == heads[k]
      decreases end - k
    {
      k := k + 1;
      b := IsSetBh(bhtab, k, heads);
    }
  }

  // while (WORD_BH(k) == full) k += 32; while (ISSET_BH(k) == v) k++;
  method SkipWords(bhtab: array<nat>, k0: nat, v: bool, end: nat, ghost heads: seq<bool>) returns (k: nat)
    requires Marks(bhtab[..], heads) && k0 <= end < |heads| && heads[end] != v && k0 % 32 == 0
    ensures k0 <= k <= end && AllHeads(heads, k0, k, v) && heads[k] != v
  {
    hide Marks;
    k := k0;
    var full := if v then 0xffff_ffff else 0;
    InTable(bhtab[..], heads, k);
    while bhtab[k / 32] == full
      invariant k0 <= k <= end && k % 32 == 0 && AllHeads(heads, k0, k, v) && k / 32 < bhtab.Length
      decreases end - k
    {
      if v { WordFull(bhtab[..], heads, k); } else { WordEmpty(bhtab[..], heads, k); }
      assert k + 32 <= end;
      k := k + 32;
      InTable(bhtab[..], heads, k);
    }
    var b := IsSetBh(bhtab, k, heads);
    while b == v
      invariant k0 <= k <= end && AllHeads(heads, k0, k, v) && b == heads[k]
      decreases end - k
    {
      k := k + 1;
      b := IsSetBh(bhtab, k, heads);
    }
  }

  /** Advance to the first flag that is not v. */
  method Skip(bhtab: array<nat>, k0: nat, v: bool, end: nat, ghost heads: seq<bool>) returns (k: nat)
    requires Marks(bhtab[..], heads) && k0 <= end < |heads| && heads[end] != v
    ensures k0 <= k <= end && AllHeads(heads, k0, k, v) && heads[k] != v
  {
    hide Marks;
    k := SkipUnaligned(bhtab, k0, v, end, heads);
    var b := IsSetBh(bhtab, k, heads);
    if b == v {
      k := SkipWords(bhtab, k, v, end, heads);
    }
  }
}
