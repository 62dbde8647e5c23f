/**
 The inverse block sort of the decoder: building the inverse of the T vector by
 a counting pass (FAST form) or by pointer reversal over 20-bit cells (SMALL
 form), and following it.
 */
module InverseBwt {
  import opened Bits
  import opened Rotations

  // ----- occurrence counts

  function Occ(l: seq<Byte>, c: int, i: nat): (k: nat)
    requires i <= |l|
    ensures k <= i
    decreases i
  {
    if i == 0 then 0 else Occ(l, c, i - 1) + (if l[i - 1] == c then 1 else 0)
  }

  function CountBelow(l: seq<Byte>, c: int, i: nat): (k: nat)
    requires i <= |l|
    ensures k <= i
    decreases i
  {
    if i == 0 then 0 else CountBelow(l, c, i - 1) + (if l[i - 1] < c then 1 else 0)
  }

  lemma {:induction false} CountBelowStep(l: seq<Byte>, c: int, i: nat)
    requires i <= |l|
    ensures CountBelow(l, c + 1, i) == CountBelow(l, c, i) + Occ(l, c, i)
    decreases i
  {
    if i != 0 {
      CountBelowStep(l, c, i - 1);
    }
  }

  lemma {:induction false} CountBelowEnds(l: seq<Byte>, i: nat)
    requires i <= |l|
    ensures CountBelow(l, 0, i) == 0 && CountBelow(l, 256, i) == i
    decreases i
  {
    if i != 0 {
      CountBelowEnds(l, i - 1);
    }
  }

  lemma {:induction false} CountBelowMono(l: seq<Byte>, c: int, d: int, i: nat)
    requires c <= d && i <= |l|
    ensures CountBelow(l, c, i) <= CountBelow(l, d, i)
    decreases i
  {
    if i != 0 {
      CountBelowMono(l, c, d, i - 1);
    }
  }

  lemma {:induction false} OccMono(l: seq<Byte>, c: int, i: nat, j: nat)
    requires i <= j <= |l|
    ensures Occ(l, c, i) <= Occ(l, c, j)
    decreases j
  {
    if i < j {
      OccMono(l, c, i, j - 1);
    }
  }

  // The T vector: where the i-th byte of the column lands in a stable sort by byte.
  function Target(l: seq<Byte>, i: int): (k: nat)
    requires 0 <= i < |l|
  {
    CountBelow(l, l[i], |l|) + Occ(l, l[i], i)
  }

  lemma TargetBounds(l: seq<Byte>, i: int)
    requires 0 <= i < |l|
    ensures CountBelow(l, l[i], |l|) <= Target(l, i) < CountBelow(l, l[i] as int + 1, |l|) <= |l|
  {
    OccMono(l, l[i], i + 1, |l|);
    CountBelowStep(l, l[i], |l|);
  }

  // (byte, index) order, strictly.
  predicate Before(l: seq<Byte>, i: int, j: int)
    requires 0 <= i < |l| && 0 <= j < |l|
  {
    l[i] < l[j] || (l[i] == l[j] && i < j)
  }

  lemma TargetMono(l: seq<Byte>, i: int, j: int)
    requires 0 <= i < |l| && 0 <= j < |l| && Before(l, i, j)
    ensures Target(l, i) < Target(l, j)
  {
    TargetBounds(l, i);
    if l[i] < l[j] {
      CountBelowMono(l, l[i] as int + 1, l[j], |l|);
    } else {
      OccMono(l, l[i], i + 1, j);
    }
  }

  function TVector(l: seq<Byte>): (t: seq<int>)
    ensures |t| == |l| && forall i :: 0 <= i < |l| ==> t[i] == Target(l, i)
  {
    seq(|l|, i requires 0 <= i < |l| => Target(l, i))
  }

  lemma TVectorIsPerm(l: seq<Byte>)
    ensures IsPerm(TVector(l))
  {
    forall i | 0 <= i < |l|
      ensures 0 <= TVector(l)[i] < |l|
    {
      TargetBounds(l, i);
    }
    forall i, j | 0 <= i < j < |l|
      ensures TVector(l)[i] != TVector(l)[j]
    {
      if Before(l, i, j) { TargetMono(l, i, j); } else { TargetMono(l, j, i); }
    }
  }

  // p undoes the T vector.
  ghost predicate InvertsT(l: seq<Byte>, p: seq<int>) {
    && |p| == |l|
    && (forall k :: 0 <= k < |p| ==> 0 <= p[k] < |p|)
    && forall k :: 0 <= k < |p| ==> Target(l, p[k]) == k
  }

  lemma InverseStep(l: seq<Byte>, p: seq<int>, i: int)
    requires InvertsT(l, p) && 0 <= i < |l|
    ensures 0 <= Target(l, i) < |l| && p[Target(l, i)] == i
  {
    TargetBounds(l, i);
    var j := p[Target(l, i)];
    if j != i {
      if Before(l, i, j) { TargetMono(l, i, j); } else { TargetMono(l, j, i); }
    }
  }

  lemma InverseOrders(l: seq<Byte>, p: seq<int>, j: int, k: int)
    requires InvertsT(l, p) && 0 <= j < k < |l|
    ensures Before(l, p[j], p[k])
  {
    if !Before(l, p[j], p[k]) && p[j] != p[k] {
      TargetMono(l, p[k], p[j]);
    }
  }

  // ----- the transform is undone

  lemma PredPermutes(p: seq<int>, q: seq<int>)
    requires IsPerm(p) && IsPerm(q) && |p| == |q|
    ensures IsPerm(seq(|p|, k requires 0 <= k < |p| => Pred(p[q[k]], |p|)))
  {
  }

  /** Shifting the sorted rotations one step right and sorting them stably by the
      byte brought to the front lists them sorted again. */
  lemma ShiftedSorted(b: seq<Byte>, ptr: seq<int>, p: seq<int>, j: int, k: int)
    requires SortsRotations(b, ptr) && InvertsT(LastColumn(b, ptr), p)
    requires 0 <= j < k < |b|
    ensures RotLe(b, Pred(ptr[p[j]], |b|), Pred(ptr[p[k]], |b|))
  {
    var l, n := LastColumn(b, ptr), |b|;
    var x, y := p[j], p[k];
    InverseOrders(l, p, j, k);
    RotPred(b, ptr[x]);
    RotPred(b, ptr[y]);
    var rx, ry := Rot(b, Pred(ptr[x], n)), Rot(b, Pred(ptr[y], n));
    assert rx[0] == l[x] && ry[0] == l[y];
    if l[x] == l[y] {
      assert RotLe(b, ptr[x], ptr[y]);
      LePrefix(Rot(b, ptr[x]), Rot(b, ptr[y]), n - 1);
      assert rx[1..] == Rot(b, ptr[x])[..n - 1] && ry[1..] == Rot(b, ptr[y])[..n - 1];
    }
  }

  // Following p moves to the next rotation, as a string.
  lemma FollowRotation(b: seq<Byte>, ptr: seq<int>, p: seq<int>, k: int)
    requires SortsRotations(b, ptr) && InvertsT(LastColumn(b, ptr), p)
    requires 0 <= k < |b|
    ensures Rot(b, ptr[p[k]]) == Rot(b, Succ(ptr[k], |b|))
  {
    var l, n := LastColumn(b, ptr), |b|;
    var q := seq(n, i requires 0 <= i < n => Pred(ptr[p[i]], n));
    forall i, j | 0 <= i < j < n
      ensures p[i] != p[j] && RotLe(b, q[i], q[j])
    {
      InverseOrders(l, p, i, j);
      ShiftedSorted(b, ptr, p, i, j);
    }
    PredPermutes(ptr, p);
    assert SortsRotations(b, q);
    SortedRotationsUnique(b, ptr, q);
    SameStringsSucc(b, q[k], ptr[k]);
    SuccOfPred(ptr[p[k]], n);
  }

  lemma SuccOfPred(i: int, n: int)
    requires 0 <= i < n
    ensures Succ(Pred(i, n), n) == i
  {
  }

  lemma SameStringsSucc(b: seq<Byte>, i: int, j: int)
    requires 0 <= i < |b| && 0 <= j < |b| && Rot(b, i) == Rot(b, j)
    ensures Rot(b, Succ(i, |b|)) == Rot(b, Succ(j, |b|))
    ensures b[Pred(i, |b|)] == b[Pred(j, |b|)]
  {
    RotSucc(b, i);
    RotSucc(b, j);
    LastOfRot(b, i);
    LastOfRot(b, j);
  }

  // The position reached after m steps of the inverse T vector.
  function Walk(p: seq<int>, start: int, m: nat): (k: int)
    requires forall i :: 0 <= i < |p| ==> 0 <= p[i] < |p|
    requires 0 <= start < |p|
    ensures 0 <= k < |p|
    decreases m
  {
    if m == 0 then start else p[Walk(p, start, m - 1)]
  }

  // Sorted position k holds rotation m, as a string.
  ghost predicate Holds(b: seq<Byte>, ptr: seq<int>, k: int, m: nat) {
    && |ptr| == |b| && 0 <= k < |ptr| && 0 <= ptr[k] < |b| && m <= |b|
    && Rot(b, ptr[k]) == Rot(b, m)
  }

  lemma FollowOnce(b: seq<Byte>, ptr: seq<int>, p: seq<int>, x: int, m: nat)
    requires SortsRotations(b, ptr) && InvertsT(LastColumn(b, ptr), p)
    requires m < |b| && Holds(b, ptr, x, m)
    ensures Holds(b, ptr, p[x], m + 1)
  {
    FollowRotation(b, ptr, p, x);
    SameStringsSucc(b, ptr[x], m);
    RotWraps(b);
  }

  lemma {:induction false} WalkRotation(b: seq<Byte>, ptr: seq<int>, p: seq<int>, orig: int, m: nat)
    requires SortsRotations(b, ptr) && InvertsT(LastColumn(b, ptr), p)
    requires 0 <= orig < |b| && ptr[orig] == 0 && m <= |b|
    ensures Holds(b, ptr, Walk(p, orig, m), m)
    decreases m
  {
    hide *;
    ListsMatch(b, ptr, p);
    if m == 0 {
      StartsHere(b, ptr, p, orig);
    } else {
      WalkRotation(b, ptr, p, orig, m - 1);
      FollowOnce(b, ptr, p, Walk(p, orig, m - 1), m - 1);
      WalkFurther(p, orig, m);
    }
  }

  lemma ListsMatch(b: seq<Byte>, ptr: seq<int>, p: seq<int>)
    requires SortsRotations(b, ptr) && InvertsT(LastColumn(b, ptr), p)
    ensures |ptr| == |b| == |p| && forall i :: 0 <= i < |p| ==> 0 <= p[i] < |p|
  {
    InRange(LastColumn(b, ptr), p);
  }

  lemma StartsHere(b: seq<Byte>, ptr: seq<int>, p: seq<int>, orig: int)
    requires |ptr| == |b| == |p| && (forall i :: 0 <= i < |p| ==> 0 <= p[i] < |p|)
    requires 0 <= orig < |b| && ptr[orig] == 0
    ensures Holds(b, ptr, Walk(p, orig, 0), 0)
  {
  }

  lemma WalkFurther(p: seq<int>, orig: int, m: nat)
    requires (forall i :: 0 <= i < |p| ==> 0 <= p[i] < |p|) && 0 <= orig < |p| && 0 < m
    ensures Walk(p, orig, m) == p[Walk(p, orig, m - 1)]
  {
  }

  lemma InRange(l: seq<Byte>, p: seq<int>)
    requires InvertsT(l, p)
    ensures |p| == |l| && forall i :: 0 <= i < |p| ==> 0 <= p[i] < |p|
  {
  }

  lemma RotWraps(b: seq<Byte>)
    ensures Rot(b, 0) == Rot(b, |b|)
  {
  }

  /** The inverse transform recovers the block, whether or not it is periodic:
      the m-th step of the walk from origPtr reads byte m - 1 of the block. */
  lemma WalkReadsBlock(b: seq<Byte>, ptr: seq<int>, p: seq<int>, orig: int, m: nat)
    requires SortsRotations(b, ptr) && InvertsT(LastColumn(b, ptr), p)
    requires 0 <= orig < |b| && ptr[orig] == 0 && 1 <= m <= |b|
    ensures LastColumn(b, ptr)[Walk(p, orig, m)] == b[m - 1]
  {
    WalkRotation(b, ptr, p, orig, m);
    var x := Walk(p, orig, m);
    LastOfRot(b, ptr[x]);
    assert Rot(b, m)[|b| - 1] == b[m - 1];
  }

  // ----- FAST form: 24-bit link over 8-bit column byte in one word

  // The links held in the upper 24 bits of the first n words.
  function Links(tt: seq<int>, n: nat): (p: seq<int>)
    requires n <= |tt|
    ensures |p| == n && forall k :: 0 <= k < n ==> p[k] == tt[k] / 256
  {
    seq(n, k requires 0 <= k < n => tt[k] / 256)
  }

  lemma TargetHit(l: seq<Byte>, k: int) returns (j: int)
    requires 0 <= k < |l|
    ensures 0 <= j < |l| && Target(l, j) == k
  {
    TVectorIsPerm(l);
    PermCovers(TVector(l));
    assert k in TVector(l);
    j :| 0 <= j < |l| && TVector(l)[j] == k;
  }

  lemma OrLink(i: nat, c: Byte)
    ensures Or(i * 256, c) == i * 256 + c
  {
    assert Pow2(8) == 256;
    ShlIsMul(i, 8);
    OrDisjoint(i, c, 8);
  }

  method BuildFast(tt: array<int>, cftab: array<int>, nblock: nat, ghost l: seq<Byte>)
    requires |l| == nblock <= tt.Length && cftab.Length == 257 && tt != cftab
    requires forall i :: 0 <= i < nblock ==> tt[i] == l[i]
    requires forall c :: 0 <= c <= 256 ==> cftab[c] == CountBelow(l, c, nblock)
    modifies tt, cftab
    ensures InvertsT(l, Links(tt[..], nblock))
    ensures forall k :: 0 <= k < nblock ==> tt[k] % 256 == l[k] && 0 <= tt[k] < 256 * nblock
  {
    hide *;
    LinkNone(l, tt[..nblock]);
    StartCursors(l, cftab[..]);
    for i := 0 to nblock
      invariant Cursors(l, cftab[..], i) && PartlyLinked(l, tt[..nblock], i)
    {
      ghost var s, t := tt[..nblock], cftab[..];
      LinkOne(l, s, i);
      var uc := tt[i] % 256;
      assert tt[i] == s[i];
      AdvanceCursor(l, t, i);
      var k := cftab[uc];
      assert k == t[l[i]] && tt[k] == s[k];
      OrLink(i, l[k]);
      tt[k] := Or(i * 256, tt[k]);
      cftab[uc] := cftab[uc] + 1;
      assert tt[..nblock] == s[k := i * 256 + l[k]] && cftab[..] == t[l[i] := k + 1];
    }
    AllLinked(l, tt[..nblock]);
    LinksTake(tt[..], nblock);
    forall k | 0 <= k < nblock
      ensures tt[k] == tt[..nblock][k]
    {
    }
  }

  // Each byte's cell is where its next occurrence goes.
  ghost predicate Cursors(l: seq<Byte>, t: seq<int>, i: nat) {
    && |t| == 257 && i <= |l|
    && forall c :: 0 <= c < 256 ==> t[c] == CountBelow(l, c, |l|) + Occ(l, c, i)
  }

  lemma StartCursors(l: seq<Byte>, t: seq<int>)
    requires |t| == 257 && forall c :: 0 <= c <= 256 ==> t[c] == CountBelow(l, c, |l|)
    ensures Cursors(l, t, 0)
  {
    hide CountBelow;
  }

  lemma AdvanceCursor(l: seq<Byte>, t: seq<int>, i: nat)
    requires i < |l| && Cursors(l, t, i)
    ensures |t| == 257 && t[l[i]] == TVector(l)[i] && Cursors(l, t[l[i] := t[l[i]] + 1], i + 1)
  {
    hide CountBelow;
  }

  lemma LinksTake(tt: seq<int>, n: nat)
    requires n <= |tt|
    ensures Links(tt, n) == Links(tt[..n], n)
  {
  }

  lemma LinkNone(l: seq<Byte>, s: seq<int>)
    requires |s| == |l| && forall i :: 0 <= i < |l| ==> s[i] == l[i]
    ensures PartlyLinked(l, s, 0)
  {
    TVectorIsPerm(l);
  }

  // After i steps the words hit so far carry links; all still carry the column.
  ghost predicate PartlyLinked(l: seq<Byte>, s: seq<int>, i: nat)
  {
    && |s| == |l|
    && IsPerm(TVector(l))
    && (forall j :: 0 <= j < |l| ==> s[TVector(l)[j]] == (if j < i then j * 256 else 0) + l[TVector(l)[j]])
    && forall k :: 0 <= k < |l| ==> s[k] % 256 == l[k]
  }

  lemma LinkOne(l: seq<Byte>, s: seq<int>, i: nat)
    requires i < |l| && PartlyLinked(l, s, i)
    ensures |s| == |l| && 0 <= Target(l, i) < |l|
    ensures s[TVector(l)[i]] == l[TVector(l)[i]] && s[i] % 256 == l[i]
    ensures PartlyLinked(l, s[TVector(l)[i] := i * 256 + l[TVector(l)[i]]], i + 1)
  {
  }

  lemma AllLinked(l: seq<Byte>, s: seq<int>)
    requires PartlyLinked(l, s, |l|)
    ensures InvertsT(l, Links(s, |l|))
    ensures forall k :: 0 <= k < |l| ==> s[k] % 256 == l[k] && 0 <= s[k] < 256 * |l|
  {
    forall k | 0 <= k < |l|
      ensures 0 <= s[k] / 256 < |l| && Target(l, s[k] / 256) == k && 0 <= s[k] < 256 * |l|
    {
      var j := TargetHit(l, k);
      assert s[TVector(l)[j]] == j * 256 + l[k];
    }
  }

  // ----- SMALL form: 20-bit cells split over a 16-bit and a 4-bit array

  class Packed20 {
    const ll16: array<UInt16>
    const ll4: array<Byte>

    constructor (n: nat)
      ensures Valid() && ll16.Length == n && fresh(ll16) && fresh(ll4)
    {
      ll16 := new UInt16[n];
      ll4 := new Byte[(1 + n) / 2];
    }

    ghost predicate Valid() {
      ll4.Length == (1 + ll16.Length) / 2
    }

    function Nibble(i: nat): (v: nat)
      requires Valid() && i < ll16.Length
      reads ll4
      ensures v < 16
    {
      if i % 2 == 0 then ll4[i / 2] % 16 else ll4[i / 2] / 16
    }

    function Get(i: nat): (v: nat)
      requires Valid() && i < ll16.Length
      reads ll16, ll4
      ensures v < 0x10_0000
    {
      ll16[i] + Nibble(i) * 0x1_0000
    }

    // All cells, as the numbers they encode.
    ghost function Cells(): (c: seq<nat>)
      requires Valid()
      reads ll16, ll4
      ensures |c| == ll16.Length && forall i :: 0 <= i < |c| ==> c[i] == Get(i)
    {
      seq(ll16.Length, i requires 0 <= i < ll16.Length reads ll16, ll4 => Get(i))
    }

    method Set(i: nat, v: nat)
      requires Valid() && i < ll16.Length && v < 0x10_0000
      modifies ll16, ll4
      ensures Cells() == old(Cells())[i := v]
      ensures forall j :: 0 <= j < ll16.Length && j != i ==> ll16[j] == old(ll16[j])
    {
      ll16[i] := v % 0x1_0000;
      var hi := v / 0x1_0000;
      if i % 2 == 0 {
        ll4[i / 2] := ll4[i / 2] / 16 * 16 + hi;
      } else {
        ll4[i / 2] := ll4[i / 2] % 16 + hi * 16;
      }
      assert Nibble(i) == hi;
      forall j | 0 <= j < ll16.Length
        ensures Get(j) == if j == i then v else old(Get(j))
      {
        assert j != i ==> Nibble(j) == old(Nibble(j));
      }
    }
  }

  /** BZ2_indexIntoF: the byte whose bucket in the first column holds position indx. */
  method IndexIntoF(indx: int, cftab: array<int>) returns (nb: int)
    requires cftab.Length == 257 && cftab[0] <= indx < cftab[256]
    requires forall c, d :: 0 <= c <= d <= 256 ==> cftab[c] <= cftab[d]
    ensures 0 <= nb < 256 && cftab[nb] <= indx < cftab[nb + 1]
  {
    nb := 0;
    var na := 256;
    while na - nb != 1
      invariant 0 <= nb < na <= 256 && cftab[nb] <= indx < cftab[na]
      decreases na - nb
    {
      var mid := (nb + na) / 2;
      if indx >= cftab[mid] { nb := mid; } else { na := mid; }
    }
  }

  // The first-column bucket of position k names the byte the FAST form stores at k's link.
  lemma BucketIsByte(l: seq<Byte>, p: seq<int>, k: int, c: int)
    requires InvertsT(l, p) && 0 <= k < |l| && 0 <= c < 256
    requires CountBelow(l, c, |l|) <= k < CountBelow(l, c + 1, |l|)
    ensures l[p[k]] == c
  {
    var i := p[k];
    TargetBounds(l, i);
    if l[i] < c {
      CountBelowMono(l, l[i] as int + 1, c, |l|);
    } else if c < l[i] {
      CountBelowMono(l, c + 1, l[i], |l|);
    }
  }

  /** The SMALL form's first pass: cell i receives the T vector entry. */
  method BuildTSmall(ll: Packed20, cftabCopy: array<int>, nblock: nat, ghost l: seq<Byte>)
    requires ll.Valid() && |l| == nblock <= ll.ll16.Length && nblock <= 0x10_0000 && cftabCopy.Length == 257
    requires forall i :: 0 <= i < nblock ==> ll.ll16[i] == l[i]
    requires forall c :: 0 <= c <= 256 ==> cftabCopy[c] == CountBelow(l, c, nblock)
    modifies ll.ll16, ll.ll4, cftabCopy
    ensures forall i :: 0 <= i < nblock ==> ll.Get(i) == Target(l, i)
  {
    for i := 0 to nblock
      invariant forall c :: 0 <= c < 256 ==> cftabCopy[c] == CountBelow(l, c, nblock) + Occ(l, c, i)
      invariant forall j :: 0 <= j < i ==> ll.Get(j) == Target(l, j)
      invariant forall j :: i <= j < nblock ==> ll.ll16[j] == l[j]
    {
      var uc := ll.ll16[i] % 256;
      TargetBounds(l, i);
      ll.Set(i, cftabCopy[uc]);
      cftabCopy[uc] := cftabCopy[uc] + 1;
    }
  }

  /** The SMALL form's second pass reverses the cycle through origPtr in place;
      other cycles of a periodic block are left pointing forwards. */
  method ReverseCycle(ll: Packed20, origPtr: int, nblock: nat, ghost l: seq<Byte>, ghost p: seq<int>)
    requires ll.Valid() && |l| == nblock <= ll.ll16.Length && InvertsT(l, p)
    requires 0 <= origPtr < nblock <= 0x10_0000
    requires forall i :: 0 <= i < nblock ==> ll.Get(i) == Target(l, i)
    modifies ll.ll16, ll.ll4
    ensures forall m: nat :: ll.Get(Walk(p, origPtr, m)) == p[Walk(p, origPtr, m)]
  {
    var i := origPtr;
    var j := ll.Get(i);
    ghost var path := [origPtr];  // the nodes visited, in order
    InverseStep(l, p, i);
    assert PartlyReversed(l, p, ll.Cells(), path, origPtr);
    InRange(l, p);
    hide PartlyReversed, CycleReversed, InvertsT, Target, Walk;
    while true
      invariant PartlyReversed(l, p, ll.Cells(), path, origPtr)
      invariant 1 <= |path| <= nblock && path[|path| - 1] == i && 0 <= i < nblock
      invariant 0 <= j < nblock && j == Target(l, i) && p[j] == i
      decreases nblock - |path|
    {
      var tmp := ll.Get(j);
      ReverseOne(l, p, ll.Cells(), path, origPtr, j);
      ll.Set(j, i);
      i := j;
      j := tmp;
      if i == origPtr {
        break;
      }
      InverseStep(l, p, i);
      path := path + [i];
    }
    forall m: nat
      ensures ll.Get(Walk(p, origPtr, m)) == p[Walk(p, origPtr, m)]
    {
      WalkStays(p, ll.Cells(), origPtr, path, m);
    }
  }

  // The cells of the visited nodes point back; all others still hold the T vector.
  ghost predicate PartlyReversed(l: seq<Byte>, p: seq<int>, cells: seq<int>, path: seq<int>, orig: int) {
    && InvertsT(l, p) && BackPath(p, path, orig) && |l| <= |cells|
    && (forall s :: 1 <= s < |path| ==> cells[path[s]] == path[s - 1])
    && forall x :: 0 <= x < |l| && x !in path[1..] ==> cells[x] == Target(l, x)
  }

  ghost predicate CycleReversed(p: seq<int>, cells: seq<int>, path: seq<int>, orig: int) {
    && BackPath(p, path, orig) && |p| <= |cells| && p[orig] == path[|path| - 1]
    && forall s :: 0 <= s < |path| ==> cells[path[s]] == p[path[s]]
  }

  lemma ReverseOne(l: seq<Byte>, p: seq<int>, cells: seq<int>, path: seq<int>, orig: int, j: int)
    requires PartlyReversed(l, p, cells, path, orig) && 0 <= j < |l| && p[j] == path[|path| - 1]
    ensures cells[j] == Target(l, j)
    ensures j != orig ==> PartlyReversed(l, p, cells[j := p[j]], path + [j], orig) && |path| < |l|
    ensures j == orig ==> CycleReversed(p, cells[j := p[j]], path, orig)
  {
    FreshOnPath(p, path, orig, j);
    if j != orig {
      DistinctBound(path + [j], |l|);
      assert (path + [j])[1..] == path[1..] + [j];
    } else {
      forall s | 0 <= s < |path|
        ensures cells[j := p[j]][path[s]] == p[path[s]]
      {
        assert s != 0 ==> path[s] != orig && p[path[s]] == path[s - 1];
      }
    }
  }

  // path starts at orig and each node is the p-image of the next; no node repeats.
  ghost predicate BackPath(p: seq<int>, path: seq<int>, orig: int) {
    && |path| >= 1 && path[0] == orig
    && (forall s :: 0 <= s < |path| ==> 0 <= path[s] < |p|)
    && (forall s :: 1 <= s < |path| ==> p[path[s]] == path[s - 1])
    && forall s, t :: 0 <= s < t < |path| ==> path[s] != path[t]
  }

  lemma FreshOnPath(p: seq<int>, path: seq<int>, orig: int, j: int)
    requires BackPath(p, path, orig) && 0 <= j < |p| && p[j] == path[|path| - 1]
    ensures j !in path[1..]
    ensures j != orig ==> BackPath(p, path + [j], orig)
  {
    forall s | 1 <= s < |path|
      ensures path[s] != j
    {
      assert p[path[s]] == path[s - 1];
    }
  }

  lemma DistinctBound(path: seq<int>, n: nat)
    requires forall s :: 0 <= s < |path| ==> 0 <= path[s] < n
    requires forall s, t :: 0 <= s < t < |path| ==> path[s] != path[t]
    ensures |path| <= n
  {
    ImageCard(path, |path|);
    var hit := set s | 0 <= s < |path| :: path[s];
    assert hit <= Below(n);
    SubsetCard(hit, Below(n));
  }

  lemma SubsetCard(a: set<int>, c: set<int>)
    requires a <= c
    ensures |a| <= |c|
  {
    assert c == a + (c - a);
  }

  lemma {:induction false} WalkStays(p: seq<int>, cells: seq<int>, orig: int, path: seq<int>, m: nat)
    requires forall i :: 0 <= i < |p| ==> 0 <= p[i] < |p|
    requires 0 <= orig < |p| && CycleReversed(p, cells, path, orig)
    ensures Walk(p, orig, m) in path && cells[Walk(p, orig, m)] == p[Walk(p, orig, m)]
    decreases m
  {
    if m == 0 {
      assert path[0] == orig;
    } else {
      WalkStays(p, cells, orig, path, m - 1);
      var s :| 0 <= s < |path| && path[s] == Walk(p, orig, m - 1);
      assert s != 0 ==> p[path[s]] == path[s - 1];
    }
  }
}
