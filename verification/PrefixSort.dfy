/**
 Prefix doubling (fallbackSort): buckets by first byte, then by twice as many bytes
 each pass.  The class array overlays the block, which is rebuilt at the end.
 */
module PrefixSort {
  import opened Bits
  import opened Rotations
  import opened Cyclic
  import opened Bitmap
  import opened QuickSort
  import IB = InverseBwt

  // ----- the state between passes

  predicate Framed(b: seq<Byte>, s: seq<int>, heads: seq<bool>) {
    && |s| == |b| && 1 <= |b| && IsPerm(s) && |heads| == |b| + 2
    && heads[0] && heads[|b|] && !heads[|b| + 1]
  }

  // Neighbours k - 1 and k by their first h bytes.
  ghost predicate Step(b: seq<Byte>, x: int, y: int, h: nat, head: bool)
    requires 0 <= x < |b| && 0 <= y < |b|
  {
    if head then Lt(Cyc(b, x, h), Cyc(b, y, h)) else Cyc(b, x, h) == Cyc(b, y, h)
  }

  // s is sorted by first h bytes and the heads are exactly the bucket starts.
  ghost predicate Depth(b: seq<Byte>, s: seq<int>, heads: seq<bool>, h: nat) {
    && Framed(b, s, heads)
    && forall k {:trigger heads[k]} :: 0 < k < |b| ==> Step(b, s[k - 1], s[k], h, heads[k])
  }

  lemma DepthAt(b: seq<Byte>, s: seq<int>, heads: seq<bool>, h: nat, k: int)
    requires Depth(b, s, heads, h) && 0 < k < |b|
    ensures Framed(b, s, heads) && 0 <= s[k - 1] < |b| && 0 <= s[k] < |b| && Step(b, s[k - 1], s[k], h, heads[k])
  {
  }

  lemma FramedFacts(b: seq<Byte>, s: seq<int>, heads: seq<bool>)
    requires Framed(b, s, heads)
    ensures |s| == |b| && 1 <= |b| && |heads| == |b| + 2 && forall k :: 0 <= k < |b| ==> 0 <= s[k] < |b|
    ensures heads[0] && heads[|b|] && !heads[|b| + 1]
  {
  }

  // ----- classes

  function Start(heads: seq<bool>, i: nat): (j: nat)
    requires i < |heads|
    ensures j <= i
    decreases i
  {
    if heads[i] || i == 0 then i else Start(heads, i - 1)
  }

  // Bucket starts order positions as their first h bytes do.
  lemma {:induction false} StartOrder(b: seq<Byte>, s: seq<int>, heads: seq<bool>, h: nat, i: nat, j: nat)
    requires Depth(b, s, heads, h) && i <= j < |b| && |heads| == |b| + 2
    requires |s| == |b| && 0 <= s[i] < |b| && 0 <= s[j] < |b|
    ensures Start(heads, i) <= Start(heads, j)
    ensures Start(heads, i) == Start(heads, j) ==> Cyc(b, s[i], h) == Cyc(b, s[j], h)
    ensures Start(heads, i) < Start(heads, j) ==> Lt(Cyc(b, s[i], h), Cyc(b, s[j], h))
    decreases j
  {
    hide Cyc, Depth, Le;
    if i < j {
      DepthAt(b, s, heads, h, j);
      StartOrder(b, s, heads, h, i, j - 1);
      if heads[j] {
        LtLeTrans(Cyc(b, s[i], h), Cyc(b, s[j - 1], h),
                  Cyc(b, s[j], h)) by { LeSame(Cyc(b, s[i], h), Cyc(b, s[j - 1], h)); }
      }
    }
  }

  lemma LeSame(a: seq<Byte>, c: seq<Byte>)
    requires |a| == |c|
    ensures a == c || Lt(a, c) ==> Le(a, c)
  {
    LeRefl(a);
  }

  // e gives every rotation the bucket of the rotation h further on.
  ghost predicate Classes(s: seq<int>, heads: seq<bool>, h: nat, e: seq<int>, upTo: nat) {
    && upTo <= |s| == |e| < |heads| && h <= |s| && (forall i :: 0 <= i < |s| ==> 0 <= s[i] < |s|)
    && forall i {:trigger s[i]} :: 0 <= i < upTo ==> e[Minus(s[i], h, |s|)] == Start(heads, i)
  }

  lemma ClassAt(b: seq<Byte>, s: seq<int>, heads: seq<bool>, h: nat, e: seq<int>, p: int) returns (i: int)
    requires Depth(b, s, heads, h) && Classes(s, heads, h, e, |s|) && 0 <= p < |b| && h <= |b|
    ensures 0 <= i < |b| == |s| == |e| && |heads| == |b| + 2 && s[i] == Plus(p, h, |b|) && e[p] == Start(heads, i)
  {
    hide Start, Cyc, Le;
    PermCovers(s);
    var q := Plus(p, h, |b|);
    assert q in s;
    i :| 0 <= i < |s| && s[i] == q;
    assert Minus(q, h, |s|) == p;
  }

  /** Classes compare the next h bytes. */
  lemma ClassOrder(b: seq<Byte>, s: seq<int>, heads: seq<bool>, h: nat, e: seq<int>, p: int, q: int)
    requires Depth(b, s, heads, h) && Classes(s, heads, h, e, |s|) && 0 <= p < |b| && 0 <= q < |b| && h <= |b| == |e|
    ensures e[p] == e[q] ==> Cyc(b, Plus(p, h, |b|), h) == Cyc(b, Plus(q, h, |b|), h)
    ensures e[p] < e[q] ==> Lt(Cyc(b, Plus(p, h, |b|), h), Cyc(b, Plus(q, h, |b|), h))
  {
    hide *;
    var i := ClassAt(b, s, heads, h, e, p);
    var j := ClassAt(b, s, heads, h, e, q);
    if i <= j {
      StartOrder(b, s, heads, h, i, j);
    } else {
      StartOrder(b, s, heads, h, j, i);
    }
  }

  // One neighbour pair, by 2h bytes.
  lemma StepDoubled(b: seq<Byte>, s: seq<int>, heads: seq<bool>, h: nat, e: seq<int>, x: int, y: int, head: bool)
    requires Depth(b, s, heads, h) && Classes(s, heads, h, e, |s|) && 0 <= x < |b| && 0 <= y < |b| && h <= |b| == |e|
    requires Step(b, x, y, h, head) && (!head ==> e[x] <= e[y])
    ensures Step(b, x, y, 2 * h, head || e[x] != e[y])
  {
    hide Cyc, Le, Depth, Classes;
    ClassOrder(b, s, heads, h, e, x, y);
    CycSplit(b, x, h, h);
    CycSplit(b, y, h, h);
    assert h + h == 2 * h;
    LeAppend(Cyc(b, x, h), Cyc(b, y, h), Cyc(b, Plus(x, h, |b|), h), Cyc(b, Plus(y, h, |b|), h));
  }

  // ----- within a pass

  // Position k has been dealt with.
  ghost predicate Refined(e: seq<int>, s: seq<int>, heads0: seq<bool>, heads: seq<bool>, k: int)
    requires 0 < k < |s| && |s| <= |heads0| && |s| <= |heads| && 0 <= s[k - 1] < |e| && 0 <= s[k] < |e|
  {
    (!heads0[k] ==> e[s[k - 1]] <= e[s[k]]) && heads[k] == (heads0[k] || e[s[k - 1]] != e[s[k]])
  }

  ghost predicate SameKey(b: seq<Byte>, x: int, y: int, h: nat)
    requires 0 <= x < |b| && 0 <= y < |b|
  {
    Cyc(b, x, h) == Cyc(b, y, h)
  }

  // Buckets up to position r are refined; nothing has left its bucket.
  ghost predicate InPass(b: seq<Byte>, s0: seq<int>, heads0: seq<bool>, s: seq<int>, heads: seq<bool>, e: seq<int>,
                         h: nat, r: int) {
    && Framed(b, s0, heads0) && Framed(b, s, heads) && |e| == |b| && -1 <= r < |b|
    && (forall k {:trigger s[k]} :: 0 <= k < |b| ==> SameKey(b, s[k], s0[k], h))
    && (forall k {:trigger Refined(e, s, heads0, heads, k)} :: 0 < k <= r ==> Refined(e, s, heads0, heads, k))
    && (forall k {:trigger heads[k]} :: r < k < |heads| ==> heads[k] == heads0[k])
  }

  lemma InPassStart(b: seq<Byte>, s: seq<int>, heads: seq<bool>, e: seq<int>, h: nat)
    requires Framed(b, s, heads) && |e| == |b|
    ensures InPass(b, s, heads, s, heads, e, h, -1)
  {
    hide Cyc;
  }

  // The rest of the positions are buckets of one.
  lemma InPassEnd(b: seq<Byte>, s0: seq<int>, heads0: seq<bool>, s: seq<int>, heads: seq<bool>, e: seq<int>, h: nat,
                  r: int)
    requires InPass(b, s0, heads0, s, heads, e, h, r) && AllHeads(heads, r + 1, |b| + 1, true)
    ensures InPass(b, s0, heads0, s, heads, e, h, |b| - 1)
  {
    hide Cyc, SameKey;
    forall k {:trigger Refined(e, s, heads0, heads, k)} | 0 < k <= |b| - 1
      ensures Refined(e, s, heads0, heads, k)
    {
      if r < k { assert heads[k] && heads[k] == heads0[k]; }
    }
  }

  /** A completed pass doubles the depth. */
  lemma PassDoubles(b: seq<Byte>, s0: seq<int>, heads0: seq<bool>, s: seq<int>, heads: seq<bool>, e: seq<int>, h: nat)
    requires Depth(b, s0, heads0, h) && Classes(s0, heads0, h, e, |s0|) && h <= |b|
    requires InPass(b, s0, heads0, s, heads, e, h, |b| - 1)
    ensures Depth(b, s, heads, 2 * h)
  {
    hide Cyc, Le, Classes;
    forall k {:trigger heads[k]} | 0 < k < |b|
      ensures Step(b, s[k - 1], s[k], 2 * h, heads[k])
    {
      PassPair(b, s0, heads0, s, heads, e, h, k);
    }
  }

  lemma PassPair(b: seq<Byte>, s0: seq<int>, heads0: seq<bool>, s: seq<int>, heads: seq<bool>, e: seq<int>, h: nat,
                 k: int)
    requires Depth(b, s0, heads0, h) && Classes(s0, heads0, h, e, |s0|) && h <= |b| && 0 < k < |b|
    requires InPass(b, s0, heads0, s, heads, e, h, |b| - 1)
    ensures |s| == |b| && 0 <= s[k - 1] < |b| && 0 <= s[k] < |b| && k < |heads|
      && Step(b, s[k - 1], s[k], 2 * h, heads[k])
  {
    hide Cyc, Le, Classes, Depth;
    DepthAt(b, s0, heads0, h, k);
    assert SameKey(b, s[k - 1], s0[k - 1], h) && SameKey(b, s[k], s0[k], h);
    var head := heads[k];
    assert Refined(e, s, heads0, heads, k);
    StepDoubled(b, s0, heads0, h, e, s[k - 1], s[k], heads0[k]);
  }

  // Positions of one bucket hold the same first h bytes.
  lemma {:induction false} BucketKey(b: seq<Byte>, s: seq<int>, heads: seq<bool>, h: nat, l: int, k: int)
    requires Depth(b, s, heads, h) && Framed(b, s, heads) && 0 <= l <= k < |b| && AllHeads(heads, l + 1, k + 1, false)
    ensures SameKey(b, s[l], s[k], h)
    decreases k
  {
    hide Cyc, Le, Depth;
    if l < k {
      DepthAt(b, s, heads, h, k);
      BucketKey(b, s, heads, h, l, k - 1);
    }
  }

  lemma PermOfPermuted(s: seq<int>, t: seq<int>, lo: int, hi: int)
    requires Permuted(s, t, lo, hi) && IsPerm(s)
    ensures IsPerm(t) && |t| == |s|
  {
    hide Permuted;
    PermutedSizes(s, t, lo, hi);
    PermutedWiden(s, t, lo, hi, 0, |s| - 1);
    WholeMultiset(s, t);
    forall i | 0 <= i < |t|
      ensures 0 <= t[i] < |t|
    {
      assert t[i] in multiset(t);
      assert t[i] in s;
    }
    forall i, j | 0 <= i < j < |t|
      ensures t[i] != t[j]
    {
      if t[i] == t[j] {
        InjectiveCount(s, t[i]);
        TwiceIn(t, i, j);
      }
    }
  }

  lemma WholeMultiset(s: seq<int>, t: seq<int>)
    requires Permuted(s, t, 0, |s| - 1)
    ensures multiset(s) == multiset(t) && |s| == |t|
  {
    assert s[0..|s| - 1 + 1] == s && t[0..|s| - 1 + 1] == t;
  }

  lemma TwiceIn(t: seq<int>, i: int, j: int)
    requires 0 <= i < j < |t| && t[i] == t[j]
    ensures multiset(t)[t[i]] >= 2
  {
    assert t == t[..i] + [t[i]] + t[i + 1..j] + [t[j]] + t[j + 1..];
  }

  // Flags set where the class changes within l .. r.
  ghost predicate HeadsRefined(e: seq<int>, s: seq<int>, heads: seq<bool>, heads': seq<bool>, l: int, r: int) {
    && 0 <= l <= r < |s| && |heads'| == |heads| >= |s| && (forall k :: 0 <= k < |s| ==> 0 <= s[k] < |e|)
    && (forall k {:trigger heads'[k]} :: 0 <= k < |heads'| ==>
          heads'[k] == (heads[k] || (l <= k <= r && (k == l || e[s[k - 1]] != e[s[k]]))))
  }

  /** One bucket sorted by class and its new heads marked. */
  lemma PassBucket(b: seq<Byte>, s0: seq<int>, heads0: seq<bool>, s: seq<int>, heads: seq<bool>, e: seq<int>, h: nat,
                   r0: int, s': seq<int>, heads': seq<bool>, l: int, r: int)
    requires Depth(b, s0, heads0, h) && InPass(b, s0, heads0, s, heads, e, h, r0)
    requires r0 + 1 <= l < r < |b| && AllHeads(heads, r0 + 1, l + 1, true) && AllHeads(heads, l + 1, r + 1, false)
    requires Permuted(s, s', l, r) && Indexes(s', |e|) && Sorted(e, s', l, r)
      && HeadsRefined(e, s', heads, heads', l, r)
    ensures InPass(b, s0, heads0, s', heads', e, h, r)
  {
    hide Cyc, Le, Depth, Permuted, Sorted, Refined, SameKey;
    PermOfPermuted(s, s', l, r);
    forall k {:trigger s'[k]} | 0 <= k < |b|
      ensures SameKey(b, s'[k], s0[k], h)
    {
      PassKey(b, s0, heads0, s, heads, e, h, r0, s', l, r, k);
    }
    forall k {:trigger Refined(e, s', heads0, heads', k)} | 0 < k <= r
      ensures Refined(e, s', heads0, heads', k)
    {
      PassRefined(b, s0, heads0, s, heads, e, h, r0, s', heads', l, r, k);
    }
  }

  lemma PassKey(b: seq<Byte>, s0: seq<int>, heads0: seq<bool>, s: seq<int>, heads: seq<bool>, e: seq<int>, h: nat,
                r0: int, s': seq<int>, l: int, r: int, k: int)
    requires Depth(b, s0, heads0, h) && InPass(b, s0, heads0, s, heads, e, h, r0)
    requires r0 + 1 <= l < r < |b| && AllHeads(heads, l + 1, r + 1, false) && Permuted(s, s', l, r)
      && 0 <= k < |b| == |s'|
    ensures 0 <= s'[k] < |b| && SameKey(b, s'[k], s0[k], h)
  {
    hide Le, Depth, Permuted, Cyc;
    if l <= k <= r {
      var j := PermutedSource(s, s', l, r, k);
      forall i | l + 1 <= i < r + 1
        ensures !heads0[i]
      {
        assert !heads[i];
      }
      assert SameKey(b, s[j], s0[j], h);
      BucketKey(b, s0, heads0, h, l, j);
      BucketKey(b, s0, heads0, h, l, k);
    } else {
      PermutedOutside(s, s', l, r, k);
      assert SameKey(b, s[k], s0[k], h);
    }
  }

  lemma PassRefined(b: seq<Byte>, s0: seq<int>, heads0: seq<bool>, s: seq<int>, heads: seq<bool>, e: seq<int>, h: nat,
                    r0: int, s': seq<int>, heads': seq<bool>, l: int, r: int, k: int)
    requires InPass(b, s0, heads0, s, heads, e, h, r0) && 0 < k <= r
    requires r0 + 1 <= l < r < |b| && AllHeads(heads, r0 + 1, l + 1, true) && AllHeads(heads, l + 1, r + 1, false)
    requires Permuted(s, s', l, r) && |s'| == |b| && Indexes(s', |e|) && Sorted(e, s', l, r)
      && HeadsRefined(e, s', heads, heads', l, r)
    ensures Refined(e, s', heads0, heads', k)
  {
    hide Permuted, SameKey;
    if k <= r0 {
      PermutedOutside(s, s', l, r, k);
      PermutedOutside(s, s', l, r, k - 1);
      assert heads'[k] == heads[k];
      assert Refined(e, s, heads0, heads, k);
    } else {
      assert heads[k] == heads0[k];
      assert heads'[k] == (heads[k] || (l <= k <= r && (k == l || e[s'[k - 1]] != e[s'[k]])));
    }
  }

  // ----- what depth means at the end

  lemma StepRot(b: seq<Byte>, x: int, y: int, h: nat, head: bool)
    requires 0 <= x < |b| && 0 <= y < |b| && Step(b, x, y, h, head) && (|b| <= h || (head && h <= |b|))
    ensures RotLe(b, x, y)
  {
    hide Cyc, Le;
    RotIsCyc(b, x);
    RotIsCyc(b, y);
    if |b| <= h {
      CycPrefix(b, x, |b|, h - |b|);
      CycPrefix(b, y, |b|, h - |b|);
      LeSame(Cyc(b, x, h), Cyc(b, y, h));
      LePrefix(Cyc(b, x, h), Cyc(b, y, h), |b|);
    } else {
      CycSplit(b, x, h, |b| - h);
      CycSplit(b, y, h, |b| - h);
      LeAppend(Cyc(b, x, h), Cyc(b, y, h), Cyc(b, Plus(x, h, |b|), |b| - h), Cyc(b, Plus(y, h, |b|), |b| - h));
    }
  }

  lemma {:induction false} RotsInOrder(b: seq<Byte>, s: seq<int>, i: int, j: int)
    requires |s| == |b| && (forall k :: 0 <= k < |b| ==> 0 <= s[k] < |b|) && 0 <= i <= j < |b|
    requires forall k {:trigger s[k]} :: 0 < k < |b| ==> RotLe(b, s[k - 1], s[k])
    ensures RotLe(b, s[i], s[j])
    decreases j - i
  {
    hide Le;
    if i == j {
      LeRefl(Rot(b, s[i]));
    } else {
      RotsInOrder(b, s, i, j - 1);
      assert RotLe(b, s[j - 1], s[j]);
      LeTrans(Rot(b, s[i]), Rot(b, s[j - 1]), Rot(b, s[j]));
    }
  }

  /** Sorted by at least |b| bytes, or by any number with all buckets single: the rotations are sorted. */
  lemma DepthSorts(b: seq<Byte>, s: seq<int>, heads: seq<bool>, h: nat)
    requires Depth(b, s, heads, h) && (|b| <= h || (h <= |b| && AllHeads(heads, 0, |b|, true)))
    ensures SortsRotations(b, s)
  {
    hide Cyc, Le, Depth, RotLe, Step;
    if 1 < |b| { DepthAt(b, s, heads, h, 1); }
    DepthFramed(b, s, heads, h);
    forall k {:trigger s[k]} | 0 < k < |b|
      ensures RotLe(b, s[k - 1], s[k])
    {
      DepthAt(b, s, heads, h, k);
      StepRot(b, s[k - 1], s[k], h, heads[k]);
    }
    forall i, j {:trigger RotLe(b, s[i], s[j])} | 0 <= i < j < |s|
      ensures RotLe(b, s[i], s[j])
    {
      RotsInOrder(b, s, i, j);
    }
  }

  lemma DepthFramed(b: seq<Byte>, s: seq<int>, heads: seq<bool>, h: nat)
    requires Depth(b, s, heads, h)
    ensures Framed(b, s, heads)
  {
  }

  // ----- the first bucket sort

  // Where index i goes: each bucket is filled from its end.
  function FirstSlot(b: seq<Byte>, i: int): int
    requires 0 <= i < |b|
  {
    IB.CountBelow(b, b[i] as int + 1, |b|) - 1 - IB.Occ(b, b[i], i)
  }

  // The byte whose bucket contains position k.
  ghost predicate InBucket(b: seq<Byte>, c: int, k: int) {
    IB.CountBelow(b, c, |b|) <= k < IB.CountBelow(b, c + 1, |b|)
  }

  lemma FirstSlotBucket(b: seq<Byte>, i: int)
    requires 0 <= i < |b|
    ensures InBucket(b, b[i], FirstSlot(b, i)) && 0 <= FirstSlot(b, i) < |b|
  {
    IB.OccMono(b, b[i], i + 1, |b|);
    IB.CountBelowStep(b, b[i], |b|);
  }

  lemma BucketUnique(b: seq<Byte>, c: int, d: int, k: int)
    requires InBucket(b, c, k) && InBucket(b, d, k)
    ensures c == d
  {
    if c < d { IB.CountBelowMono(b, c + 1, d, |b|); }
    if d < c { IB.CountBelowMono(b, d + 1, c, |b|); }
  }

  lemma FirstSlotInjective(b: seq<Byte>, i: int, j: int)
    requires 0 <= i < j < |b|
    ensures FirstSlot(b, i) != FirstSlot(b, j)
  {
    FirstSlotBucket(b, i);
    FirstSlotBucket(b, j);
    if FirstSlot(b, i) == FirstSlot(b, j) {
      BucketUnique(b, b[i], b[j], FirstSlot(b, i));
      IB.OccMono(b, b[i], i + 1, j);
    }
  }

  ghost function Slots(b: seq<Byte>): (p: seq<int>)
    ensures |p| == |b| && IsPerm(p) && forall i :: 0 <= i < |b| ==> p[i] == FirstSlot(b, i)
  {
    var p := seq(|b|, i requires 0 <= i < |b| => FirstSlot(b, i));
    assert forall i :: 0 <= i < |b| ==> 0 <= p[i] < |b| by {
      forall i | 0 <= i < |b| ensures 0 <= p[i] < |b| { FirstSlotBucket(b, i); }
    }
    assert forall i, j :: 0 <= i < j < |b| ==> p[i] != p[j] by {
      forall i, j | 0 <= i < j < |b| ensures p[i] != p[j] { FirstSlotInjective(b, i, j); }
    }
    p
  }

  // s sends slots back to indices.
  ghost predicate Filled(b: seq<Byte>, s: seq<int>, upTo: nat) {
    |s| >= |b| >= upTo && forall i {:trigger FirstSlot(b, i)} :: 0 <= i < upTo ==>
      0 <= FirstSlot(b, i) < |s| && s[FirstSlot(b, i)] == i
  }

  lemma SlotSource(b: seq<Byte>, s: seq<int>, k: int)
    requires Filled(b, s, |b|) && 0 <= k < |b|
    ensures 0 <= s[k] < |b| && FirstSlot(b, s[k]) == k
  {
    hide FirstSlot;
    var p := Slots(b);
    PermCovers(p);
    assert k in p;
    var i :| 0 <= i < |p| && p[i] == k;
    assert FirstSlot(b, i) == k;
  }

  lemma FilledIsPerm(b: seq<Byte>, s: seq<int>)
    requires Filled(b, s, |b|)
    ensures IsPerm(s[..|b|])
  {
    hide FirstSlot;
    var t := s[..|b|];
    forall k | 0 <= k < |b|
      ensures 0 <= t[k] < |b|
    {
      SlotSource(b, s, k);
    }
    forall j, k | 0 <= j < k < |b|
      ensures t[j] != t[k]
    {
      SlotSource(b, s, j);
      SlotSource(b, s, k);
    }
  }

  // Flags at the start of every bucket, nonempty or not.
  ghost predicate StartsMarked(b: seq<Byte>, heads: seq<bool>, upTo: int) {
    forall k {:trigger heads[k]} :: 0 <= k < |heads| ==> (heads[k] <==> exists c :: 0 <= c < upTo && StartIs(b, c, k))
  }

  ghost predicate StartIs(b: seq<Byte>, c: int, k: int) {
    IB.CountBelow(b, c, |b|) == k
  }

  lemma MarkedBetween(b: seq<Byte>, heads: seq<bool>, k: int, x: Byte, y: Byte)
    requires StartsMarked(b, heads, 256) && 0 < k < |b| <= |heads| && InBucket(b, y, k - 1) && InBucket(b, x, k)
    ensures y <= x && (heads[k] <==> x != y)
  {
    hide IB.CountBelow;
    if x < y { IB.CountBelowMono(b, x as int + 1, y, |b|); }
    if y < x {
      IB.CountBelowMono(b, y as int + 1, x, |b|);
      assert StartIs(b, x, k);
    }
    if x == y && heads[k] {
      var c :| 0 <= c < 256 && StartIs(b, c, k);
      if c <= x { IB.CountBelowMono(b, c, x, |b|); } else { IB.CountBelowMono(b, x as int + 1, c, |b|); }
    }
  }

  lemma OneByteCyc(b: seq<Byte>, i: int)
    requires 0 <= i < |b|
    ensures Cyc(b, i, 1) == [b[i]]
  {
    assert Cyc(b, Succ(i, |b|), 0) == [];
  }

  lemma OneByteOrder(x: Byte, y: Byte)
    ensures x < y ==> Lt([x], [y])
  {
    assert [x][0] != [y][0] || x == y;
  }

  lemma FirstStep(b: seq<Byte>, s: seq<int>, heads: seq<bool>, k: int)
    requires Filled(b, s, |b|) && StartsMarked(b, heads, 256) && 0 < k < |b| <= |heads|
    ensures 0 <= s[k - 1] < |b| && 0 <= s[k] < |b| && Step(b, s[k - 1], s[k], 1, heads[k])
  {
    hide Cyc, IB.CountBelow, FirstSlot, StartsMarked, Le;
    SlotSource(b, s, k - 1);
    SlotSource(b, s, k);
    FirstSlotBucket(b, s[k - 1]);
    FirstSlotBucket(b, s[k]);
    MarkedBetween(b, heads, k, b[s[k]], b[s[k - 1]]);
    OneByteCyc(b, s[k - 1]);
    OneByteCyc(b, s[k]);
    OneByteOrder(b[s[k - 1]], b[s[k]]);
  }

  // The headers once the sentinels past the block are in.
  ghost predicate Sentinels(b: seq<Byte>, heads0: seq<bool>, heads: seq<bool>) {
    && |heads| == |b| + 2 == |heads0| && heads[|b|] && !heads[|b| + 1]
    && forall k {:trigger heads[k]} :: 0 <= k < |b| ==> heads[k] == heads0[k]
  }

  /** The first bucket sort has depth 1. */
  lemma FirstDepth(b: seq<Byte>, s: seq<int>, heads0: seq<bool>, heads: seq<bool>)
    requires Filled(b, s, |b|) && |s| == |b| >= 1 && StartsMarked(b, heads0, 256) && Sentinels(b, heads0, heads)
    ensures Depth(b, s, heads, 1)
  {
    hide Cyc, IB.CountBelow, FirstSlot, Filled, Step;
    FilledIsPerm(b, s);
    assert s[..|b|] == s;
    IB.CountBelowEnds(b, |b|);
    assert StartIs(b, 0, 0);
    assert heads0[0];
    forall k {:trigger heads[k]} | 0 < k < |b|
      ensures Step(b, s[k - 1], s[k], 1, heads[k])
    {
      FirstStep(b, s, heads0, k);
    }
  }

  // Count the bytes, keep a copy, and sum up: ftab[c] is the end of bucket c.
  method CountBytes(eclass8: array<Byte>, n: nat, ftab: array<int>, ftabCopy: array<int>, ghost b: seq<Byte>)
    requires n <= eclass8.Length && eclass8[..n] == b && ftab.Length == 257 && ftabCopy.Length == 256
      && ftab != ftabCopy
    requires ftab as object != eclass8 && ftabCopy as object != eclass8
    modifies ftab, ftabCopy
    ensures forall c :: 0 <= c < 256 ==> ftabCopy[c] == IB.Occ(b, c, n)
    ensures forall c :: 0 <= c < 256 ==> ftab[c] == IB.CountBelow(b, c + 1, n)
  {
    hide IB.Occ, IB.CountBelow;
    Tally(eclass8, n, ftab, b);
    var i := 0;
    while i < 256
      invariant 0 <= i <= 256
      invariant forall c :: 0 <= c < 256 ==> ftab[c] == IB.Occ(b, c, n)
      invariant forall c :: 0 <= c < i ==> ftabCopy[c] == IB.Occ(b, c, n)
      invariant ftab[256] == 0
    {
      ftabCopy[i] := ftab[i];
      i := i + 1;
    }
    IB.CountBelowEnds(b, n);
    IB.CountBelowStep(b, 0, n);
    i := 1;
    while i < 257
      invariant 1 <= i <= 257
      invariant forall c :: 0 <= c < i && c < 256 ==> ftab[c] == IB.CountBelow(b, c + 1, n)
      invariant forall c :: i <= c < 256 ==> ftab[c] == IB.Occ(b, c, n)
      invariant forall c :: 0 <= c < 256 ==> ftabCopy[c] == IB.Occ(b, c, n)
    {
      IB.CountBelowStep(b, i, n);
      ftab[i] := ftab[i] + ftab[i - 1];
      i := i + 1;
    }
  }

  lemma OccStep(b: seq<Byte>, c: int, i: nat)
    requires i < |b|
    ensures IB.Occ(b, c, i + 1) == IB.Occ(b, c, i) + (if b[i] == c then 1 else 0) && IB.Occ(b, c, 0) == 0
  {
  }

  method Tally(eclass8: array<Byte>, n: nat, ftab: array<int>, ghost b: seq<Byte>)
    requires n <= eclass8.Length && eclass8[..n] == b && ftab.Length == 257 && ftab as object != eclass8
    modifies ftab
    ensures ftab[256] == 0 && forall c :: 0 <= c < 256 ==> ftab[c] == IB.Occ(b, c, n)
  {
    hide IB.Occ;
    var i := 0;
    while i < 257
      invariant 0 <= i <= 257 && forall c :: 0 <= c < i ==> ftab[c] == 0
    {
      ftab[i] := 0;
      i := i + 1;
    }
    forall c | 0 <= c < 256
      ensures IB.Occ(b, c, 0) == 0
    {
      if b != [] { OccStep(b, c, 0); } else { OccEmpty(b, c); }
    }
    i := 0;
    while i < n
      invariant 0 <= i <= n && ftab[256] == 0
      invariant forall c :: 0 <= c < 256 ==> ftab[c] == IB.Occ(b, c, i)
    {
      assert eclass8[i] == b[i];
      forall c | 0 <= c < 256
        ensures IB.Occ(b, c, i + 1) == IB.Occ(b, c, i) + (if b[i] == c then 1 else 0)
      {
        OccStep(b, c, i);
      }
      ftab[eclass8[i]] := ftab[eclass8[i]] + 1;
      i := i + 1;
    }
  }

  lemma OccEmpty(b: seq<Byte>, c: int)
    ensures IB.Occ(b, c, 0) == 0
  {
  }

  // Drop every index into its bucket.
  method FillBuckets(eclass8: array<Byte>, n: nat, ftab: array<int>, fmap: array<int>, ghost b: seq<Byte>)
    requires n <= eclass8.Length && eclass8[..n] == b && ftab.Length == 257 && n <= fmap.Length && ftab != fmap
    requires ftab as object != eclass8 && fmap as object != eclass8
    requires forall c :: 0 <= c < 256 ==> ftab[c] == IB.CountBelow(b, c + 1, n)
    modifies ftab, fmap
    ensures Filled(b, fmap[..], n)
    ensures forall c :: 0 <= c < 256 ==> ftab[c] == IB.CountBelow(b, c, n)
  {
    hide IB.Occ, IB.CountBelow;
    forall c | 0 <= c < 256
      ensures IB.Occ(b, c, 0) == 0
    {
      OccEmpty(b, c);
    }
    var i := 0;
    while i < n
      invariant 0 <= i <= n && Filled(b, fmap[..], i)
      invariant forall c :: 0 <= c < 256 ==> ftab[c] == IB.CountBelow(b, c + 1, n) - IB.Occ(b, c, i)
    {
      var j := eclass8[i];
      assert j == b[i];
      FirstSlotBucket(b, i);
      FillOne(b, fmap[..], i);
      forall c | 0 <= c < 256
        ensures IB.Occ(b, c, i + 1) == IB.Occ(b, c, i) + (if b[i] == c then 1 else 0)
      {
        OccStep(b, c, i);
      }
      var k := ftab[j] - 1;
      ftab[j] := k;
      fmap[k] := i;
      i := i + 1;
    }
    forall c | 0 <= c < 256
      ensures ftab[c] == IB.CountBelow(b, c, n)
    {
      IB.CountBelowStep(b, c, n);
    }
  }

  lemma FillOne(b: seq<Byte>, s: seq<int>, i: nat)
    requires Filled(b, s, i) && i < |b|
    ensures 0 <= FirstSlot(b, i) < |s| && Filled(b, s[FirstSlot(b, i) := i], i + 1)
  {
    hide FirstSlot;
    FirstSlotBucket(b, i);
    forall j {:trigger FirstSlot(b, j)} | 0 <= j < i
      ensures FirstSlot(b, j) != FirstSlot(b, i)
    {
      FirstSlotInjective(b, j, i);
    }
  }

  // SET_BH at every bucket start.
  method MarkStarts(bhtab: array<nat>, n: nat, ftab: array<int>, ghost b: seq<Byte>) returns (ghost heads: seq<bool>)
    requires |b| == n && n / 32 + 3 <= bhtab.Length && ftab.Length == 257 && bhtab as object != ftab
    requires forall c :: 0 <= c < 256 ==> ftab[c] == IB.CountBelow(b, c, n)
    modifies bhtab
    ensures |heads| == n + 2 && Marks(bhtab[..], heads) && StartsMarked(b, heads, 256)
  {
    hide IB.CountBelow, Marks;
    var nBhtab := 2 + n / 32;
    var i := 0;
    while i < nBhtab
      invariant 0 <= i <= nBhtab && forall k :: 0 <= k < i ==> bhtab[k] == 0
    {
      bhtab[i] := 0;
      i := i + 1;
    }
    heads := seq(n + 2, _ => false);
    NothingMarked(bhtab[..], n);
    i := 0;
    while i < 256
      invariant 0 <= i <= 256 && |heads| == n + 2 && Marks(bhtab[..], heads) && StartsMarked(b, heads, i)
    {
      SetBh(bhtab, ftab[i], heads);
      MarkOneStart(b, heads, i);
      heads := With(heads, ftab[i], true);
      i := i + 1;
    }
  }

  lemma NothingMarked(bh: seq<nat>, n: nat)
    requires n / 32 + 3 <= |bh| && forall k :: 0 <= k < 2 + n / 32 ==> bh[k] == 0
    ensures Marks(bh, seq(n + 2, _ => false))
  {
    forall k | 0 <= k < n + 2
      ensures !IsSet(bh, k)
    {
      BitZero(k % 32);
    }
    hide Bit;
  }

  lemma MarkOneStart(b: seq<Byte>, heads: seq<bool>, c: int)
    requires StartsMarked(b, heads, c) && 0 <= c && |heads| == |b| + 2
    ensures StartsMarked(b, With(heads, IB.CountBelow(b, c, |b|), true), c + 1)
  {
    hide IB.CountBelow;
    var k0 := IB.CountBelow(b, c, |b|);
    var heads' := With(heads, k0, true);
    forall k {:trigger heads'[k]} | 0 <= k < |heads'|
      ensures heads'[k] <==> exists d :: 0 <= d < c + 1 && StartIs(b, d, k)
    {
      assert heads[k] <==> exists d :: 0 <= d < c && StartIs(b, d, k);
      if k == k0 { assert StartIs(b, c, k); }
      if heads[k] {
        var d :| 0 <= d < c && StartIs(b, d, k);
        assert 0 <= d < c + 1 && StartIs(b, d, k);
      }
    }
  }

  // Alternating sentinels past the block.
  method MarkSentinels(bhtab: array<nat>, n: nat, ghost b: seq<Byte>, ghost heads0: seq<bool>)
    returns (ghost heads: seq<bool>)
    requires |b| == n && (n + 63) / 32 < bhtab.Length && |heads0| == n + 2 && Marks(bhtab[..], heads0)
    modifies bhtab
    ensures Marks(bhtab[..], heads) && Sentinels(b, heads0, heads)
  {
    hide Marks;
    heads := heads0;
    var i := 0;
    while i < 32
      invariant 0 <= i <= 32 && Marks(bhtab[..], heads)
      invariant i == 0 ==> heads == heads0
      invariant 0 < i ==> Sentinels(b, heads0, heads)
    {
      SetBh(bhtab, n + 2 * i, heads);
      heads := With(heads, n + 2 * i, true);
      ClearBh(bhtab, n + 2 * i + 1, heads);
      heads := With(heads, n + 2 * i + 1, false);
      i := i + 1;
    }
  }

  // ----- writing the class array over the block

  ghost function Words(mem: seq<Byte>, n: nat): (e: seq<int>)
    requires 4 * n <= |mem|
    ensures |e| == n && ClassView(mem, e)
  {
    seq(n, k requires 0 <= k < n => Word4(mem, k))
  }

  lemma WordBytes(v: nat)
    requires v < 0x1_0000_0000
    ensures v % 0x100 + 0x100 * (v / 0x100 % 0x100) + 0x1_0000 * (v / 0x1_0000 % 0x100)
      + 0x100_0000 * (v / 0x100_0000 % 0x100) == v
  {
    assert v / 0x100_0000 % 0x100 == v / 0x100_0000;
    assert v / 0x1_0000 == 0x100 * (v / 0x100_0000) + v / 0x1_0000 % 0x100;
    assert v / 0x100 == 0x100 * (v / 0x1_0000) + v / 0x100 % 0x100;
    assert v == 0x100 * (v / 0x100) + v % 0x100;
  }

  // eclass[k] = v
  method StoreWord(mem: array<Byte>, k: nat, v: nat, ghost n: nat)
    requires k < n && 4 * n <= mem.Length && v < 0x1_0000_0000
    modifies mem
    ensures Words(mem[..], n) == old(Words(mem[..], n))[k := v]
  {
    ghost var before := mem[..];
    mem[4 * k] := v % 0x100;
    mem[4 * k + 1] := v / 0x100 % 0x100;
    mem[4 * k + 2] := v / 0x1_0000 % 0x100;
    mem[4 * k + 3] := v / 0x100_0000 % 0x100;
    WordBytes(v);
    forall j | 0 <= j < n
      ensures Word4(mem[..], j) == if j == k then v else Word4(before, j)
    {
      if j != k { WordsApart(before, mem[..], j, k); }
    }
  }

  lemma WordsApart(s: seq<Byte>, t: seq<Byte>, j: nat, k: nat)
    requires |s| == |t| && j != k && 4 * j + 3 < |s| && 4 * k + 3 < |s|
    requires forall x :: 0 <= x < |s| && !(4 * k <= x < 4 * k + 4) ==> t[x] == s[x]
    ensures Word4(t, j) == Word4(s, j)
  {
  }

  lemma ClassesStep(s: seq<int>, heads: seq<bool>, h: nat, e: seq<int>, i: nat)
    requires Classes(s, heads, h, e, i) && i < |s| && IsPerm(s)
    ensures 0 <= Minus(s[i], h, |s|) < |e| && Classes(s, heads, h, e[Minus(s[i], h, |s|) := Start(heads, i)], i + 1)
  {
    hide Start;
    forall j | 0 <= j < i
      ensures Minus(s[j], h, |s|) != Minus(s[i], h, |s|)
    {
      assert s[j] != s[i];
    }
  }

  lemma StartStep(heads: seq<bool>, i: nat)
    requires 0 < i < |heads|
    ensures Start(heads, i) == (if heads[i] then i else Start(heads, i - 1))
  {
  }

  /** The class of a rotation is the bucket of the rotation h further on. */
  method FillClasses(fmap: array<int>, bhtab: array<nat>, eclass: array<Byte>, n: nat, h: nat, ghost b: seq<Byte>,
                     ghost heads: seq<bool>)
    returns (ghost e: seq<int>)
    requires fmap.Length == n == |b| && 4 * n <= eclass.Length && Framed(b, fmap[..], heads) && Marks(bhtab[..], heads)
      && h <= n
    requires fmap as object != eclass && bhtab as object != eclass && n < 0x1_0000_0000
    modifies eclass
    ensures Classes(fmap[..], heads, h, e, n) && ClassView(eclass[..], e) && |e| == n
  {
    hide Marks, Start, Words, ClassView;
    ghost var s := fmap[..];
    var j := 0;
    var i := 0;
    e := Words(eclass[..], n);
    while i < n
      invariant 0 <= i <= n && e == Words(eclass[..], n) && Classes(s, heads, h, e, i)
      invariant 0 < i ==> j == Start(heads, i - 1)
      invariant 0 <= j <= i
    {
      var head := IsSetBh(bhtab, i, heads);
      if head { j := i; }
      if 0 < i { StartStep(heads, i); } else { StartZero(heads); }
      assert j == Start(heads, i);
      ClassesStep(s, heads, h, e, i);
      var k := fmap[i] - h;
      if k < 0 { k := k + n; }
      StoreWord(eclass, k, j, n);
      e := Words(eclass[..], n);
      i := i + 1;
    }
  }

  lemma StartZero(heads: seq<bool>)
    requires 0 < |heads|
    ensures Start(heads, 0) == 0
  {
  }

  // ----- one pass

  // Mark the positions where the class changes.
  method MarkClasses(fmap: array<int>, eclass: array<Byte>, bhtab: array<nat>, l: nat, r: nat, ghost e: seq<int>,
                     ghost heads0: seq<bool>)
    returns (ghost heads: seq<bool>)
    requires l <= r < fmap.Length <= |heads0| && ClassView(eclass[..], e) && Indexes(fmap[..], |e|)
      && Marks(bhtab[..], heads0)
    requires bhtab as object != fmap && bhtab as object != eclass
    modifies bhtab
    ensures Marks(bhtab[..], heads) && HeadsRefined(e, fmap[..], heads0, heads, l, r)
  {
    hide Marks, ClassView;
    ghost var s := fmap[..];
    ClassesNonneg(eclass[..], e);
    heads := heads0;
    var cc := -1;
    var i := l;
    while i <= r
      invariant l <= i <= r + 1 && Marks(bhtab[..], heads) && |heads| == |heads0|
      invariant cc == if i == l then -1 else e[s[i - 1]]
      invariant forall k {:trigger heads[k]} :: 0 <= k < |heads| ==>
        heads[k] == (heads0[k] || (l <= k < i && (k == l || e[s[k - 1]] != e[s[k]])))
    {
      InTable(bhtab[..], heads, i);
      var cc1 := Class(eclass, fmap[i], e);
      if cc != cc1 {
        SetBh(bhtab, i, heads);
        heads := With(heads, i, true);
        cc := cc1;
      }
      i := i + 1;
    }
  }

  lemma ClassesNonneg(mem: seq<Byte>, e: seq<int>)
    requires ClassView(mem, e)
    ensures forall k :: 0 <= k < |e| ==> 0 <= e[k]
  {
  }

  lemma InPassFacts(b: seq<Byte>, s0: seq<int>, heads0: seq<bool>, s: seq<int>, heads: seq<bool>, e: seq<int>, h: nat,
                    r: int)
    requires InPass(b, s0, heads0, s, heads, e, h, r)
    ensures |s| == |b| == |e| && |heads| == |b| + 2 && Indexes(s, |e|) && heads[|b|] && !heads[|b| + 1]
  {
  }

  lemma RefinedHeads(e: seq<int>, s: seq<int>, heads: seq<bool>, heads': seq<bool>, l: int, r: int)
    requires HeadsRefined(e, s, heads, heads', l, r)
    ensures |heads'| == |heads| && forall k :: 0 <= k < |heads| && heads[k] ==> heads'[k]
  {
  }

  lemma HeadsFacts(heads: seq<bool>, a: int, k: int, v: bool)
    requires AllHeads(heads, a, k, v) && a < k
    ensures 0 <= a && k <= |heads| && heads[a] == v
    ensures forall j :: a <= j <= k ==> AllHeads(heads, a, j, v)
  {
  }

  /** Every bucket is sorted by class and split where the class changes. */
  method RefinePass(fmap: array<int>, bhtab: array<nat>, eclass: array<Byte>, n: nat, ghost b: seq<Byte>,
                    ghost heads0: seq<bool>, ghost e: seq<int>, ghost h: nat)
    returns (nNotDone: int, ghost heads: seq<bool>)
    requires fmap.Length == n == |b| == |e| < 0x10_0000 && Depth(b, fmap[..], heads0, h) && Marks(bhtab[..], heads0)
      && ClassView(eclass[..], e)
    requires fmap as object != eclass && bhtab as object != eclass && bhtab as object != fmap
    modifies fmap, bhtab
    ensures Marks(bhtab[..], heads) && InPass(b, old(fmap[..]), heads0, fmap[..], heads, e, h, n - 1)
    ensures nNotDone == 0 ==> AllHeads(heads0, 0, n, true)
  {
    hide *;
    ghost var s0 := fmap[..];
    heads := heads0;
    DepthFramed(b, s0, heads0, h);
    FramedFacts(b, s0, heads0);
    InPassStart(b, s0, heads0, e, h);
    nNotDone := 0;
    var r := -1;
    while true
      invariant -1 <= r < n && |heads| == n + 2 && heads[r + 1] && Marks(bhtab[..], heads)
        && InPass(b, s0, heads0, fmap[..], heads, e, h, r)
      invariant 0 <= nNotDone && (nNotDone == 0 ==> r == -1 && heads == heads0)
      decreases n - r
    {
      InPassFacts(b, s0, heads0, fmap[..], heads, e, h, r);
      var k := Skip(bhtab, r + 1, true, n + 1, heads);
      var l := k - 1;
      HeadsFacts(heads, r + 1, k, true);
      if l >= n {
        InPassEnd(b, s0, heads0, fmap[..], heads, e, h, r);
        break;
      }
      k := Skip(bhtab, k, false, n, heads);
      ghost var r0 := r;
      r := k - 1;
      if r >= n { break; }
      if r > l {
        nNotDone := nNotDone + (r - l + 1);
        ghost var s := fmap[..];
        QSort3(fmap, eclass, l, r, e);
        ghost var heads' := MarkClasses(fmap, eclass, bhtab, l, r, e, heads);
        RefinedHeads(e, fmap[..], heads, heads', l, r);
        PassBucket(b, s0, heads0, s, heads, e, h, r0, fmap[..], heads', l, r);
        heads := heads';
      }
    }
  }

  // ----- rebuilding the block

  // Every position lies in the bucket of its rotation's first byte.
  ghost predicate InBuckets(b: seq<Byte>, s: seq<int>) {
    && |s| == |b| && (forall k :: 0 <= k < |b| ==> 0 <= s[k] < |b|)
    && forall k {:trigger s[k]} :: 0 <= k < |b| ==> InBucket(b, b[s[k]], k)
  }

  lemma FirstBuckets(b: seq<Byte>, s: seq<int>)
    requires Filled(b, s, |b|) && |s| == |b|
    ensures InBuckets(b, s)
  {
    hide Filled, FirstSlot, InBucket;
    forall k | 0 <= k < |b|
      ensures 0 <= s[k] < |b| && InBucket(b, b[s[k]], k)
    {
      SlotSource(b, s, k);
      FirstSlotBucket(b, s[k]);
    }
  }

  lemma BucketsKept(b: seq<Byte>, s0: seq<int>, heads0: seq<bool>, s: seq<int>, heads: seq<bool>, e: seq<int>, h: nat,
                    r: int)
    requires InPass(b, s0, heads0, s, heads, e, h, r) && InBuckets(b, s0) && 1 <= h
    ensures InBuckets(b, s)
  {
    hide Refined, Cyc, InBucket;
    forall k {:trigger s[k]} | 0 <= k < |b|
      ensures InBucket(b, b[s[k]], k)
    {
      assert SameKey(b, s[k], s0[k], h);
      CycFirst(b, s[k], h);
      CycFirst(b, s0[k], h);
      assert InBucket(b, b[s0[k]], k);
    }
  }

  lemma CycFirst(b: seq<Byte>, i: int, h: nat)
    requires 0 <= i < |b| && 1 <= h
    ensures Cyc(b, i, h)[0] == b[i]
  {
  }

  // Bytes handed out so far: i of them, j being the current one.
  ghost predicate Handing(b: seq<Byte>, counts: seq<int>, i: nat, j: nat) {
    && |counts| == 256 && j < 256
    && IB.CountBelow(b, j, |b|) <= i <= IB.CountBelow(b, j + 1, |b|)
    && counts[j] == IB.CountBelow(b, j + 1, |b|) - i
    && forall c :: j < c < 256 ==> counts[c] == IB.Occ(b, c, |b|)
  }

  lemma HandingStart(b: seq<Byte>, counts: seq<int>)
    requires |counts| == 256 && forall c :: 0 <= c < 256 ==> counts[c] == IB.Occ(b, c, |b|)
    ensures Handing(b, counts, 0, 0)
  {
    IB.CountBelowEnds(b, |b|);
    IB.CountBelowStep(b, 0, |b|);
    hide IB.CountBelow, IB.Occ;
  }

  lemma HandingNext(b: seq<Byte>, counts: seq<int>, i: nat, j: nat)
    requires Handing(b, counts, i, j) && i < |b| && counts[j] == 0
    ensures j < 255 && Handing(b, counts, i, j + 1)
  {
    IB.CountBelowEnds(b, |b|);
    if j == 255 { assert false; }
    IB.CountBelowStep(b, j + 1, |b|);
    hide IB.CountBelow, IB.Occ;
  }

  lemma HandingByte(b: seq<Byte>, counts: seq<int>, i: nat, j: nat, c: Byte)
    requires Handing(b, counts, i, j) && i < |b| && counts[j] != 0 && InBucket(b, c, i)
    ensures j == c && Handing(b, counts[j := counts[j] - 1], i + 1, j)
  {
    hide IB.CountBelow, IB.Occ;
    BucketUnique(b, c, j, i);
  }

  /** The block lost under the class array is rebuilt from the order and the byte counts. */
  method RestoreBlock(fmap: array<int>, eclass8: array<Byte>, n: nat, ftabCopy: array<int>, ghost b: seq<Byte>)
    requires fmap.Length == n == |b| <= eclass8.Length && ftabCopy.Length == 256 && IsPerm(fmap[..])
      && InBuckets(b, fmap[..])
    requires forall c :: 0 <= c < 256 ==> ftabCopy[c] == IB.Occ(b, c, n)
    requires fmap != ftabCopy && fmap as object != eclass8 && ftabCopy as object != eclass8
    modifies eclass8, ftabCopy
    ensures eclass8[..n] == b && eclass8[n..] == old(eclass8[n..])
  {
    hide IB.Occ, IB.CountBelow, Handing, InBucket;
    ghost var s := fmap[..];
    HandingStart(b, ftabCopy[..]);
    var j := 0;
    var i := 0;
    while i < n
      invariant 0 <= i <= n && 0 <= j < 256 && fmap[..] == s && Handing(b, ftabCopy[..], i, j)
      invariant forall k {:trigger s[k]} :: 0 <= k < i ==> eclass8[s[k]] == b[s[k]]
      invariant eclass8[n..] == old(eclass8[n..])
    {
      while ftabCopy[j] == 0
        invariant 0 <= j < 256 && Handing(b, ftabCopy[..], i, j) && fmap[..] == s
        invariant forall k {:trigger s[k]} :: 0 <= k < i ==> eclass8[s[k]] == b[s[k]]
        invariant eclass8[n..] == old(eclass8[n..])
        decreases 256 - j
      {
        HandingNext(b, ftabCopy[..], i, j);
        j := j + 1;
      }
      assert InBucket(b, b[s[i]], i);
      HandingByte(b, ftabCopy[..], i, j, b[s[i]]);
      ftabCopy[j] := ftabCopy[j] - 1;
      eclass8[fmap[i]] := j;
      i := i + 1;
    }
    PermCovers(s);
    forall x | 0 <= x < n
      ensures eclass8[x] == b[x]
    {
      assert x in s;
      var k :| 0 <= k < |s| && s[k] == x;
    }
  }

  // ----- the whole sort

  lemma AllRefinedHeads(b: seq<Byte>, s0: seq<int>, heads0: seq<bool>, s: seq<int>, heads: seq<bool>, e: seq<int>,
                        h: nat)
    requires InPass(b, s0, heads0, s, heads, e, h, |b| - 1) && AllHeads(heads0, 0, |b|, true)
    ensures AllHeads(heads, 0, |b|, true)
  {
    hide Cyc, SameKey;
    forall k | 0 < k < |b|
      ensures heads[k]
    {
      assert Refined(e, s, heads0, heads, k);
    }
  }

  lemma InPassFramed(b: seq<Byte>, s0: seq<int>, heads0: seq<bool>, s: seq<int>, heads: seq<bool>, e: seq<int>, h: nat,
                     r: int)
    requires InPass(b, s0, heads0, s, heads, e, h, r)
    ensures Framed(b, s, heads) && IsPerm(s)
  {
  }

  /** fallbackSort: fmap lists the rotations of the block in order and the block is intact. */
  method FallbackSort(fmap: array<int>, eclass: array<Byte>, bhtab: array<nat>, n: nat, ghost b: seq<Byte>)
    requires 1 <= n == fmap.Length && 4 * n <= eclass.Length && n / 32 + 3 <= bhtab.Length && n < 0x10_0000
      && b == eclass[..n]
    requires fmap as object != eclass && bhtab as object != eclass && bhtab as object != fmap
    modifies fmap, eclass, bhtab
    ensures SortsRotations(b, fmap[..]) && eclass[..n] == b
  {
    hide *;
    var ftab, ftabCopy := new int[257], new int[256];
    CountBytes(eclass, n, ftab, ftabCopy, b);
    ghost var counts := ftabCopy[..];
    FillBuckets(eclass, n, ftab, fmap, b);
    ghost var heads := MarkStarts(bhtab, n, ftab, b);
    ghost var heads0 := heads;
    heads := MarkSentinels(bhtab, n, b, heads0);
    FirstDepth(b, fmap[..], heads0, heads);
    FirstBuckets(b, fmap[..]);
    var h := 1;
    while true
      invariant 1 <= h <= n && Depth(b, fmap[..], heads, h) && Marks(bhtab[..], heads) && InBuckets(b, fmap[..])
      invariant ftabCopy[..] == counts
      decreases n - h
    {
      var nNotDone;
      ghost var s0 := fmap[..];
      heads0 := heads;
      DepthFramed(b, s0, heads0, h);
      ghost var e := FillClasses(fmap, bhtab, eclass, n, h, b, heads0);
      nNotDone, heads := RefinePass(fmap, bhtab, eclass, n, b, heads0, e, h);
      PassDoubles(b, s0, heads0, fmap[..], heads, e, h);
      BucketsKept(b, s0, heads0, fmap[..], heads, e, h, n - 1);
      InPassFramed(b, s0, heads0, fmap[..], heads, e, h, n - 1);
      if nNotDone == 0 { AllRefinedHeads(b, s0, heads0, fmap[..], heads, e, h); }
      h := h * 2;
      if h > n || nNotDone == 0 { break; }
    }
    DepthSorts(b, fmap[..], heads, h);
    DepthFramed(b, fmap[..], heads, h);
    FramedPerm(b, fmap[..], heads);
    assert forall c :: 0 <= c < 256 ==> ftabCopy[c] == counts[c];
    RestoreBlock(fmap, eclass, n, ftabCopy, b);
  }

  lemma FramedPerm(b: seq<Byte>, s: seq<int>, heads: seq<bool>)
    requires Framed(b, s, heads)
    ensures IsPerm(s)
  {
  }

  /** The small-block branch of BZ2_blockSort: some entry is 0 and origPtr is its place. */
  method BlockSort(fmap: array<int>, arr2: array<Byte>, ftab: array<nat>, nblock: nat, ghost b: seq<Byte>)
    returns (origPtr: int)
    requires 1 <= nblock == fmap.Length && 4 * nblock <= arr2.Length && nblock / 32 + 3 <= ftab.Length
      && nblock < 0x10_0000 && b == arr2[..nblock]
    requires fmap as object != arr2 && ftab as object != arr2 && ftab as object != fmap
    modifies fmap, arr2, ftab
    ensures SortsRotations(b, fmap[..]) && arr2[..nblock] == b
    ensures 0 <= origPtr < nblock && fmap[origPtr] == 0
  {
    hide *;
    FallbackSort(fmap, arr2, ftab, nblock, b);
    ZeroListed(b, fmap[..]);
    origPtr := -1;
    var i := 0;
    while i < nblock
      invariant 0 <= i <= nblock && origPtr == -1 && forall k :: 0 <= k < i ==> fmap[k] != 0
    {
      if fmap[i] == 0 { origPtr := i; break; }
      i := i + 1;
    }
  }
}
