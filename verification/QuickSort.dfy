/**
 Sorting a range of rotations by their class (fallbackSimpleSort, fallbackQSort3):
 an insertion sort in two strides and a three-way quicksort on an explicit stack.
 */
module QuickSort {
  import opened Bits
  import opened Codes

  // ----- 32-bit words laid over bytes

  function Word4(s: seq<Byte>, k: nat): nat
    requires 4 * k + 3 < |s|
  {
    (s[4 * k] as int) + 0x100 * (s[4 * k + 1] as int) + 0x1_0000 * (s[4 * k + 2] as int)
      + 0x100_0000 * (s[4 * k + 3] as int)
  }

  // e is the class array seen through the bytes.
  ghost predicate ClassView(mem: seq<Byte>, e: seq<int>) {
    4 * |e| <= |mem| && forall k :: 0 <= k < |e| ==> Word4(mem, k) == e[k]
  }

  method Class(eclass: array<Byte>, k: nat, ghost e: seq<int>) returns (c: int)
    requires ClassView(eclass[..], e) && k < |e|
    ensures c == e[k]
  {
    c := (eclass[4 * k] as int) + 0x100 * (eclass[4 * k + 1] as int) + 0x1_0000 * (eclass[4 * k + 2] as int)
      + 0x100_0000 * (eclass[4 * k + 3] as int);
    assert c == Word4(eclass[..], k);
  }

  // ----- permuting a range

  predicate Indexes(s: seq<int>, n: nat) {
    forall k :: 0 <= k < |s| ==> 0 <= s[k] < n
  }

  // t is s with the elements of [lo, hi] rearranged.
  predicate Permuted(s: seq<int>, t: seq<int>, lo: int, hi: int) {
    && 0 <= lo <= hi + 1 <= |s| == |t|
    && s[..lo] == t[..lo] && s[hi + 1..] == t[hi + 1..]
    && multiset(s[lo..hi + 1]) == multiset(t[lo..hi + 1])
  }

  lemma PermutedTrans(s: seq<int>, t: seq<int>, u: seq<int>, lo: int, hi: int)
    requires Permuted(s, t, lo, hi) && Permuted(t, u, lo, hi)
    ensures Permuted(s, u, lo, hi)
  {
  }

  lemma PermutedSelf(s: seq<int>, lo: int, hi: int)
    requires 0 <= lo <= hi + 1 <= |s|
    ensures Permuted(s, s, lo, hi)
  {
  }

  function Swapped(s: seq<int>, i: int, j: int): seq<int>
    requires 0 <= i < |s| && 0 <= j < |s|
  {
    s[i := s[j]][j := s[i]]
  }

  lemma SwapMultiset(s: seq<int>, i: int, j: int)
    requires 0 <= i < |s| && 0 <= j < |s|
    ensures multiset(Swapped(s, i, j)) == multiset(s)
  {
  }

  lemma PermutedSwap(s: seq<int>, lo: int, hi: int, i: int, j: int)
    requires 0 <= lo <= i <= hi < |s| && lo <= j <= hi
    ensures Permuted(s, Swapped(s, i, j), lo, hi)
  {
    SwapMultiset(s[lo..hi + 1], i - lo, j - lo);
    assert Swapped(s, i, j)[lo..hi + 1] == Swapped(s[lo..hi + 1], i - lo, j - lo);
  }

  // Rearranging a part rearranges the whole.
  lemma PermutedWiden(s: seq<int>, t: seq<int>, lo: int, hi: int, a: int, b: int)
    requires Permuted(s, t, lo, hi) && 0 <= a <= lo && hi <= b && a <= b + 1 <= |s|
    ensures Permuted(s, t, a, b)
  {
    assert s[a..b + 1] == s[a..lo] + s[lo..hi + 1] + s[hi + 1..b + 1];
    assert t[a..b + 1] == t[a..lo] + t[lo..hi + 1] + t[hi + 1..b + 1];
    assert s[a..lo] == s[..lo][a..] && t[a..lo] == t[..lo][a..];
    assert s[hi + 1..b + 1] == s[hi + 1..][..b - hi] && t[hi + 1..b + 1] == t[hi + 1..][..b - hi];
    assert s[..a] == s[..lo][..a] && t[..a] == t[..lo][..a];
    assert s[b + 1..] == s[hi + 1..][b - hi..] && t[b + 1..] == t[hi + 1..][b - hi..];
  }

  // Every new element of the range was in the range before.
  lemma PermutedSource(s: seq<int>, t: seq<int>, lo: int, hi: int, k: int) returns (j: int)
    requires Permuted(s, t, lo, hi) && lo <= k <= hi
    ensures lo <= j <= hi && t[k] == s[j]
  {
    assert t[lo..hi + 1][k - lo] in multiset(t[lo..hi + 1]);
    assert t[k] in multiset(s[lo..hi + 1]);
    assert t[k] in s[lo..hi + 1];
    var i :| 0 <= i < |s[lo..hi + 1]| && s[lo..hi + 1][i] == t[k];
    j := lo + i;
  }

  lemma PermutedOutside(s: seq<int>, t: seq<int>, lo: int, hi: int, k: int)
    requires Permuted(s, t, lo, hi) && 0 <= k < |s| && (k < lo || hi < k)
    ensures t[k] == s[k]
  {
    if k < lo { assert s[..lo][k] == t[..lo][k]; } else { assert s[hi + 1..][k - hi - 1] == t[hi + 1..][k - hi - 1]; }
  }

  lemma PermutedIndexes(s: seq<int>, t: seq<int>, lo: int, hi: int, n: nat)
    requires Permuted(s, t, lo, hi) && Indexes(s, n)
    ensures Indexes(t, n)
  {
    hide Permuted;
    PermutedSizes(s, t, lo, hi);
    forall k | 0 <= k < |t|
      ensures 0 <= t[k] < n
    {
      if lo <= k <= hi {
        var j := PermutedSource(s, t, lo, hi, k);
      } else {
        PermutedOutside(s, t, lo, hi, k);
      }
    }
  }

  lemma PermutedSizes(s: seq<int>, t: seq<int>, lo: int, hi: int)
    requires Permuted(s, t, lo, hi)
    ensures 0 <= lo <= hi + 1 <= |s| == |t|
  {
  }

  // ----- insertion

  predicate Sorted(e: seq<int>, s: seq<int>, lo: int, hi: int)
    requires Indexes(s, |e|)
  {
    forall k :: 0 <= lo < k <= hi < |s| ==> e[s[k - 1]] <= e[s[k]]
  }

  // Sorted on [lo, hi] but for the element at h, which may have to go up.
  predicate SortedBut(e: seq<int>, s: seq<int>, lo: int, hi: int, h: int)
    requires Indexes(s, |e|)
  {
    && 0 <= lo <= h <= hi < |s|
    && (forall k :: lo < k <= hi && k != h + 1 ==> e[s[k - 1]] <= e[s[k]])
    && (lo < h < hi ==> e[s[h - 1]] <= e[s[h + 1]])
  }

  lemma SwapIndexes(s: seq<int>, i: int, j: int, n: nat)
    requires Indexes(s, n) && 0 <= i < |s| && 0 <= j < |s|
    ensures Indexes(Swapped(s, i, j), n)
  {
  }

  lemma SiftStep(e: seq<int>, s: seq<int>, lo: int, hi: int, h: int)
    requires Indexes(s, |e|) && SortedBut(e, s, lo, hi, h) && h < hi && e[s[h]] > e[s[h + 1]]
    ensures Indexes(Swapped(s, h, h + 1), |e|) && SortedBut(e, Swapped(s, h, h + 1), lo, hi, h + 1)
  {
  }

  lemma SiftDone(e: seq<int>, s: seq<int>, lo: int, hi: int, h: int)
    requires Indexes(s, |e|) && SortedBut(e, s, lo, hi, h) && (h < hi ==> e[s[h]] <= e[s[h + 1]])
    ensures Sorted(e, s, lo, hi)
  {
  }

  lemma SiftStart(e: seq<int>, s: seq<int>, i: int, hi: int)
    requires Indexes(s, |e|) && 0 <= i < hi < |s| && Sorted(e, s, i + 1, hi)
    ensures SortedBut(e, s, i, hi, i)
  {
  }

  // f is s rearranged, with the element being inserted at h.
  ghost predicate Sifting(s: seq<int>, f: seq<int>, e: seq<int>, lo: int, hi: int, h: int, track: bool) {
    && Indexes(f, |e|) && Permuted(s, f, lo, hi) && lo <= h <= hi && |f| == |s|
    && (track ==> SortedBut(e, f, lo, hi, h))
  }

  lemma SiftingStart(s: seq<int>, e: seq<int>, i: int, hi: int, track: bool)
    requires Indexes(s, |e|) && 0 <= i < hi < |s| && (track ==> Sorted(e, s, i + 1, hi))
    ensures Sifting(s, s, e, i, hi, i, track)
  {
    PermutedSelf(s, i, hi);
    if track { SiftStart(e, s, i, hi); }
  }

  lemma SiftingStep(s: seq<int>, f: seq<int>, e: seq<int>, lo: int, hi: int, h: int, j: int, track: bool)
    requires Sifting(s, f, e, lo, hi, h, track) && 0 <= lo && h < j <= hi < |s| && (track ==> j == h + 1)
    requires Indexes(f, |e|) && e[f[h]] > e[f[j]]
    ensures Sifting(s, Swapped(f, h, j), e, lo, hi, j, track)
  {
    hide Permuted, SortedBut;
    if track { SiftStep(e, f, lo, hi, h); }
    PermutedSwap(f, lo, hi, h, j);
    PermutedTrans(s, f, Swapped(f, h, j), lo, hi);
    SwapIndexes(f, h, j, |e|);
  }

  lemma SiftingDone(s: seq<int>, f: seq<int>, e: seq<int>, lo: int, hi: int, h: int, track: bool)
    requires Sifting(s, f, e, lo, hi, h, track) && Indexes(f, |e|) && hi < |f| && 0 <= lo
    requires track && h < hi ==> e[f[h]] <= e[f[h + 1]]
    ensures Permuted(s, f, lo, hi) && (track ==> Sorted(e, f, lo, hi))
  {
    hide Permuted, SortedBut, Sorted;
    if track { SiftDone(e, f, lo, hi, h); }
  }

  lemma SiftingFacts(s: seq<int>, f: seq<int>, e: seq<int>, lo: int, hi: int, h: int, track: bool)
    requires Sifting(s, f, e, lo, hi, h, track)
    ensures Indexes(f, |e|) && |f| == |s| && forall k :: 0 <= k < |f| ==> 0 <= f[k] < |e|
  {
  }

  lemma HoleMoves(cur: seq<int>, f: seq<int>, h: int, j: int, tmp: int)
    requires 0 <= h < |cur| && 0 <= j < |cur| && h != j && f == cur[h := tmp]
    ensures f[h] == tmp && f[j] == cur[j] && Swapped(f, h, j) == cur[h := cur[j]][j := tmp]
  {
  }

  // Take fmap[i] out and shift smaller ones down by the stride until it fits.
  method Insert(fmap: array<int>, eclass: array<Byte>, i: int, hi: int, stride: int, ghost e: seq<int>)
    requires Indexes(fmap[..], |e|) && ClassView(eclass[..], e)
    requires 0 <= i && 1 <= stride && i + stride <= hi < fmap.Length && fmap as object != eclass
    modifies fmap
    ensures Permuted(old(fmap[..]), fmap[..], i, hi) && Indexes(fmap[..], |e|)
    ensures stride == 1 && old(Sorted(e, fmap[..], i + 1, hi)) ==> Sorted(e, fmap[..], i, hi)
  {
    hide *;
    ghost var s := fmap[..];
    ghost var mem := eclass[..];
    IndexesFacts(s, |e|);
    var tmp := fmap[i];
    var ecTmp := Class(eclass, tmp, e);
    var j := i + stride;
    ghost var f := s;
    ghost var track := stride == 1 && Sorted(e, s, i + 1, hi);
    SiftingStart(s, e, i, hi, track);
    var c := Class(eclass, fmap[j], e);
    while j <= hi && ecTmp > c
      invariant i + stride <= j <= hi + stride && eclass[..] == mem
      invariant |f| == fmap.Length && f == fmap[..][j - stride := tmp]
      invariant Sifting(s, f, e, i, hi, j - stride, track)
      invariant j <= hi ==> 0 <= f[j] < |e| && c == e[f[j]]
    {
      SiftingFacts(s, f, e, i, hi, j - stride, track);
      HoleMoves(fmap[..], f, j - stride, j, tmp);
      SiftingStep(s, f, e, i, hi, j - stride, j, track);
      f := Swapped(f, j - stride, j);
      fmap[j - stride] := fmap[j];
      j := j + stride;
      if j <= hi {
        SiftingFacts(s, f, e, i, hi, j - stride, track);
        assert f[j] == fmap[j];
        c := Class(eclass, fmap[j], e);
      }
    }
    SiftingFacts(s, f, e, i, hi, j - stride, track);
    SiftingDone(s, f, e, i, hi, j - stride, track);
    fmap[j - stride] := tmp;
    assert fmap[..] == f;
  }

  lemma IndexesFacts(s: seq<int>, n: nat)
    requires Indexes(s, n)
    ensures forall k :: 0 <= k < |s| ==> 0 <= s[k] < n
  {
  }

  /** fallbackSimpleSort */
  method SimpleSort(fmap: array<int>, eclass: array<Byte>, lo: int, hi: int, ghost e: seq<int>)
    requires Indexes(fmap[..], |e|) && ClassView(eclass[..], e) && fmap as object != eclass
    requires 0 <= lo <= hi + 1 <= fmap.Length
    modifies fmap
    ensures Permuted(old(fmap[..]), fmap[..], lo, hi) && Indexes(fmap[..], |e|) && Sorted(e, fmap[..], lo, hi)
  {
    hide Permuted, ClassView;
    ghost var s := fmap[..];
    PermutedSelf(s, lo, hi);
    if lo == hi { return; }
    var i;
    if hi - lo > 3 {
      i := hi - 4;
      while i >= lo
        invariant lo - 1 <= i <= hi - 4 && Indexes(fmap[..], |e|) && Permuted(s, fmap[..], lo, hi)
        decreases i
      {
        i := StrideStep(fmap, eclass, i, lo, hi, 4, s, e);
      }
    }
    i := hi - 1;
    while i >= lo
      invariant (lo - 1 <= i || i == hi - 1) && i <= hi - 1 && Indexes(fmap[..], |e|) && Permuted(s, fmap[..], lo, hi)
      invariant Sorted(e, fmap[..], i + 1, hi)
      decreases i
    {
      i := StrideStep(fmap, eclass, i, lo, hi, 1, s, e);
    }
  }

  method StrideStep(fmap: array<int>, eclass: array<Byte>, i: int, lo: int, hi: int, stride: int, ghost s: seq<int>,
                    ghost e: seq<int>)
    returns (i': int)
    requires Indexes(fmap[..], |e|) && ClassView(eclass[..], e) && fmap as object != eclass
    requires 0 <= lo <= i && 1 <= stride && i + stride <= hi < fmap.Length && Permuted(s, fmap[..], lo, hi)
    modifies fmap
    ensures i' == i - 1 && Permuted(s, fmap[..], lo, hi) && Indexes(fmap[..], |e|)
    ensures stride == 1 && old(Sorted(e, fmap[..], i + 1, hi)) ==> Sorted(e, fmap[..], i, hi)
  {
    hide *;
    ghost var t := fmap[..];
    Insert(fmap, eclass, i, hi, stride, e);
    PermutedSizes(s, t, lo, hi);
    PermutedWiden(t, fmap[..], i, hi, lo, hi);
    PermutedTrans(s, t, fmap[..], lo, hi);
    i' := i - 1;
  }

  // ----- three-way partition

  predicate Below(e: seq<int>, s: seq<int>, a: int, b: int, med: int)
    requires Indexes(s, |e|)
  {
    0 <= a && b <= |s| && forall k :: a <= k < b ==> e[s[k]] < med
  }

  predicate Equal(e: seq<int>, s: seq<int>, a: int, b: int, med: int)
    requires Indexes(s, |e|)
  {
    0 <= a && b <= |s| && forall k :: a <= k < b ==> e[s[k]] == med
  }

  predicate Above(e: seq<int>, s: seq<int>, a: int, b: int, med: int)
    requires Indexes(s, |e|)
  {
    0 <= a && b <= |s| && forall k :: a <= k < b ==> e[s[k]] > med
  }

  // Equal, below, not yet seen, above, equal.
  datatype Cuts = Cuts(ltLo: int, unLo: int, unHi: int, gtHi: int)

  ghost predicate Parted(s0: seq<int>, s: seq<int>, e: seq<int>, lo: int, hi: int, p: Cuts, med: int) {
    && Indexes(s, |e|) && Permuted(s0, s, lo, hi) && |s| == |s0|
    && 0 <= lo <= p.ltLo <= p.unLo <= p.unHi + 1 && p.unHi <= p.gtHi <= hi < |s|
    && Equal(e, s, lo, p.ltLo, med) && Below(e, s, p.ltLo, p.unLo, med)
    && Above(e, s, p.unHi + 1, p.gtHi + 1, med) && Equal(e, s, p.gtHi + 1, hi + 1, med)
  }

  lemma PartedFacts(s0: seq<int>, s: seq<int>, e: seq<int>, lo: int, hi: int, p: Cuts, med: int)
    requires Parted(s0, s, e, lo, hi, p, med)
    ensures Indexes(s, |e|) && |s| == |s0| && forall k :: 0 <= k < |s| ==> 0 <= s[k] < |e|
    ensures 0 <= lo <= p.ltLo <= p.unLo <= p.unHi + 1 && p.unHi <= p.gtHi <= hi < |s|
  {
  }

  lemma PartedStart(s: seq<int>, e: seq<int>, lo: int, hi: int, med: int)
    requires Indexes(s, |e|) && 0 <= lo <= hi < |s|
    ensures Parted(s, s, e, lo, hi, Cuts(lo, lo, hi, hi), med)
  {
  }

  lemma PartEqualLow(s0: seq<int>, s: seq<int>, e: seq<int>, lo: int, hi: int, p: Cuts, med: int)
    requires Parted(s0, s, e, lo, hi, p, med) && p.unLo <= p.unHi && Indexes(s, |e|) && e[s[p.unLo]] == med
    ensures Parted(s0, Swapped(s, p.unLo, p.ltLo), e, lo, hi, p.(ltLo := p.ltLo + 1, unLo := p.unLo + 1), med)
  {
    hide Permuted;
    var t := Swapped(s, p.unLo, p.ltLo);
    PermutedSwap(s, lo, hi, p.unLo, p.ltLo);
    PermutedTrans(s0, s, t, lo, hi);
    SwapIndexes(s, p.unLo, p.ltLo, |e|);
  }

  lemma PartEqualHigh(s0: seq<int>, s: seq<int>, e: seq<int>, lo: int, hi: int, p: Cuts, med: int)
    requires Parted(s0, s, e, lo, hi, p, med) && p.unLo <= p.unHi && Indexes(s, |e|) && e[s[p.unHi]] == med
    ensures Parted(s0, Swapped(s, p.unHi, p.gtHi), e, lo, hi, p.(gtHi := p.gtHi - 1, unHi := p.unHi - 1), med)
  {
    hide Permuted;
    var t := Swapped(s, p.unHi, p.gtHi);
    PermutedSwap(s, lo, hi, p.unHi, p.gtHi);
    PermutedTrans(s0, s, t, lo, hi);
    SwapIndexes(s, p.unHi, p.gtHi, |e|);
  }

  lemma PartBelow(s0: seq<int>, s: seq<int>, e: seq<int>, lo: int, hi: int, p: Cuts, med: int)
    requires Parted(s0, s, e, lo, hi, p, med) && p.unLo <= p.unHi && Indexes(s, |e|) && e[s[p.unLo]] < med
    ensures Parted(s0, s, e, lo, hi, p.(unLo := p.unLo + 1), med)
  {
    hide Permuted;
  }

  lemma PartAbove(s0: seq<int>, s: seq<int>, e: seq<int>, lo: int, hi: int, p: Cuts, med: int)
    requires Parted(s0, s, e, lo, hi, p, med) && p.unLo <= p.unHi && Indexes(s, |e|) && e[s[p.unHi]] > med
    ensures Parted(s0, s, e, lo, hi, p.(unHi := p.unHi - 1), med)
  {
    hide Permuted;
  }

  lemma PartCross(s0: seq<int>, s: seq<int>, e: seq<int>, lo: int, hi: int, p: Cuts, med: int)
    requires Parted(s0, s, e, lo, hi, p, med) && p.unLo < p.unHi && Indexes(s, |e|)
    requires e[s[p.unLo]] > med && e[s[p.unHi]] < med
    ensures Parted(s0, Swapped(s, p.unLo, p.unHi), e, lo, hi, p.(unLo := p.unLo + 1, unHi := p.unHi - 1), med)
  {
    hide Permuted;
    var t := Swapped(s, p.unLo, p.unHi);
    PermutedSwap(s, lo, hi, p.unLo, p.unHi);
    PermutedTrans(s0, s, t, lo, hi);
    SwapIndexes(s, p.unLo, p.unHi, |e|);
  }

  // fswap
  method Swap(fmap: array<int>, i: int, j: int)
    requires 0 <= i < fmap.Length && 0 <= j < fmap.Length
    modifies fmap
    ensures fmap[..] == Swapped(old(fmap[..]), i, j)
  {
    fmap[i], fmap[j] := fmap[j], fmap[i];
  }

  // The upward scan.
  method ScanUp(fmap: array<int>, eclass: array<Byte>, lo: int, hi: int, p0: Cuts, med: int, ghost s0: seq<int>,
                ghost e: seq<int>)
    returns (p: Cuts)
    requires ClassView(eclass[..], e) && fmap as object != eclass && Parted(s0, fmap[..], e, lo, hi, p0, med)
    modifies fmap
    ensures Parted(s0, fmap[..], e, lo, hi, p, med) && p.unHi == p0.unHi && p0.unLo <= p.unLo
    ensures p.unLo <= p.unHi ==> 0 <= p.unLo < fmap.Length && 0 <= fmap[p.unLo] < |e| && e[fmap[p.unLo]] > med
  {
    hide *;
    p := p0;
    PartedFacts(s0, fmap[..], e, lo, hi, p, med);
    while p.unLo <= p.unHi
      invariant Parted(s0, fmap[..], e, lo, hi, p, med) && p.unHi == p0.unHi && p0.unLo <= p.unLo
      decreases p.unHi - p.unLo
    {
      PartedFacts(s0, fmap[..], e, lo, hi, p, med);
      var c := Class(eclass, fmap[p.unLo], e);
      var n := c - med;
      if n == 0 {
        PartEqualLow(s0, fmap[..], e, lo, hi, p, med);
        Swap(fmap, p.unLo, p.ltLo);
        p := p.(ltLo := p.ltLo + 1, unLo := p.unLo + 1);
        continue;
      }
      if n > 0 { break; }
      PartBelow(s0, fmap[..], e, lo, hi, p, med);
      p := p.(unLo := p.unLo + 1);
    }
  }

  // The downward scan.
  method ScanDown(fmap: array<int>, eclass: array<Byte>, lo: int, hi: int, p0: Cuts, med: int, ghost s0: seq<int>,
                  ghost e: seq<int>)
    returns (p: Cuts)
    requires ClassView(eclass[..], e) && fmap as object != eclass && Parted(s0, fmap[..], e, lo, hi, p0, med)
    requires p0.unLo <= p0.unHi ==> 0 <= p0.unLo < fmap.Length && 0 <= fmap[p0.unLo] < |e| && e[fmap[p0.unLo]] > med
    modifies fmap
    ensures Parted(s0, fmap[..], e, lo, hi, p, med) && p.unLo == p0.unLo && p.unHi <= p0.unHi
    ensures p.unLo <= p.unHi ==>
      p.unLo < p.unHi < fmap.Length && 0 <= p.unLo && 0 <= fmap[p.unLo] < |e| && 0 <= fmap[p.unHi] < |e|
    ensures p.unLo <= p.unHi ==> e[fmap[p.unLo]] > med && e[fmap[p.unHi]] < med
  {
    hide *;
    p := p0;
    PartedFacts(s0, fmap[..], e, lo, hi, p, med);
    while p.unLo <= p.unHi
      invariant Parted(s0, fmap[..], e, lo, hi, p, med) && p.unLo == p0.unLo && p.unHi <= p0.unHi
      invariant p.unLo <= p.unHi ==> 0 <= p.unLo < fmap.Length && 0 <= fmap[p.unLo] < |e| && e[fmap[p.unLo]] > med
      decreases p.unHi - p.unLo
    {
      PartedFacts(s0, fmap[..], e, lo, hi, p, med);
      var c := Class(eclass, fmap[p.unHi], e);
      var n := c - med;
      if n == 0 {
        PartEqualHigh(s0, fmap[..], e, lo, hi, p, med);
        SwapKeeps(fmap[..], p.unHi, p.gtHi, p.unLo);
        Swap(fmap, p.unHi, p.gtHi);
        p := p.(gtHi := p.gtHi - 1, unHi := p.unHi - 1);
        continue;
      }
      if n < 0 { break; }
      PartAbove(s0, fmap[..], e, lo, hi, p, med);
      p := p.(unHi := p.unHi - 1);
    }
    if p.unLo <= p.unHi { PartedFacts(s0, fmap[..], e, lo, hi, p, med); }
  }

  lemma SwapKeeps(s: seq<int>, i: int, j: int, k: int)
    requires 0 <= i < |s| && 0 <= j < |s| && 0 <= k < |s|
    ensures k != i && k != j ==> Swapped(s, i, j)[k] == s[k]
  {
  }

  // The partition loop.
  method Partition(fmap: array<int>, eclass: array<Byte>, lo: int, hi: int, med: int, ghost e: seq<int>)
    returns (p: Cuts)
    requires ClassView(eclass[..], e) && fmap as object != eclass && Indexes(fmap[..], |e|)
      && 0 <= lo <= hi < fmap.Length
    modifies fmap
    ensures Parted(old(fmap[..]), fmap[..], e, lo, hi, p, med) && p.unHi == p.unLo - 1
  {
    hide *;
    ghost var s0 := fmap[..];
    p := Cuts(lo, lo, hi, hi);
    PartedStart(s0, e, lo, hi, med);
    while true
      invariant Parted(s0, fmap[..], e, lo, hi, p, med)
      decreases p.unHi - p.unLo
    {
      ghost var p0 := p;
      p := ScanUp(fmap, eclass, lo, hi, p, med, s0, e);
      p := ScanDown(fmap, eclass, lo, hi, p, med, s0, e);
      PartedFacts(s0, fmap[..], e, lo, hi, p, med);
      if p.unLo > p.unHi { break; }
      PartCross(s0, fmap[..], e, lo, hi, p, med);
      Swap(fmap, p.unLo, p.unHi);
      p := p.(unLo := p.unLo + 1, unHi := p.unHi - 1);
      PartedFacts(s0, fmap[..], e, lo, hi, p, med);
    }
  }

  // ----- bringing the equal elements to the middle

  function VSwapped(s: seq<int>, p1: int, p2: int, n: nat): (t: seq<int>)
    requires 0 <= p1 && 0 <= p2 && p1 + n <= |s| && p2 + n <= |s|
    ensures |t| == |s|
    decreases n
  {
    if n == 0 then s else VSwapped(Swapped(s, p1, p2), p1 + 1, p2 + 1, n - 1)
  }

  lemma {:induction false} VSwapAt(s: seq<int>, p1: int, p2: int, n: nat, k: int)
    requires 0 <= p1 && p1 + n <= p2 && p2 + n <= |s| && 0 <= k < |s|
    ensures VSwapped(s, p1, p2, n)[k]
      == (if p1 <= k < p1 + n then s[k - p1 + p2] else if p2 <= k < p2 + n then s[k - p2 + p1] else s[k])
    decreases n
  {
    if n != 0 {
      VSwapAt(Swapped(s, p1, p2), p1 + 1, p2 + 1, n - 1, k);
    }
  }

  lemma {:induction false} VSwapPermuted(s: seq<int>, p1: int, p2: int, n: nat, lo: int, hi: int)
    requires 0 <= lo <= p1 && lo <= p2 && p1 + n <= hi + 1 && p2 + n <= hi + 1 <= |s|
    ensures Permuted(s, VSwapped(s, p1, p2, n), lo, hi)
    decreases n
  {
    hide Permuted;
    if n == 0 {
      PermutedSelf(s, lo, hi);
    } else {
      PermutedSwap(s, lo, hi, p1, p2);
      VSwapPermuted(Swapped(s, p1, p2), p1 + 1, p2 + 1, n - 1, lo, hi);
      PermutedTrans(s, Swapped(s, p1, p2), VSwapped(s, p1, p2, n), lo, hi);
    }
  }

  // fvswap
  method VSwap(fmap: array<int>, p1: int, p2: int, n: int)
    requires 0 <= p1 && 0 <= p2 && 0 <= n && p1 + n <= fmap.Length && p2 + n <= fmap.Length
    modifies fmap
    ensures fmap[..] == VSwapped(old(fmap[..]), p1, p2, n)
  {
    var y1, y2, yn := p1, p2, n;
    while yn > 0
      invariant 0 <= yn && y1 == p1 + (n - yn) && y2 == p2 + (n - yn) && yn <= n
      invariant VSwapped(fmap[..], y1, y2, yn) == VSwapped(old(fmap[..]), p1, p2, n)
    {
      Swap(fmap, y1, y2);
      y1, y2, yn := y1 + 1, y2 + 1, yn - 1;
    }
  }

  // Two neighbouring blocks of a and b elements change places (up to order within).
  lemma ExchangeAt(s: seq<int>, x: int, a: nat, b: nat, n: nat, k: int) returns (j: int)
    requires 0 <= x && x + a + b <= |s| && n == (if a < b then a else b) && 0 <= k < |s|
    ensures 0 <= j < |s| && VSwapped(s, x, x + a + b - n, n)[k] == s[j]
    ensures x <= k < x + b ==> x + a <= j < x + a + b
    ensures x + b <= k < x + a + b ==> x <= j < x + a
    ensures !(x <= k < x + a + b) ==> j == k
  {
    VSwapAt(s, x, x + a + b - n, n, k);
    var p2 := x + a + b - n;
    j := if x <= k < x + n then k - x + p2 else if p2 <= k < p2 + n then k - p2 + x else k;
  }

  // Below, equal, above, equal.
  ghost predicate HalfGathered(s0: seq<int>, s: seq<int>, e: seq<int>, lo: int, hi: int, p: Cuts, med: int) {
    && Indexes(s, |e|) && Permuted(s0, s, lo, hi) && |s| == |s0|
    && 0 <= lo <= p.ltLo <= p.unLo && p.unLo - 1 <= p.gtHi <= hi < |s|
    && Below(e, s, lo, lo + p.unLo - p.ltLo, med) && Equal(e, s, lo + p.unLo - p.ltLo, p.unLo, med)
    && Above(e, s, p.unLo, p.gtHi + 1, med) && Equal(e, s, p.gtHi + 1, hi + 1, med)
  }

  // Below lo .. n, equal between, above m .. hi.
  ghost predicate Gathered(s0: seq<int>, s: seq<int>, e: seq<int>, lo: int, hi: int, n: int, m: int, med: int) {
    && Indexes(s, |e|) && Permuted(s0, s, lo, hi) && |s| == |s0|
    && 0 <= lo <= n + 1 <= m <= hi + 1 <= |s|
    && Below(e, s, lo, n + 1, med) && Equal(e, s, n + 1, m, med) && Above(e, s, m, hi + 1, med)
  }

  function Min(a: int, b: int): int { if a < b then a else b }

  lemma GatherLow(s0: seq<int>, s: seq<int>, e: seq<int>, lo: int, hi: int, p: Cuts, med: int)
    requires Parted(s0, s, e, lo, hi, p, med) && p.unHi == p.unLo - 1
    ensures var n := Min(p.ltLo - lo, p.unLo - p.ltLo);
      0 <= n && 0 <= lo && p.unLo <= |s| && HalfGathered(s0, VSwapped(s, lo, p.unLo - n, n), e, lo, hi, p, med)
  {
    hide VSwapped, Permuted;
    var a, b := p.ltLo - lo, p.unLo - p.ltLo;
    var n := Min(a, b);
    var t := VSwapped(s, lo, p.unLo - n, n);
    VSwapPermuted(s, lo, p.unLo - n, n, lo, hi);
    PermutedTrans(s0, s, t, lo, hi);
    PermutedIndexes(s, t, lo, hi, |e|);
    forall k | lo <= k < hi + 1
      ensures k < lo + b ==> e[t[k]] < med
      ensures lo + b <= k < p.unLo ==> e[t[k]] == med
      ensures p.unLo <= k <= p.gtHi ==> e[t[k]] > med
      ensures p.gtHi < k ==> e[t[k]] == med
    {
      var j := ExchangeAt(s, lo, a, b, n, k);
    }
  }

  lemma GatherHigh(s0: seq<int>, s: seq<int>, e: seq<int>, lo: int, hi: int, p: Cuts, med: int)
    requires HalfGathered(s0, s, e, lo, hi, p, med) && p.unHi == p.unLo - 1
    ensures var m := Min(hi - p.gtHi, p.gtHi - p.unHi);
      && 0 <= m && 0 <= p.unLo && p.unLo + m <= |s| && 0 <= hi - m + 1 && hi + 1 <= |s|
      && Gathered(s0, VSwapped(s, p.unLo, hi - m + 1, m), e, lo, hi, lo + p.unLo - p.ltLo - 1,
                  hi - (p.gtHi - p.unHi) + 1, med)
  {
    hide VSwapped, Permuted;
    var a, b := p.gtHi - p.unHi, hi - p.gtHi;
    var m := Min(b, a);
    var t := VSwapped(s, p.unLo, hi - m + 1, m);
    VSwapPermuted(s, p.unLo, hi - m + 1, m, lo, hi);
    PermutedTrans(s0, s, t, lo, hi);
    PermutedIndexes(s, t, lo, hi, |e|);
    forall k | lo <= k < hi + 1
      ensures k < lo + p.unLo - p.ltLo ==> e[t[k]] < med
      ensures lo + p.unLo - p.ltLo <= k < hi - a + 1 ==> e[t[k]] == med
      ensures hi - a + 1 <= k ==> e[t[k]] > med
    {
      var j := ExchangeAt(s, p.unLo, a, b, m, k);
    }
  }

  // ----- the stack of ranges still to be sorted

  ghost predicate InOne(r: (int, int), x: int, y: int) {
    r.0 <= x && y <= r.1
  }

  ghost predicate SameRange(st: seq<(int, int)>, x: int, y: int) {
    exists t :: 0 <= t < |st| && InOne(st[t], x, y)
  }

  ghost predicate Ordered(e: seq<int>, s: seq<int>, x: int, y: int)
    requires Indexes(s, |e|)
  {
    0 <= x < |s| && 0 <= y < |s| && e[s[x]] <= e[s[y]]
  }

  // On [lo, hi] everything is in order except within one range.
  ghost predicate Apart(e: seq<int>, s: seq<int>, lo: int, hi: int, st: seq<(int, int)>)
    requires Indexes(s, |e|)
  {
    forall x, y {:trigger Ordered(e, s, x, y)} :: lo <= x < y <= hi ==> Ordered(e, s, x, y) || SameRange(st, x, y)
  }

  // Ranges inside [lo, hi], no position in two of them.
  ghost predicate Ranges(st: seq<(int, int)>, lo: int, hi: int) {
    && (forall t :: 0 <= t < |st| ==> lo <= st[t].0 <= st[t].1 + 1 <= hi + 1)
    && (forall t, u :: 0 <= t < u < |st| ==> st[t].1 < st[u].0 || st[u].1 < st[t].0)
  }

  // Sorting range r of st down to the ranges extra.
  lemma ApartRefined(e: seq<int>, s: seq<int>, s': seq<int>, lo: int, hi: int, st0: seq<(int, int)>, r: (int, int),
                     extra: seq<(int, int)>)
    requires Indexes(s, |e|) && Indexes(s', |e|) && 0 <= lo && hi < |s| == |s'|
    requires Ranges(st0 + [r], lo, hi) && Apart(e, s, lo, hi, st0 + [r]) && Permuted(s, s', r.0, r.1)
    requires Apart(e, s', r.0, r.1, extra)
    ensures Apart(e, s', lo, hi, st0 + extra)
  {
    hide Permuted;
    forall x, y {:trigger Ordered(e, s', x, y)} | lo <= x < y <= hi
      ensures Ordered(e, s', x, y) || SameRange(st0 + extra, x, y)
    {
      PairRefined(e, s, s', lo, hi, st0, r, extra, x, y);
    }
  }

  // Where the element now at k was.
  lemma Origin(s: seq<int>, s': seq<int>, r: (int, int), k: int) returns (j: int)
    requires Permuted(s, s', r.0, r.1) && 0 <= k < |s|
    ensures |s| == |s'| && 0 <= j < |s| && s'[k] == s[j]
    ensures if r.0 <= k <= r.1 then r.0 <= j <= r.1 else j == k
  {
    hide Permuted;
    PermutedSizes(s, s', r.0, r.1);
    if r.0 <= k <= r.1 {
      j := PermutedSource(s, s', r.0, r.1, k);
    } else {
      PermutedOutside(s, s', r.0, r.1, k);
      j := k;
    }
  }

  lemma PairRefined(e: seq<int>, s: seq<int>, s': seq<int>, lo: int, hi: int, st0: seq<(int, int)>, r: (int, int),
                    extra: seq<(int, int)>, x: int, y: int)
    requires Indexes(s, |e|) && Indexes(s', |e|) && 0 <= lo && hi < |s| == |s'|
    requires Ranges(st0 + [r], lo, hi) && Apart(e, s, lo, hi, st0 + [r]) && Permuted(s, s', r.0, r.1)
    requires Apart(e, s', r.0, r.1, extra) && lo <= x < y <= hi
    ensures Ordered(e, s', x, y) || SameRange(st0 + extra, x, y)
  {
    hide Permuted;
    if r.0 <= x && y <= r.1 {
      assert Ordered(e, s', x, y) || SameRange(extra, x, y);
      if SameRange(extra, x, y) {
        var t :| 0 <= t < |extra| && InOne(extra[t], x, y);
        assert InOne((st0 + extra)[|st0| + t], x, y);
      }
    } else {
      var i := Origin(s, s', r, x);
      var j := Origin(s, s', r, y);
      assert i < j;
      assert Ordered(e, s, i, j) || SameRange(st0 + [r], i, j);
      if SameRange(st0 + [r], i, j) {
        var t :| 0 <= t < |st0 + [r]| && InOne((st0 + [r])[t], i, j);
        assert (st0 + [r])[|st0|] == r;
        assert t < |st0|;
        assert i == x && j == y;
        assert InOne((st0 + extra)[t], x, y);
      }
    }
  }

  lemma GatheredApart(s0: seq<int>, s: seq<int>, e: seq<int>, lo: int, hi: int, n: int, m: int, med: int,
                      extra: seq<(int, int)>)
    requires Gathered(s0, s, e, lo, hi, n, m, med) && Indexes(s, |e|)
    requires extra == [(lo, n), (m, hi)] || extra == [(m, hi), (lo, n)]
    ensures Apart(e, s, lo, hi, extra)
  {
    hide Permuted;
    forall x, y {:trigger Ordered(e, s, x, y)} | lo <= x < y <= hi
      ensures Ordered(e, s, x, y) || SameRange(extra, x, y)
    {
      if y <= n { assert InOne((lo, n), x, y); assert InOne(extra[0], x, y) || InOne(extra[1], x, y); }
      if m <= x { assert InOne((m, hi), x, y); assert InOne(extra[0], x, y) || InOne(extra[1], x, y); }
    }
  }

  lemma {:induction false} SortedPair(e: seq<int>, s: seq<int>, lo: int, hi: int, x: int, y: int)
    requires Indexes(s, |e|) && 0 <= lo <= x <= y <= hi < |s| && Sorted(e, s, lo, hi)
    ensures e[s[x]] <= e[s[y]]
    decreases y - x
  {
    if x < y { SortedPair(e, s, lo, hi, x, y - 1); }
  }

  lemma SortedApart(e: seq<int>, s: seq<int>, lo: int, hi: int)
    requires Indexes(s, |e|) && 0 <= lo && hi < |s| && Sorted(e, s, lo, hi)
    ensures Apart(e, s, lo, hi, [])
  {
    hide Sorted;
    forall x, y {:trigger Ordered(e, s, x, y)} | lo <= x < y <= hi
      ensures Ordered(e, s, x, y)
    {
      SortedPair(e, s, lo, hi, x, y);
    }
  }

  lemma AllEqualApart(s0: seq<int>, s: seq<int>, e: seq<int>, lo: int, hi: int, p: Cuts, med: int)
    requires Parted(s0, s, e, lo, hi, p, med) && p.unHi == p.unLo - 1 && p.gtHi < p.ltLo && Indexes(s, |e|)
    ensures Apart(e, s, lo, hi, []) && Permuted(s0, s, lo, hi)
  {
    hide Permuted;
    forall x, y {:trigger Ordered(e, s, x, y)} | lo <= x < y <= hi
      ensures Ordered(e, s, x, y)
    {
    }
  }

  lemma ApartSorted(e: seq<int>, s: seq<int>, lo: int, hi: int)
    requires Indexes(s, |e|) && 0 <= lo && hi < |s| && Apart(e, s, lo, hi, [])
    ensures Sorted(e, s, lo, hi)
  {
    forall k | 0 <= lo < k <= hi < |s|
      ensures e[s[k - 1]] <= e[s[k]]
    {
      assert Ordered(e, s, k - 1, k);
    }
  }

  function Size(r: (int, int)): nat {
    if r.1 + 1 < r.0 then 0 else r.1 + 1 - r.0
  }

  function Total(st: seq<(int, int)>): nat
    decreases |st|
  {
    if st == [] then 0 else Total(st[..|st| - 1]) + Size(st[|st| - 1])
  }

  lemma TotalSnoc(st: seq<(int, int)>, r: (int, int))
    ensures Total(st + [r]) == Total(st) + Size(r)
  {
    assert (st + [r])[..|st|] == st;
  }

  // A range t places above the bottom is at most 2^-t of the whole.
  ghost predicate Halving(st: seq<(int, int)>, n: nat) {
    && (forall t :: 0 <= t < |st| ==> Shl(Size(st[t]), t) <= n)
    && (2 <= |st| ==> Shl(1, |st| - 2) <= n)
  }

  predicate StackIs(lows: seq<int>, highs: seq<int>, st: seq<(int, int)>) {
    && |lows| == |highs| == 100 && |st| <= 100
    && forall t :: 0 <= t < |st| ==> lows[t] == st[t].0 && highs[t] == st[t].1
  }

  lemma HalvingAt(st: seq<(int, int)>, n: nat, t: nat)
    requires Halving(st, n) && t < |st|
    ensures Shl(Size(st[t]), t) <= n
  {
  }

  lemma HalvingLast(st: seq<(int, int)>, n: nat)
    requires Halving(st, n) && 2 <= |st|
    ensures Shl(1, |st| - 2) <= n
  {
  }

  lemma HalvingPop(st: seq<(int, int)>, r: (int, int), n: nat)
    requires Halving(st + [r], n)
    ensures Halving(st, n) && Shl(Size(r), |st|) <= n
  {
    hide *;
    forall t | 0 <= t < |st|
      ensures Shl(Size(st[t]), t) <= n
    {
      HalvingAt(st + [r], n, t);
    }
    HalvingAt(st + [r], n, |st|);
    if 2 <= |st| {
      HalvingLast(st + [r], n);
      ShlGrows(1, |st| - 2);
    }
    HalvingWhole(st, n);
  }

  lemma HalvingWhole(st: seq<(int, int)>, n: nat)
    requires forall t :: 0 <= t < |st| ==> Shl(Size(st[t]), t) <= n
    requires 2 <= |st| ==> Shl(1, |st| - 2) <= n
    ensures Halving(st, n)
  {
    hide Shl, Size;
  }

  lemma ShlGrows(a: nat, m: nat)
    ensures Shl(a, m) <= Shl(a, m + 1)
  {
    assert Shl(a, m + 1) == 2 * Shl(a, m);
  }

  // The larger part keeps the place of the range, the smaller goes one up.
  lemma HalvingPush(st: seq<(int, int)>, r: (int, int), big: (int, int), small: (int, int), n: nat)
    requires Halving(st, n) && Shl(Size(r), |st|) <= n && 1 <= Size(r)
    requires Size(big) + Size(small) <= Size(r) && Size(small) <= Size(big)
    ensures Halving(st + [big] + [small], n)
  {
    hide Shl;
    var k := |st|;
    ShlMono(Size(big), Size(r), k);
    ShlMono(2 * Size(small), Size(r), k);
    ShlMono(1, Size(r), k);
    ShlTwice(Size(small), k);
    var st' := st + [big] + [small];
    forall t | 0 <= t < |st'|
      ensures Shl(Size(st'[t]), t) <= n
    {
      if t < k { assert st'[t] == st[t]; }
    }
  }

  /** The stack holds at most 21 ranges: it never comes near its 100 slots. */
  lemma StackBound(st: seq<(int, int)>, n: nat)
    requires Halving(st, n) && n < 0x10_0000
    ensures |st| <= 21
  {
    if |st| > 21 {
      hide *;
      HalvingLast(st, n);
      ShlTwenty(|st| - 2);
    }
  }

  lemma {:induction false} ShlTwenty(m: nat)
    requires 20 <= m
    ensures 0x10_0000 <= Shl(1, m)
    decreases m
  {
    if m == 20 {
      ShlIsMul(1, 20);
      assert Pow2(20) == 0x10_0000 by { Pow2Add(8, 8); Pow2Add(16, 4); assert Pow2(8) == 256; assert Pow2(4) == 16; }
    } else {
      ShlTwenty(m - 1);
    }
  }

  lemma PermutedSym(s: seq<int>, t: seq<int>, lo: int, hi: int)
    requires Permuted(s, t, lo, hi)
    ensures Permuted(t, s, lo, hi)
  {
  }

  // The pivot is somewhere in the middle part.
  lemma PivotStays(s0: seq<int>, s: seq<int>, e: seq<int>, lo: int, hi: int, n: int, m: int, med: int, k: int)
    requires Gathered(s0, s, e, lo, hi, n, m, med) && Indexes(s0, |e|) && lo <= k <= hi && e[s0[k]] == med
    ensures n + 1 < m
  {
    hide Permuted;
    PermutedSym(s0, s, lo, hi);
    var j := PermutedSource(s, s0, lo, hi, k);
  }

  // Partition a range; either it is all one class or it falls into two parts around the pivot.
  method Split(fmap: array<int>, eclass: array<Byte>, lo: int, hi: int, med: int, ghost k: int, ghost e: seq<int>)
    returns (split: bool, n: int, m: int)
    requires ClassView(eclass[..], e) && fmap as object != eclass && Indexes(fmap[..], |e|)
    requires 0 <= lo <= k <= hi < fmap.Length && e[fmap[k]] == med
    modifies fmap
    ensures Indexes(fmap[..], |e|) && Permuted(old(fmap[..]), fmap[..], lo, hi)
    ensures !split ==> Apart(e, fmap[..], lo, hi, [])
    ensures split ==> Gathered(old(fmap[..]), fmap[..], e, lo, hi, n, m, med) && lo <= n + 1 < m <= hi + 1
  {
    hide *;
    ghost var s0 := fmap[..];
    var p := Partition(fmap, eclass, lo, hi, med, e);
    PartedFacts(s0, fmap[..], e, lo, hi, p, med);
    if p.gtHi < p.ltLo {
      AllEqualApart(s0, fmap[..], e, lo, hi, p, med);
      return false, 0, 0;
    }
    GatherLow(s0, fmap[..], e, lo, hi, p, med);
    MinIs(p.ltLo - lo, p.unLo - p.ltLo);
    n := Min(p.ltLo - lo, p.unLo - p.ltLo);
    VSwap(fmap, lo, p.unLo - n, n);
    GatherHigh(s0, fmap[..], e, lo, hi, p, med);
    MinIs(hi - p.gtHi, p.gtHi - p.unHi);
    m := Min(hi - p.gtHi, p.gtHi - p.unHi);
    VSwap(fmap, p.unLo, hi - m + 1, m);
    n := lo + p.unLo - p.ltLo - 1;
    m := hi - (p.gtHi - p.unHi) + 1;
    GatheredFacts(s0, fmap[..], e, lo, hi, n, m, med);
    PivotStays(s0, fmap[..], e, lo, hi, n, m, med, k);
    split := true;
  }

  lemma MinIs(a: int, b: int)
    ensures Min(a, b) <= a && Min(a, b) <= b && (Min(a, b) == a || Min(a, b) == b)
  {
  }

  lemma GatheredFacts(s0: seq<int>, s: seq<int>, e: seq<int>, lo: int, hi: int, n: int, m: int, med: int)
    requires Gathered(s0, s, e, lo, hi, n, m, med)
    ensures Indexes(s, |e|) && Permuted(s0, s, lo, hi) && 0 <= lo <= n + 1 <= m <= hi + 1 <= |s| == |s0|
  {
  }

  // Everything known between two rounds of fallbackQSort3.
  ghost predicate Sorting(s0: seq<int>, s: seq<int>, e: seq<int>, lo: int, hi: int, st: seq<(int, int)>) {
    && Indexes(s, |e|) && |s| == |s0| && 0 <= lo <= hi < |s| && Permuted(s0, s, lo, hi)
    && Ranges(st, lo, hi) && Apart(e, s, lo, hi, st) && Halving(st, hi - lo + 1)
  }

  lemma SortingStart(s: seq<int>, e: seq<int>, lo: int, hi: int)
    requires Indexes(s, |e|) && 0 <= lo <= hi < |s|
    ensures Sorting(s, s, e, lo, hi, [(lo, hi)])
  {
    PermutedSelf(s, lo, hi);
    assert Shl(Size((lo, hi)), 0) == hi - lo + 1;
    forall x, y {:trigger Ordered(e, s, x, y)} | lo <= x < y <= hi
      ensures Ordered(e, s, x, y) || SameRange([(lo, hi)], x, y)
    {
      assert InOne([(lo, hi)][0], x, y);
    }
  }

  lemma SortingTop(s0: seq<int>, s: seq<int>, e: seq<int>, lo: int, hi: int, st: seq<(int, int)>, r: (int, int))
    requires Sorting(s0, s, e, lo, hi, st + [r])
    ensures Indexes(s, |e|) && (forall k :: 0 <= k < |s| ==> 0 <= s[k] < |e|)
      && 0 <= lo <= r.0 <= r.1 + 1 <= hi + 1 <= |s| == |s0|
  {
    assert (st + [r])[|st|] == r;
  }

  // The top range is sorted.
  lemma SortingDone(s0: seq<int>, s: seq<int>, t: seq<int>, e: seq<int>, lo: int, hi: int, st: seq<(int, int)>,
                    r: (int, int))
    requires Sorting(s0, s, e, lo, hi, st + [r]) && Indexes(t, |e|) && Permuted(s, t, r.0, r.1)
      && Apart(e, t, r.0, r.1, [])
    ensures Sorting(s0, t, e, lo, hi, st)
  {
    SortingKeeps(s0, s, t, e, lo, hi, st, r, []);
    HalvingPop(st, r, hi - lo + 1);
    assert st + [] == st;
    hide Permuted, Apart, Halving;
    RangesPop(st, r, lo, hi);
  }

  lemma RangesPop(st: seq<(int, int)>, r: (int, int), lo: int, hi: int)
    requires Ranges(st + [r], lo, hi)
    ensures Ranges(st, lo, hi)
  {
    forall t, u | 0 <= t < u < |st|
      ensures st[t].1 < st[u].0 || st[u].1 < st[t].0
    {
      assert (st + [r])[t] == st[t] && (st + [r])[u] == st[u];
    }
    forall t | 0 <= t < |st|
      ensures lo <= st[t].0 <= st[t].1 + 1 <= hi + 1
    {
      assert (st + [r])[t] == st[t];
    }
  }

  lemma SortingKeeps(s0: seq<int>, s: seq<int>, t: seq<int>, e: seq<int>, lo: int, hi: int, st: seq<(int, int)>,
                     r: (int, int), extra: seq<(int, int)>)
    requires Sorting(s0, s, e, lo, hi, st + [r]) && Indexes(t, |e|) && Permuted(s, t, r.0, r.1)
      && Apart(e, t, r.0, r.1, extra)
    ensures |t| == |s0| && Permuted(s0, t, lo, hi) && Apart(e, t, lo, hi, st + extra)
  {
    hide Permuted, Halving;
    SortingTop(s0, s, e, lo, hi, st, r);
    PermutedSizes(s, t, r.0, r.1);
    PermutedWiden(s, t, r.0, r.1, lo, hi);
    PermutedTrans(s0, s, t, lo, hi);
    ApartRefined(e, s, t, lo, hi, st, r, extra);
  }

  lemma RangesSplit(st: seq<(int, int)>, r: (int, int), a: (int, int), b: (int, int), lo: int, hi: int)
    requires Ranges(st + [r], lo, hi) && r.0 <= a.0 <= a.1 + 1 && a.1 <= r.1 && r.0 <= b.0 <= b.1 + 1 && b.1 <= r.1
    requires a.1 < b.0 || b.1 < a.0
    ensures Ranges(st + [a] + [b], lo, hi)
  {
    RangesPop(st, r, lo, hi);
    var st' := st + [a] + [b];
    assert (st + [r])[|st|] == r;
    forall t | 0 <= t < |st|
      ensures st[t].1 < r.0 || r.1 < st[t].0
    {
      assert (st + [r])[t] == st[t];
    }
    forall t, u | 0 <= t < u < |st'|
      ensures st'[t].1 < st'[u].0 || st'[u].1 < st'[t].0
    {
      if t < |st| { assert st'[t] == st[t]; }
      if u < |st| { assert st'[u] == st[u]; }
    }
    forall t | 0 <= t < |st'|
      ensures lo <= st'[t].0 <= st'[t].1 + 1 <= hi + 1
    {
      if t < |st| { assert st'[t] == st[t]; }
    }
  }

  // The top range falls into two, the larger pushed first.
  lemma SortingSplit(s0: seq<int>, s: seq<int>, t: seq<int>, e: seq<int>, lo: int, hi: int, st: seq<(int, int)>,
                     r: (int, int), n: int, m: int, med: int, big: (int, int), small: (int, int))
    requires Sorting(s0, s, e, lo, hi, st + [r]) && Gathered(s, t, e, r.0, r.1, n, m, med)
      && r.0 <= n + 1 < m <= r.1 + 1
    requires (big, small) == ((r.0, n), (m, r.1)) || (big, small) == ((m, r.1), (r.0, n))
    requires Size(small) <= Size(big)
    ensures Sorting(s0, t, e, lo, hi, st + [big] + [small])
    ensures Total(st + [big] + [small]) < Total(st + [r])
  {
    hide Permuted, Apart, Halving, Total, Ranges;
    GatheredFacts(s, t, e, r.0, r.1, n, m, med);
    GatheredApart(s, t, e, r.0, r.1, n, m, med, [big, small]);
    SortingKeeps(s0, s, t, e, lo, hi, st, r, [big, small]);
    assert st + [big, small] == st + [big] + [small];
    RangesSplit(st, r, big, small, lo, hi);
    HalvingPop(st, r, hi - lo + 1);
    HalvingPush(st, r, big, small, hi - lo + 1);
    TotalSnoc(st, r);
    TotalSnoc(st, big);
    TotalSnoc(st + [big], small);
  }

  lemma SortingEnds(s0: seq<int>, s: seq<int>, e: seq<int>, lo: int, hi: int)
    requires Sorting(s0, s, e, lo, hi, [])
    ensures Indexes(s, |e|) && Permuted(s0, s, lo, hi) && Sorted(e, s, lo, hi)
  {
    ApartSorted(e, s, lo, hi);
  }

  lemma StackPop(lows: seq<int>, highs: seq<int>, st: seq<(int, int)>)
    requires StackIs(lows, highs, st) && st != []
    ensures var k := |st| - 1;
      lows[k] == st[k].0 && highs[k] == st[k].1 && StackIs(lows, highs, st[..k])
        && st == st[..k] + [(lows[k], highs[k])]
  {
  }

  lemma StackPush(lows: seq<int>, highs: seq<int>, st: seq<(int, int)>, r: (int, int))
    requires StackIs(lows, highs, st) && |st| < 100
    ensures StackIs(lows[|st| := r.0], highs[|st| := r.1], st + [r])
  {
  }

  /** fallbackQSort3: the range ends up sorted by class, the rest of fmap is untouched, and
      the stack assertion cannot fail. */
  method QSort3(fmap: array<int>, eclass: array<Byte>, loSt: int, hiSt: int, ghost e: seq<int>)
    requires ClassView(eclass[..], e) && fmap as object != eclass && Indexes(fmap[..], |e|)
    requires 0 <= loSt <= hiSt < fmap.Length && hiSt - loSt < 0xf_ffff
    modifies fmap
    ensures Indexes(fmap[..], |e|) && Permuted(old(fmap[..]), fmap[..], loSt, hiSt) && Sorted(e, fmap[..], loSt, hiSt)
  {
    hide *;
    ghost var s0 := fmap[..];
    var stackLo, stackHi := new int[100], new int[100];
    var r, sp := 0, 0;
    stackLo[sp], stackHi[sp] := loSt, hiSt;
    sp := sp + 1;
    ghost var st := [(loSt, hiSt)];
    SortingStart(s0, e, loSt, hiSt);
    StackOne(stackLo[..], stackHi[..], loSt, hiSt);
    while sp > 0
      invariant 0 <= sp == |st| && 0 <= r < 32768
      invariant StackIs(stackLo[..], stackHi[..], st) && Sorting(s0, fmap[..], e, loSt, hiSt, st)
      decreases Total(st), |st|
    {
      SortingHalving(s0, fmap[..], e, loSt, hiSt, st);
      StackBound(st, hiSt - loSt + 1);
      assert sp < 100 - 1;
      StackPop(stackLo[..], stackHi[..], st);
      sp := sp - 1;
      var lo, hi := stackLo[sp], stackHi[sp];
      ghost var rest, before := st[..sp], fmap[..];
      SortingTop(s0, before, e, loSt, hiSt, rest, (lo, hi));
      TotalSnoc(rest, (lo, hi));
      if hi - lo < 10 {
        SimpleSort(fmap, eclass, lo, hi, e);
        SortedApart(e, fmap[..], lo, hi);
        SortingDone(s0, before, fmap[..], e, loSt, hiSt, rest, (lo, hi));
        st := rest;
        continue;
      }
      r := (r * 7621 + 1) % 32768;
      var r3 := r % 3;
      var at := if r3 == 0 then lo else if r3 == 1 then (lo + hi) / 2 else hi;
      var med := Class(eclass, fmap[at], e);
      var split, n, m := Split(fmap, eclass, lo, hi, med, at, e);
      if !split {
        SortingDone(s0, before, fmap[..], e, loSt, hiSt, rest, (lo, hi));
        st := rest;
        continue;
      }
      SizesAre(lo, hi, n, m);
      if n - lo > hi - m {
        SortingSplit(s0, before, fmap[..], e, loSt, hiSt, rest, (lo, hi), n, m, med, (lo, n), (m, hi));
        sp := PushTwo(stackLo, stackHi, sp, (lo, n), (m, hi), rest);
        st := rest + [(lo, n)] + [(m, hi)];
      } else {
        SortingSplit(s0, before, fmap[..], e, loSt, hiSt, rest, (lo, hi), n, m, med, (m, hi), (lo, n));
        sp := PushTwo(stackLo, stackHi, sp, (m, hi), (lo, n), rest);
        st := rest + [(m, hi)] + [(lo, n)];
      }
    }
    SortingEnds(s0, fmap[..], e, loSt, hiSt);
  }

  lemma SizesAre(lo: int, hi: int, n: int, m: int)
    requires lo <= n + 1 && m <= hi + 1
    ensures Size((lo, n)) == n + 1 - lo && Size((m, hi)) == hi + 1 - m
  {
  }

  lemma StackOne(lows: seq<int>, highs: seq<int>, lo: int, hi: int)
    requires |lows| == |highs| == 100 && lows[0] == lo && highs[0] == hi
    ensures StackIs(lows, highs, [(lo, hi)])
  {
  }

  lemma SortingHalving(s0: seq<int>, s: seq<int>, e: seq<int>, lo: int, hi: int, st: seq<(int, int)>)
    requires Sorting(s0, s, e, lo, hi, st)
    ensures 0 <= hi - lo + 1 && Halving(st, hi - lo + 1)
  {
  }

  method PushTwo(stackLo: array<int>, stackHi: array<int>, sp: nat, a: (int, int), b: (int, int),
                 ghost st: seq<(int, int)>) returns (sp': nat)
    requires stackLo != stackHi && sp == |st| <= 97 && StackIs(stackLo[..], stackHi[..], st)
    modifies stackLo, stackHi
    ensures sp' == sp + 2 && StackIs(stackLo[..], stackHi[..], st + [a] + [b])
  {
    StackPush(stackLo[..], stackHi[..], st, a);
    StackPush(stackLo[..][sp := a.0], stackHi[..][sp := a.1], st + [a], b);
    hide StackIs;
    stackLo[sp], stackHi[sp] := a.0, a.1;
    assert stackLo[..] == old(stackLo[..])[sp := a.0] && stackHi[..] == old(stackHi[..])[sp := a.1];
    stackLo[sp + 1], stackHi[sp + 1] := b.0, b.1;
    assert stackLo[..] == old(stackLo[..])[sp := a.0][sp + 1 := b.0]
      && stackHi[..] == old(stackHi[..])[sp := a.1][sp + 1 := b.1];
    sp' := sp + 2;
  }
}
