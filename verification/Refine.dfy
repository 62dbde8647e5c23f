/**
 Choosing coding tables (the first part of sendMTFValues): seed lengths, then four
 passes that give every group of 50 symbols its cheapest table and rebuild each
 table from the symbols it was given.
 */
module Refine {
  import opened Bits
  import CL = CodeLengths
  import Forest

  const G_SIZE: nat := 50

  function GroupCount(nMTF: nat): (n: nat)
    ensures 2 <= n <= 6
  {
    if nMTF < 200 then 2 else if nMTF < 600 then 3 else if nMTF < 1200 then 4 else if nMTF < 2400 then 5 else 6
  }

  /** How many tables a block gets. */
  lemma TableCounts(nMTF: nat)
    ensures GroupCount(nMTF) == 2 <==> nMTF <= 199
    ensures GroupCount(nMTF) == 3 <==> 200 <= nMTF <= 599
    ensures GroupCount(nMTF) == 4 <==> 600 <= nMTF <= 1199
    ensures GroupCount(nMTF) == 5 <==> 1200 <= nMTF <= 2399
    ensures GroupCount(nMTF) == 6 <==> 2400 <= nMTF
  {
  }

  // ----- seeding

  // Cost 0 inside the range, 15 outside.
  function SeedTable(alphaSize: nat, gs: int, ge: int): (s: seq<int>)
    ensures |s| == alphaSize
  {
    seq(alphaSize, v => if gs <= v <= ge then 0 else 15)
  }

  predicate SmallCosts(lens: seq<seq<int>>, alphaSize: nat) {
    forall t :: 0 <= t < |lens| ==> |lens[t]| == alphaSize && forall v :: 0 <= v < alphaSize ==> 0 <= lens[t][v] <= 17
  }

  // C division, which truncates toward zero.
  function Quotient(a: int, b: int): int
    requires 0 < b
  {
    if a >= 0 then a / b else -((-a) / b)
  }

  /** Of nonnegative numbers it is the quotient rounded down. */
  lemma QuotientIs(a: nat, b: nat)
    requires 0 < b
    ensures 0 <= Quotient(a, b) && Quotient(a, b) * b <= a < (Quotient(a, b) + 1) * b
  {
  }

  // How many symbols are below k.
  function FreqBelow(freq: seq<int>, k: nat): int
    requires k <= |freq|
    decreases k
  {
    if k == 0 then 0 else FreqBelow(freq, k - 1) + freq[k - 1]
  }

  // e is the first symbol at which [gs, e] reaches its share of what is left, or the last one.
  ghost predicate ReachesShare(freq: seq<int>, alphaSize: nat, gs: int, e: int, share: int) {
    && alphaSize <= |freq| && 0 <= gs <= e + 1 <= alphaSize
    && (forall v {:trigger FreqBelow(freq, v)} ::
          gs <= v <= e ==> FreqBelow(freq, v) - FreqBelow(freq, gs) < share)
    && (e == alphaSize - 1 || share <= FreqBelow(freq, e + 1) - FreqBelow(freq, gs))
  }

  // Every second inner segment gives up its last symbol.
  function Trimmed(gs: int, e: int, i: int, nGroups: int): int {
    if e > gs && 0 < i < nGroups - 1 && i % 2 == 1 then e else e + 1
  }

  // Segment i of nGroups is [gs, next): its table starts at cost 0 inside it and 15 outside.
  ghost predicate CutAt(freq: seq<int>, alphaSize: nat, nGroups: nat, nMTF: nat, i: int, gs: int, next: int) {
    && alphaSize <= |freq| && 0 <= i < nGroups && 0 <= gs <= alphaSize
    && var share := Quotient(nMTF - FreqBelow(freq, gs), nGroups - i);
    exists e :: ReachesShare(freq, alphaSize, gs, e, share) && next == Trimmed(gs, e, i, nGroups)
  }

  ghost predicate SegmentAt(lens: seq<seq<int>>, freq: seq<int>, alphaSize: nat, nGroups: nat, nMTF: nat, i: int,
                            gs: int, next: int)
    requires |lens| == nGroups
  {
    && CutAt(freq, alphaSize, nGroups, nMTF, i, gs, next) && 0 <= i < nGroups
    && var table := lens[nGroups - 1 - i];
    |table| == alphaSize && forall v :: 0 <= v < alphaSize ==> table[v] == if gs <= v < next then 0 else 15
  }

  ghost predicate SeededFrom(lens: seq<seq<int>>, cuts: seq<int>, freq: seq<int>, alphaSize: nat, nGroups: nat,
                             nMTF: nat) {
    && |lens| == nGroups && 1 <= |cuts| <= nGroups + 1 && cuts[0] == 0
    && forall i {:trigger cuts[i]} :: 0 <= i < |cuts| - 1 ==>
         SegmentAt(lens, freq, alphaSize, nGroups, nMTF, i, cuts[i], cuts[i + 1])
  }

  /** The last table favours the first segment of the alphabet, and so on backwards. */
  ghost predicate Seeded(lens: seq<seq<int>>, freq: seq<int>, alphaSize: nat, nGroups: nat, nMTF: nat) {
    exists cuts: seq<int> :: |cuts| == nGroups + 1 && SeededFrom(lens, cuts, freq, alphaSize, nGroups, nMTF)
  }

  // Extend the segment until it has its share.
  method FindShare(mtfFreq: array<int>, alphaSize: nat, gs: nat, tFreq: int) returns (ge: int, aFreq: int)
    requires alphaSize <= mtfFreq.Length && gs <= alphaSize
    ensures gs - 1 <= ge < alphaSize && ReachesShare(mtfFreq[..], alphaSize, gs, ge, tFreq)
    ensures aFreq == FreqBelow(mtfFreq[..], ge + 1) - FreqBelow(mtfFreq[..], gs)
  {
    hide FreqBelow;
    ge, aFreq := gs - 1, 0;
    while aFreq < tFreq && ge < alphaSize - 1
      invariant gs - 1 <= ge < alphaSize && aFreq == FreqBelow(mtfFreq[..], ge + 1) - FreqBelow(mtfFreq[..], gs)
      invariant forall v {:trigger FreqBelow(mtfFreq[..], v)} ::
        gs <= v <= ge ==> FreqBelow(mtfFreq[..], v) - FreqBelow(mtfFreq[..], gs) < tFreq
      decreases alphaSize - ge
    {
      ge := ge + 1;
      FreqBelowStep(mtfFreq[..], ge);
      aFreq := aFreq + mtfFreq[ge];
    }
  }

  method Seed(nGroups: nat, nMTF: nat, mtfFreq: array<int>, alphaSize: nat) returns (lens: seq<seq<int>>)
    requires 2 <= nGroups <= 6 && alphaSize <= mtfFreq.Length
    ensures |lens| == nGroups && SmallCosts(lens, alphaSize)
    ensures Seeded(lens, mtfFreq[..], alphaSize, nGroups, nMTF)
  {
    hide FreqBelow, Quotient, SeedTable, ReachesShare, SegmentAt, CutAt;
    SeedTableSmall(alphaSize, 0, -1);
    lens := seq(nGroups, _ => SeedTable(alphaSize, 0, -1));
    var nPart, remF, gs := nGroups, nMTF as int, 0;
    ghost var freq, cuts := mtfFreq[..], [0];
    FreqBelowStep(freq, 0);
    while nPart > 0
      invariant 0 <= nPart <= nGroups && |lens| == nGroups && 0 <= gs <= alphaSize
      invariant SmallCosts(lens, alphaSize)
      invariant |cuts| == nGroups - nPart + 1 && cuts[|cuts| - 1] == gs
      invariant remF == nMTF - FreqBelow(freq, gs)
      invariant SeededFrom(lens, cuts, freq, alphaSize, nGroups, nMTF)
    {
      var tFreq := Quotient(remF, nPart);
      var ge, aFreq := FindShare(mtfFreq, alphaSize, gs, tFreq);
      ghost var e := ge;
      if ge > gs && nPart != nGroups && nPart != 1 && (nGroups - nPart) % 2 == 1 {
        FreqBelowStep(freq, ge);
        aFreq := aFreq - mtfFreq[ge];
        ge := ge - 1;
      }
      SeedTableSmall(alphaSize, gs, ge);
      SeedMore(lens, cuts, freq, alphaSize, nGroups, nMTF, e, ge + 1);
      lens := lens[nPart - 1 := SeedTable(alphaSize, gs, ge)];
      nPart := nPart - 1;
      gs := ge + 1;
      cuts := cuts + [gs];
      remF := remF - aFreq;
    }
  }

  lemma FreqBelowStep(freq: seq<int>, k: nat)
    ensures FreqBelow(freq, 0) == 0
    ensures k < |freq| ==> FreqBelow(freq, k + 1) == FreqBelow(freq, k) + freq[k]
  {
  }

  lemma SeedTableSmall(alphaSize: nat, gs: int, ge: int)
    ensures |SeedTable(alphaSize, gs, ge)| == alphaSize
    ensures forall v :: 0 <= v < alphaSize ==> 0 <= SeedTable(alphaSize, gs, ge)[v] <= 17
  {
  }

  lemma SeedMore(lens: seq<seq<int>>, cuts: seq<int>, freq: seq<int>, alphaSize: nat, nGroups: nat, nMTF: nat, e: int,
                 next: int)
    requires SeededFrom(lens, cuts, freq, alphaSize, nGroups, nMTF) && |cuts| <= nGroups && alphaSize <= |freq|
    requires var i, gs := |cuts| - 1, cuts[|cuts| - 1];
      && 0 <= gs <= alphaSize
      && ReachesShare(freq, alphaSize, gs, e, Quotient(nMTF - FreqBelow(freq, gs), nGroups - i))
      && next == Trimmed(gs, e, i, nGroups)
    ensures var i, gs := |cuts| - 1, cuts[|cuts| - 1];
      SeededFrom(lens[nGroups - 1 - i := SeedTable(alphaSize, gs, next - 1)], cuts + [next], freq, alphaSize, nGroups,
                 nMTF)
  {
    hide FreqBelow, Quotient, SeedTable, ReachesShare, CutAt, SegmentAt, Trimmed;
    var i, gs := |cuts| - 1, cuts[|cuts| - 1];
    var lens', cuts' := lens[nGroups - 1 - i := SeedTable(alphaSize, gs, next - 1)], cuts + [next];
    CutNow(freq, alphaSize, nGroups, nMTF, i, gs, e, next);
    SegmentSet(lens', freq, alphaSize, nGroups, nMTF, i, gs, next);
    forall k {:trigger cuts'[k]} | 0 <= k < |cuts'| - 1
      ensures SegmentAt(lens', freq, alphaSize, nGroups, nMTF, k, cuts'[k], cuts'[k + 1])
    {
      if k < i {
        assert cuts'[k] == cuts[k] && cuts'[k + 1] == cuts[k + 1];
        SegmentStays(lens, lens', freq, alphaSize, nGroups, nMTF, k, cuts[k], cuts[k + 1]);
      }
    }
  }

  lemma SegmentSet(lens: seq<seq<int>>, freq: seq<int>, alphaSize: nat, nGroups: nat, nMTF: nat, i: int, gs: int,
                   next: int)
    requires |lens| == nGroups && 0 <= i < nGroups && CutAt(freq, alphaSize, nGroups, nMTF, i, gs, next)
    requires lens[nGroups - 1 - i] == SeedTable(alphaSize, gs, next - 1)
    ensures SegmentAt(lens, freq, alphaSize, nGroups, nMTF, i, gs, next)
  {
    hide CutAt;
  }

  lemma SegmentStays(lens: seq<seq<int>>, lens': seq<seq<int>>, freq: seq<int>, alphaSize: nat, nGroups: nat,
                     nMTF: nat, i: int, gs: int, next: int)
    requires |lens| == nGroups == |lens'| && SegmentAt(lens, freq, alphaSize, nGroups, nMTF, i, gs, next)
    requires 0 <= i < nGroups ==> lens'[nGroups - 1 - i] == lens[nGroups - 1 - i]
    ensures SegmentAt(lens', freq, alphaSize, nGroups, nMTF, i, gs, next)
  {
    hide CutAt, SeedTable;
  }

  lemma CutNow(freq: seq<int>, alphaSize: nat, nGroups: nat, nMTF: nat, i: int, gs: int, e: int, next: int)
    requires alphaSize <= |freq| && 0 <= i < nGroups && 0 <= gs <= alphaSize
    requires ReachesShare(freq, alphaSize, gs, e, Quotient(nMTF - FreqBelow(freq, gs), nGroups - i))
    requires next == Trimmed(gs, e, i, nGroups)
    ensures CutAt(freq, alphaSize, nGroups, nMTF, i, gs, next)
  {
    hide FreqBelow, Quotient, ReachesShare;
  }

  // ----- the cost of a group

  function Cost(len: seq<int>, syms: seq<int>, gs: nat, k: nat): (c: int)
    requires gs + k <= |syms| && forall i :: 0 <= i < |syms| ==> 0 <= syms[i] < |len|
    decreases k
  {
    if k == 0 then 0 else Cost(len, syms, gs, k - 1) + len[syms[gs + k - 1]]
  }

  lemma {:induction false} CostBound(len: seq<int>, syms: seq<int>, gs: nat, k: nat)
    requires gs + k <= |syms| && forall i :: 0 <= i < |syms| ==> 0 <= syms[i] < |len|
    requires forall v :: 0 <= v < |len| ==> 0 <= len[v] <= 17
    ensures 0 <= Cost(len, syms, gs, k) <= 17 * k
    decreases k
  {
    if k != 0 { CostBound(len, syms, gs, k - 1); }
  }

  // (b << 16) | a
  function Packed(a: int, b: int): int { 0x1_0000 * b + a }

  /** Two 16-bit sums in one word never carry into each other. */
  lemma PackedParts(a: int, b: int)
    requires 0 <= a < 0x1_0000 && 0 <= b < 0x1_0000
    ensures Packed(a, b) < 0x1_0000_0000 && Packed(a, b) % 0x1_0000 == a && Packed(a, b) / 0x1_0000 == b
  {
  }

  ghost predicate Symbols(syms: seq<int>, alphaSize: nat) {
    forall i :: 0 <= i < |syms| ==> 0 <= syms[i] < alphaSize
  }

  // The costs of all tables for the group of k symbols at gs.
  ghost predicate Costs(cost: seq<int>, lens: seq<seq<int>>, syms: seq<int>, alphaSize: nat, gs: nat, k: nat)
    requires Symbols(syms, alphaSize) && SmallCosts(lens, alphaSize) && gs + k <= |syms|
  {
    |cost| == |lens| && forall t :: 0 <= t < |lens| ==> cost[t] == Cost(lens[t], syms, gs, k)
  }

  // One table's cost by adding up, or two tables' costs in one word.
  method PairCost(a: seq<int>, b: seq<int>, mtfv: array<UInt16>, gs: nat, k: nat, ghost syms: seq<int>, alphaSize: nat)
    returns (costA: int, costB: int)
    requires |syms| <= mtfv.Length && mtfv[..|syms|] == syms && Symbols(syms, alphaSize) && gs + k <= |syms| && k <= 50
    requires SmallCosts([a, b], alphaSize) && |a| == |b| == alphaSize
    ensures costA == Cost(a, syms, gs, k) && costB == Cost(b, syms, gs, k)
  {
    hide Packed, SmallCosts;
    PairRange(a, b, alphaSize);
    var cost: int := Packed(0, 0);
    var i := 0;
    while i < k
      invariant 0 <= i <= k && cost == Packed(Cost(a, syms, gs, i), Cost(b, syms, gs, i))
    {
      assert mtfv[gs + i] == syms[gs + i];
      PackedAdd(Cost(a, syms, gs, i), Cost(b, syms, gs, i), a[mtfv[gs + i]], b[mtfv[gs + i]]);
      CostBound(a, syms, gs, i + 1);
      CostBound(b, syms, gs, i + 1);
      PackedParts(Cost(a, syms, gs, i + 1), Cost(b, syms, gs, i + 1));
      cost := (cost + Packed(a[mtfv[gs + i]], b[mtfv[gs + i]])) % 0x1_0000_0000;
      PackedNonneg(Cost(a, syms, gs, i + 1), Cost(b, syms, gs, i + 1));
      i := i + 1;
    }
    CostBound(a, syms, gs, k);
    CostBound(b, syms, gs, k);
    PackedParts(Cost(a, syms, gs, k), Cost(b, syms, gs, k));
    costA, costB := cost % 0x1_0000, cost / 0x1_0000;
  }

  lemma PairRange(a: seq<int>, b: seq<int>, alphaSize: nat)
    requires SmallCosts([a, b], alphaSize)
    ensures |a| == |b| == alphaSize
    ensures forall v :: 0 <= v < alphaSize ==> 0 <= a[v] <= 17
    ensures forall v :: 0 <= v < alphaSize ==> 0 <= b[v] <= 17
  {
    assert [a, b][0] == a && [a, b][1] == b;
  }

  lemma PackedAdd(a: int, b: int, c: int, d: int)
    ensures Packed(a, b) + Packed(c, d) == Packed(a + c, b + d)
  {
  }

  lemma PackedNonneg(a: int, b: int)
    requires 0 <= a && 0 <= b
    ensures 0 <= Packed(a, b)
  {
  }

  lemma PairSmall(lens: seq<seq<int>>, s: nat, t: nat, alphaSize: nat)
    requires SmallCosts(lens, alphaSize) && s < |lens| && t < |lens|
    ensures SmallCosts([lens[s], lens[t]], alphaSize)
  {
  }

  method GroupCosts(lens: seq<seq<int>>, mtfv: array<UInt16>, gs: nat, k: nat, ghost syms: seq<int>, alphaSize: nat)
    returns (cost: seq<int>)
    requires |syms| <= mtfv.Length && mtfv[..|syms|] == syms && Symbols(syms, alphaSize) && gs + k <= |syms| && k <= 50
    requires SmallCosts(lens, alphaSize) && 1 <= |lens| <= 6
    ensures Costs(cost, lens, syms, alphaSize, gs, k)
  {
    hide Cost;
    if |lens| == 6 && k == 50 {
      PairSmall(lens, 0, 1, alphaSize);
      PairSmall(lens, 2, 3, alphaSize);
      PairSmall(lens, 4, 5, alphaSize);
      var c0, c1 := PairCost(lens[0], lens[1], mtfv, gs, k, syms, alphaSize);
      var c2, c3 := PairCost(lens[2], lens[3], mtfv, gs, k, syms, alphaSize);
      var c4, c5 := PairCost(lens[4], lens[5], mtfv, gs, k, syms, alphaSize);
      cost := [c0, c1, c2, c3, c4, c5];
    } else {
      cost := [];
      var t := 0;
      while t < |lens|
        invariant 0 <= t <= |lens| && |cost| == t
        invariant forall u :: 0 <= u < t ==> cost[u] == Cost(lens[u], syms, gs, k)
      {
        var c := PlainCost(lens[t], mtfv, gs, k, syms, alphaSize);
        cost := cost + [c];
        t := t + 1;
      }
    }
  }

  // A 16-bit sum.
  method PlainCost(len: seq<int>, mtfv: array<UInt16>, gs: nat, k: nat, ghost syms: seq<int>, alphaSize: nat)
    returns (c: int)
    requires |syms| <= mtfv.Length && mtfv[..|syms|] == syms && Symbols(syms, alphaSize) && gs + k <= |syms| && k <= 50
    requires |len| == alphaSize && forall v :: 0 <= v < alphaSize ==> 0 <= len[v] <= 17
    ensures c == Cost(len, syms, gs, k)
  {
    c := 0;
    var i := 0;
    while i < k
      invariant 0 <= i <= k && c == Cost(len, syms, gs, i)
    {
      assert mtfv[gs + i] == syms[gs + i];
      CostBound(len, syms, gs, i + 1);
      c := (c + len[mtfv[gs + i]]) % 0x1_0000;
      i := i + 1;
    }
  }

  // The first cheapest table.
  method Cheapest(cost: seq<int>) returns (bt: nat)
    requires cost != [] && forall t :: 0 <= t < |cost| ==> 0 <= cost[t] < 999999999
    ensures bt < |cost| && (forall t :: 0 <= t < |cost| ==> cost[bt] <= cost[t]) && forall t :: 0 <= t < bt ==>
      cost[bt] < cost[t]
  {
    var bc := 999999999;
    var best := -1;
    var t := 0;
    while t < |cost|
      invariant 0 <= t <= |cost| && (t == 0 ==> best == -1 && bc == 999999999)
      invariant 0 < t ==> 0 <= best < t && bc == cost[best]
      invariant forall u :: 0 <= u < t ==> bc <= cost[u]
      invariant forall u :: 0 <= u < best ==> bc < cost[u]
    {
      if cost[t] < bc { bc := cost[t]; best := t; }
      t := t + 1;
    }
    bt := best;
  }

  // ----- one pass

  lemma {:induction false} FreqSumBump(f: seq<int>, v: nat, k: nat)
    requires k <= |f| && v < |f|
    requires forall u :: 0 <= u < |f| ==> 0 <= f[u]
    ensures CL.FreqSum(f[v := f[v] + 1], k) <= CL.FreqSum(f, k) + (if v < k then 1 else 0)
    decreases k
  {
    if k != 0 { FreqSumBump(f, v, k - 1); }
  }

  lemma {:induction false} FreqSumZero(f: seq<int>, k: nat)
    requires k <= |f| && forall v :: 0 <= v < |f| ==> f[v] == 0
    ensures CL.FreqSum(f, k) == k
    decreases k
  {
    if k != 0 { FreqSumZero(f, k - 1); }
  }

  // Counts of at most total symbols; a count of zero weighs one.
  ghost predicate Counted(f: seq<int>, alphaSize: nat, total: int) {
    |f| == alphaSize && (forall v :: 0 <= v < alphaSize ==> 0 <= f[v]) && CL.FreqSum(f, alphaSize) <= total + alphaSize
  }

  ghost predicate AllCounted(rfreq: seq<seq<int>>, alphaSize: nat, total: int) {
    forall t :: 0 <= t < |rfreq| ==> Counted(rfreq[t], alphaSize, total)
  }

  // How many of the k symbols at gs are v.
  function CountIn(syms: seq<int>, gs: nat, k: nat, v: int): (c: nat)
    requires gs + k <= |syms|
    decreases k
  {
    if k == 0 then 0 else CountIn(syms, gs, k - 1, v) + (if syms[gs + k - 1] == v then 1 else 0)
  }

  method CountGroup(f0: seq<int>, mtfv: array<UInt16>, gs: nat, k: nat, ghost syms: seq<int>, alphaSize: nat,
                    ghost total: int)
    returns (f: seq<int>)
    requires |syms| <= mtfv.Length && mtfv[..|syms|] == syms && Symbols(syms, alphaSize) && gs + k <= |syms|
    requires Counted(f0, alphaSize, total)
    ensures Counted(f, alphaSize, total + k) && forall v :: 0 <= v < alphaSize ==>
      f[v] == f0[v] + CountIn(syms, gs, k, v)
  {
    hide CL.FreqSum;
    f := f0;
    var i := 0;
    while i < k
      invariant 0 <= i <= k && Counted(f, alphaSize, total + i)
      invariant forall v :: 0 <= v < alphaSize ==> f[v] == f0[v] + CountIn(syms, gs, i, v)
    {
      assert mtfv[gs + i] == syms[gs + i];
      FreqSumBump(f, mtfv[gs + i], alphaSize);
      f := f[mtfv[gs + i] := f[mtfv[gs + i]] + 1];
      i := i + 1;
    }
  }

  // Lengths 1 .. 17 of a complete code.
  ghost predicate CompleteCode(len: seq<int>, alphaSize: nat) {
    && |len| == alphaSize && (forall v :: 0 <= v < alphaSize ==> 1 <= len[v] <= 17)
    && Forest.Short(len) && Forest.KraftSum(len) == Pow2(Forest.TOP)
  }

  method Rebuild(f: seq<int>, alphaSize: nat) returns (len: seq<int>)
    requires 2 <= alphaSize <= 258 && Counted(f, alphaSize, 900001)
    ensures CompleteCode(len, alphaSize) && CL.Built(f, 17, len)
  {
    hide CL.FreqSum, Forest.KraftSum, Pow2, CL.Built;
    var lenArr, freqArr := new int[258], new int[258];
    var v := 0;
    while v < alphaSize
      invariant 0 <= v <= alphaSize
      invariant forall u :: 0 <= u < v ==> freqArr[u] == f[u]
    {
      freqArr[v] := f[v];
      v := v + 1;
    }
    FreqSumSame(f, freqArr[..], alphaSize);
    CL.MakeCodeLengths(lenArr, freqArr, alphaSize, 17);
    assert freqArr[..alphaSize] == f;
    len := lenArr[..alphaSize];
  }

  lemma {:induction false} FreqSumSame(f: seq<int>, g: seq<int>, k: nat)
    requires k <= |f| && k <= |g| && forall v :: 0 <= v < k ==> f[v] == g[v]
    ensures CL.FreqSum(f, k) == CL.FreqSum(g, k)
    decreases k
  {
    if k != 0 { FreqSumSame(f, g, k - 1); }
  }

  ghost predicate Selected(selector: seq<Byte>, n: nat, nGroups: nat) {
    n <= |selector| && forall i :: 0 <= i < n ==> selector[i] < nGroups
  }

  // Group g of n symbols: 50 of them, or what is left.
  function GroupSize(g: nat, n: nat): nat
    requires 50 * g < n
  {
    if 50 * g + 50 <= n then 50 else n - 50 * g
  }

  // Table t is the first of those that code the group most cheaply.
  ghost predicate LeastCost(lens: seq<seq<int>>, syms: seq<int>, alphaSize: nat, g: nat, t: int)
    requires Symbols(syms, alphaSize) && SmallCosts(lens, alphaSize) && 50 * g < |syms|
  {
    && 0 <= t < |lens|
    && (forall u :: 0 <= u < |lens| ==>
        GroupCost(lens, syms, alphaSize, g, t) <= GroupCost(lens, syms, alphaSize, g, u))
    && (forall u :: 0 <= u < t ==> GroupCost(lens, syms, alphaSize, g, t) < GroupCost(lens, syms, alphaSize, g, u))
  }

  ghost function GroupCost(lens: seq<seq<int>>, syms: seq<int>, alphaSize: nat, g: nat, t: nat): int
    requires Symbols(syms, alphaSize) && SmallCosts(lens, alphaSize) && 50 * g < |syms| && t < |lens|
  {
    Cost(lens[t], syms, 50 * g, GroupSize(g, |syms|))
  }

  // Each of the first n groups has its table.
  ghost predicate Assigned(selector: seq<Byte>, n: nat, lens: seq<seq<int>>, syms: seq<int>, alphaSize: nat)
    requires Symbols(syms, alphaSize) && SmallCosts(lens, alphaSize)
  {
    && n <= |selector| && n <= (|syms| + 49) / 50
    && forall g {:trigger selector[g]} :: 0 <= g < n ==> LeastCost(lens, syms, alphaSize, g, selector[g])
  }

  // How often v occurs in the groups of table t, among the first m symbols.
  ghost function Uses(selector: seq<Byte>, syms: seq<int>, t: int, v: int, m: nat): (c: nat)
    requires m <= |syms| && m <= 50 * |selector|
    decreases m
  {
    if m == 0 then 0
    else Uses(selector, syms, t, v, m - 1) + (if selector[(m - 1) / 50] == t && syms[m - 1] == v then 1 else 0)
  }

  ghost predicate Tallied(rfreq: seq<seq<int>>, selector: seq<Byte>, syms: seq<int>, alphaSize: nat, m: nat) {
    && m <= |syms| && m <= 50 * |selector|
    && forall t {:trigger rfreq[t]} :: 0 <= t < |rfreq| ==>
         |rfreq[t]| == alphaSize && forall v :: 0 <= v < alphaSize ==> rfreq[t][v] == Uses(selector, syms, t, v, m)
  }

  lemma {:induction false} UsesSame(s: seq<Byte>, s': seq<Byte>, syms: seq<int>, t: int, v: int, m: nat)
    requires m <= |syms| && m <= 50 * |s| && |s| == |s'| && forall i :: 0 <= i < |s| && 50 * i < m ==> s[i] == s'[i]
    ensures Uses(s, syms, t, v, m) == Uses(s', syms, t, v, m)
    decreases m
  {
    if m != 0 { UsesSame(s, s', syms, t, v, m - 1); }
  }

  // The symbols of group g go to its table's counts.
  lemma {:induction false} UsesGroup(s: seq<Byte>, syms: seq<int>, t: int, v: int, g: nat, k: nat)
    requires g < |s| && 50 * g + k <= |syms| && k <= 50
    ensures Uses(s, syms, t, v, 50 * g + k) == Uses(s, syms, t, v, 50 * g)
      + (if s[g] == t then CountIn(syms, 50 * g, k, v) else 0)
    decreases k
  {
    if k != 0 {
      UsesGroup(s, syms, t, v, g, k - 1);
      assert (50 * g + k - 1) / 50 == g;
    }
  }

  lemma TalliedMore(rfreq: seq<seq<int>>, s: seq<Byte>, s': seq<Byte>, f: seq<int>, syms: seq<int>, alphaSize: nat,
                    g: nat, k: nat)
    requires Tallied(rfreq, s, syms, alphaSize, 50 * g) && g < |s| && |s'| == |s| && s'[..g] == s[..g]
      && 0 <= s'[g] < |rfreq|
    requires 50 * g + k <= |syms| && k <= 50 && |f| == alphaSize
    requires forall v :: 0 <= v < alphaSize ==> f[v] == rfreq[s'[g]][v] + CountIn(syms, 50 * g, k, v)
    ensures Tallied(rfreq[s'[g] := f], s', syms, alphaSize, 50 * g + k)
  {
    hide Uses, CountIn;
    var r := rfreq[s'[g] := f];
    forall t, v | 0 <= t < |r| && 0 <= v < alphaSize
      ensures |r[t]| == alphaSize && r[t][v] == Uses(s', syms, t, v, 50 * g + k)
    {
      UsesGroup(s', syms, t, v, g, k);
      assert forall i :: 0 <= i < g ==> s[i] == s[..g][i] && s'[i] == s'[..g][i];
      UsesSame(s, s', syms, t, v, 50 * g);
      assert |rfreq[t]| == alphaSize;
    }
  }

  lemma AssignedMore(s: seq<Byte>, s': seq<Byte>, lens: seq<seq<int>>, syms: seq<int>, alphaSize: nat, g: nat,
                     cost: seq<int>)
    requires Symbols(syms, alphaSize) && SmallCosts(lens, alphaSize) && Assigned(s, g, lens, syms, alphaSize)
      && 50 * g < |syms|
    requires g < |s| && |s'| == |s| && s'[..g] == s[..g]
      && Costs(cost, lens, syms, alphaSize, 50 * g, GroupSize(g, |syms|))
    requires 0 <= s'[g] < |cost| && (forall t :: 0 <= t < |cost| ==> cost[s'[g]] <= cost[t])
    requires forall t :: 0 <= t < s'[g] ==> cost[s'[g]] < cost[t]
    ensures Assigned(s', g + 1, lens, syms, alphaSize)
  {
    hide Cost, SmallCosts;
    assert LeastCost(lens, syms, alphaSize, g, s'[g]);
    hide LeastCost;
    forall h {:trigger s'[h]} | 0 <= h < g + 1
      ensures LeastCost(lens, syms, alphaSize, h, s'[h])
    {
      if h < g { assert s'[h] == s'[..g][h] == s[..g][h] == s[h]; }
    }
  }

  /** One pass over the groups: each goes to the first table of least cost, no 16-bit cost overflowing,
      and the frequencies are those of the symbols in each table's groups. */
  method AssignGroups(lens: seq<seq<int>>, mtfv: array<UInt16>, nMTF: nat, selector: array<Byte>, alphaSize: nat,
                      ghost syms: seq<int>)
    returns (nSelectors: nat, rfreq: seq<seq<int>>)
    requires nMTF <= mtfv.Length && syms == mtfv[..nMTF] && Symbols(syms, alphaSize) && nMTF <= 900001
    requires SmallCosts(lens, alphaSize) && 2 <= |lens| <= 6 && selector.Length == 18002 && selector != mtfv as object
    modifies selector
    ensures nSelectors == (nMTF + 49) / 50 <= 18001 && Selected(selector[..], nSelectors, |lens|)
    ensures |rfreq| == |lens| && AllCounted(rfreq, alphaSize, nMTF)
    ensures Assigned(selector[..], nSelectors, lens, syms, alphaSize)
      && Tallied(rfreq, selector[..], syms, alphaSize, nMTF)
  {
    hide CL.FreqSum, SmallCosts, Cost, Assigned, Tallied, CountIn, Symbols, Costs;
    rfreq := ZeroFreqs(|lens|, alphaSize);
    NothingYet(selector[..], lens, syms, alphaSize);
    nSelectors := 0;
    var gs := 0;
    while gs < nMTF
      invariant 0 <= gs <= nMTF && gs == (if 50 * nSelectors < nMTF then 50 * nSelectors else nMTF)
      invariant gs == nMTF ==> nSelectors == (nMTF + 49) / 50
      invariant mtfv[..nMTF] == syms && |rfreq| == |lens| && AllCounted(rfreq, alphaSize, gs)
      invariant nSelectors <= 18001 && Selected(selector[..], nSelectors, |lens|)
      invariant Assigned(selector[..], nSelectors, lens, syms, alphaSize)
        && Tallied(rfreq, selector[..], syms, alphaSize, gs)
    {
      ghost var s, g := selector[..], nSelectors;
      var ge := gs + G_SIZE - 1;
      if ge >= nMTF { ge := nMTF - 1; }
      GroupEnds(gs, ge, nSelectors, nMTF);
      var cost := GroupCosts(lens, mtfv, gs, ge - gs + 1, syms, alphaSize);
      CostsSmall(cost, lens, syms, alphaSize, gs, ge - gs + 1);
      var bt := Cheapest(cost);
      selector[nSelectors] := bt;
      nSelectors := nSelectors + 1;
      var f := CountGroup(rfreq[bt], mtfv, gs, ge - gs + 1, syms, alphaSize, gs);
      AllCountedMore(rfreq, f, bt, alphaSize, gs, ge + 1);
      AssignedMore(s, selector[..], lens, syms, alphaSize, g, cost);
      TalliedMore(rfreq, s, selector[..], f, syms, alphaSize, g, ge - gs + 1);
      rfreq := rfreq[bt := f];
      gs := ge + 1;
    }
  }

  lemma NothingYet(s: seq<Byte>, lens: seq<seq<int>>, syms: seq<int>, alphaSize: nat)
    requires Symbols(syms, alphaSize) && SmallCosts(lens, alphaSize)
    ensures Assigned(s, 0, lens, syms, alphaSize) && Tallied(ZeroFreqs(|lens|, alphaSize), s, syms, alphaSize, 0)
  {
  }

  function ZeroFreqs(n: nat, alphaSize: nat): (z: seq<seq<int>>)
    ensures |z| == n && AllCounted(z, alphaSize, 0)
  {
    FreqSumZero(seq(alphaSize, _ => 0), alphaSize);
    seq(n, _ => seq(alphaSize, _ => 0))
  }

  lemma GroupEnds(gs: nat, ge: nat, n: nat, nMTF: nat)
    requires gs == 50 * n < nMTF <= 900001 && ge == (if gs + 49 >= nMTF then nMTF - 1 else gs + 49)
    ensures ge + 1 == (if 50 * (n + 1) < nMTF then 50 * (n + 1) else nMTF) && n < 18001 && 1 <= ge - gs + 1 <= 50
    ensures ge + 1 == nMTF ==> n + 1 == (nMTF + 49) / 50
  {
  }

  lemma CostsSmall(cost: seq<int>, lens: seq<seq<int>>, syms: seq<int>, alphaSize: nat, gs: nat, k: nat)
    requires Symbols(syms, alphaSize) && SmallCosts(lens, alphaSize) && gs + k <= |syms| && k <= 50
    requires Costs(cost, lens, syms, alphaSize, gs, k)
    ensures |cost| == |lens| && forall t :: 0 <= t < |cost| ==> 0 <= cost[t] < 999999999
  {
    hide Cost;
    forall t | 0 <= t < |cost|
      ensures 0 <= cost[t] < 999999999
    {
      CostBound(lens[t], syms, gs, k);
    }
  }

  lemma AllCountedMore(rfreq: seq<seq<int>>, f: seq<int>, bt: nat, alphaSize: nat, total: int, total': int)
    requires AllCounted(rfreq, alphaSize, total) && bt < |rfreq| && Counted(f, alphaSize, total') && total <= total'
    ensures AllCounted(rfreq[bt := f], alphaSize, total')
  {
    hide CL.FreqSum;
  }

  ghost predicate CompleteCodes(lens: seq<seq<int>>, alphaSize: nat) {
    forall t :: 0 <= t < |lens| ==> CompleteCode(lens[t], alphaSize)
  }

  // Every table is optimal for what its groups hold.
  ghost predicate AllBuilt(rfreq: seq<seq<int>>, lens: seq<seq<int>>) {
    |lens| == |rfreq| && forall t :: 0 <= t < |lens| ==> CL.Built(rfreq[t], 17, lens[t])
  }

  method RebuildAll(rfreq: seq<seq<int>>, alphaSize: nat, ghost total: int) returns (lens: seq<seq<int>>)
    requires 2 <= alphaSize <= 258 && AllCounted(rfreq, alphaSize, total) && total <= 900001
    ensures |lens| == |rfreq| && CompleteCodes(lens, alphaSize) && AllBuilt(rfreq, lens)
  {
    hide CL.FreqSum, CompleteCode, CL.Built;
    lens := [];
    var t := 0;
    while t < |rfreq|
      invariant 0 <= t <= |rfreq| && |lens| == t && CompleteCodes(lens, alphaSize)
      invariant forall u :: 0 <= u < t ==> CL.Built(rfreq[u], 17, lens[u])
    {
      var len := Rebuild(rfreq[t], alphaSize);
      lens := lens + [len];
      t := t + 1;
    }
  }

  lemma CompleteIsSmall(lens: seq<seq<int>>, alphaSize: nat)
    requires CompleteCodes(lens, alphaSize)
    ensures SmallCosts(lens, alphaSize)
  {
    hide Forest.KraftSum, Pow2;
  }

  // One round: every group goes to its cheapest table, every table is rebuilt from its groups.
  ghost predicate Round(lens: seq<seq<int>>, selector: seq<Byte>, rfreq: seq<seq<int>>, lens': seq<seq<int>>,
                        syms: seq<int>, alphaSize: nat)
    requires Symbols(syms, alphaSize)
  {
    && SmallCosts(lens, alphaSize) && |rfreq| == |lens|
    && Assigned(selector, (|syms| + 49) / 50, lens, syms, alphaSize)
    && Tallied(rfreq, selector, syms, alphaSize, |syms|) && AllBuilt(rfreq, lens')
  }

  // k rounds lead from the seeds to lens'.
  ghost predicate Refined(k: nat, seeds: seq<seq<int>>, lens': seq<seq<int>>, syms: seq<int>, alphaSize: nat)
    requires Symbols(syms, alphaSize)
    decreases k
  {
    if k == 0 then lens' == seeds
    else exists lens, selector, rfreq ::
      Refined(k - 1, seeds, lens, syms, alphaSize) && Round(lens, selector, rfreq, lens', syms, alphaSize)
  }

  // The selectors are those of the fourth round from the seeds, the tables what it made.
  ghost predicate FourRounds(seeds: seq<seq<int>>, selector: seq<Byte>, lens': seq<seq<int>>, syms: seq<int>,
                             alphaSize: nat)
    requires Symbols(syms, alphaSize)
  {
    exists lens, rfreq ::
      Refined(3, seeds, lens, syms, alphaSize) && Round(lens, selector, rfreq, lens', syms, alphaSize)
  }

  /** These tables and selectors come of four rounds from seeds that cut the alphabet by these frequencies. */
  ghost predicate ChosenBy(freq: seq<int>, syms: seq<int>, alphaSize: nat, lens: seq<seq<int>>, sel: seq<int>) {
    && Symbols(syms, alphaSize) && |sel| == (|syms| + 49) / 50
    && exists seeds, selector: seq<Byte> ::
         Seeded(seeds, freq, alphaSize, GroupCount(|syms|), |syms|)
         && FourRounds(seeds, selector, lens, syms, alphaSize)
         && |sel| <= |selector| && sel == selector[..|sel|]
  }

  lemma MakeChosenBy(freq: seq<int>, syms: seq<int>, alphaSize: nat, lens: seq<seq<int>>, selector: seq<Byte>,
                     sel: seq<int>, seeds: seq<seq<int>>)
    requires Symbols(syms, alphaSize) && Seeded(seeds, freq, alphaSize, GroupCount(|syms|), |syms|)
    requires FourRounds(seeds, selector, lens, syms, alphaSize)
    requires |sel| == (|syms| + 49) / 50 <= |selector| && sel == selector[..|sel|]
    ensures ChosenBy(freq, syms, alphaSize, lens, sel)
  {
    hide Seeded, FourRounds, Symbols, GroupCount;
  }

  lemma RefinedMore(k: nat, seeds: seq<seq<int>>, lens: seq<seq<int>>, selector: seq<Byte>, rfreq: seq<seq<int>>,
                    lens': seq<seq<int>>, syms: seq<int>, alphaSize: nat)
    requires Symbols(syms, alphaSize)
    requires Refined(k, seeds, lens, syms, alphaSize) && Round(lens, selector, rfreq, lens', syms, alphaSize)
    ensures Refined(k + 1, seeds, lens', syms, alphaSize)
    ensures k == 3 ==> FourRounds(seeds, selector, lens', syms, alphaSize)
  {
    hide Round;
  }

  lemma RoundNow(lens: seq<seq<int>>, selector: seq<Byte>, rfreq: seq<seq<int>>, lens': seq<seq<int>>,
                 syms: seq<int>, alphaSize: nat)
    requires Symbols(syms, alphaSize) && SmallCosts(lens, alphaSize) && |rfreq| == |lens|
    requires Assigned(selector, (|syms| + 49) / 50, lens, syms, alphaSize)
    requires Tallied(rfreq, selector, syms, alphaSize, |syms|) && AllBuilt(rfreq, lens')
    ensures Round(lens, selector, rfreq, lens', syms, alphaSize)
  {
    hide Assigned, Tallied, AllBuilt, SmallCosts, Symbols;
  }

  lemma NotRefined(seeds: seq<seq<int>>, syms: seq<int>, alphaSize: nat)
    requires Symbols(syms, alphaSize)
    ensures Refined(0, seeds, seeds, syms, alphaSize)
  {
  }

  /** Whatever the symbols, the tables chosen are complete codes of lengths 1 .. 17 and there is one
      selector, naming a table, for every group of 50; both are those of the fourth round from seeds
      that cut the alphabet into segments of about equal frequency. */
  method ChooseTables(mtfv: array<UInt16>, nMTF: nat, mtfFreq: array<int>, alphaSize: nat, selector: array<Byte>,
                      ghost syms: seq<int>)
    returns (lens: seq<seq<int>>, nSelectors: nat)
    requires nMTF <= mtfv.Length && syms == mtfv[..nMTF] && Symbols(syms, alphaSize) && nMTF <= 900001
    requires 2 <= alphaSize <= 258 && alphaSize <= mtfFreq.Length && selector.Length == 18002
      && selector != mtfv as object
    modifies selector
    ensures |lens| == GroupCount(nMTF) && CompleteCodes(lens, alphaSize)
    ensures nSelectors == (nMTF + 49) / 50 <= 18001 && Selected(selector[..], nSelectors, |lens|)
    ensures exists seeds ::
      Seeded(seeds, old(mtfFreq[..]), alphaSize, GroupCount(nMTF), nMTF)
      && FourRounds(seeds, selector[..], lens, syms, alphaSize)
  {
    hide *;
    var nGroups := GroupCount(nMTF);
    lens := Seed(nGroups, nMTF, mtfFreq, alphaSize);
    ghost var seeds := lens;
    NotRefined(seeds, syms, alphaSize);
    nSelectors := 0;
    var iter := 0;
    while iter < 4
      invariant 0 <= iter <= 4 && |lens| == nGroups && SmallCosts(lens, alphaSize)
      invariant 0 < iter ==> CompleteCodes(lens, alphaSize)
      invariant Refined(iter, seeds, lens, syms, alphaSize)
      invariant iter == 4 ==> FourRounds(seeds, selector[..], lens, syms, alphaSize)
      invariant 0 < iter ==> nSelectors == (nMTF + 49) / 50 <= 18001 && Selected(selector[..], nSelectors, |lens|)
    {
      ghost var before := lens;
      var rfreq;
      nSelectors, rfreq := AssignGroups(lens, mtfv, nMTF, selector, alphaSize, syms);
      lens := RebuildAll(rfreq, alphaSize, nMTF);
      RoundNow(before, selector[..], rfreq, lens, syms, alphaSize);
      RefinedMore(iter, seeds, before, selector[..], rfreq, lens, syms, alphaSize);
      CompleteIsSmall(lens, alphaSize);
      iter := iter + 1;
    }
  }
}
