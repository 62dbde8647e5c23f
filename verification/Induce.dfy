/**
 The final induced-sorting scans of libsais: from the sorted LMS suffixes in their
 buckets, one scan to the right places the L suffixes and one to the left the rest.
 */
module Induce {
  import opened Bits
  import opened Suffixes

  // ----- marked 32-bit entries: the sign bit says "nothing to induce here"

  const TOP_BIT: int := 0x8000_0000

  // p | SAINT_MIN for a plain index
  function Marked(p: int, mark: bool): int { if mark then p - TOP_BIT else p }

  // x ^ SAINT_MIN
  function Toggled(x: int): int { if x >= 0 then x - TOP_BIT else x + TOP_BIT }

  // x & SAINT_MAX
  function Masked(x: int): int { if x < 0 then x + TOP_BIT else x }

  // What a rightward scan stores for suffix q: marked when the suffix before it is S.
  function LEntry(t: seq<Byte>, q: int): int
    requires 0 <= q < |t|
  {
    Marked(q, q > 0 && t[q - 1] < t[q])
  }

  // What a leftward scan stores for suffix q: marked when the suffix before it is L.
  function SEntry(t: seq<Byte>, q: int): int
    requires 0 <= q < |t|
  {
    Marked(q, q > 0 && t[q - 1] > t[q])
  }

  // ----- the setting

  // A text, its suffix array, the ranks, and the sorted LMS suffixes in their slots.
  datatype Setting = Setting(t: seq<Byte>, sa: seq<int>, rank: seq<int>, start: seq<int>, slot: seq<int>)

  ghost predicate Proper(g: Setting) {
    && 2 <= |g.t| < TOP_BIT && IsSuffixArray(g.t, g.sa) && Ranks(g.sa, g.rank)
    && |g.start| == |g.t| && |g.slot| == |g.t|
  }

  // Position k belongs to the L part of its bucket.
  predicate LPos(g: Setting, k: int)
    requires 0 <= k < |g.sa| && 0 <= g.sa[k] < |g.t|
  {
    IsL(g.t, g.sa[k])
  }

  predicate InText(g: Setting) {
    |g.sa| == |g.t| == |g.rank| == |g.start| == |g.slot|
    && (forall k :: 0 <= k < |g.sa| ==> 0 <= g.sa[k] < |g.t|)
    && (forall k :: 0 <= k < |g.t| ==> 0 <= g.rank[k] < |g.t|)
  }

  // The LMS suffixes sit, sorted, in the S parts of their buckets; all else is 0.
  ghost predicate LmsPlaced(g: Setting)
    requires InText(g)
  {
    && (forall i {:trigger g.start[i]} :: 0 <= i < |g.t| ==> g.start[i] == 0 || SlotOf(g, i, g.start[i]))
    && (forall q {:trigger g.slot[q]} :: 0 <= q < |g.t| && IsLms(g.t, q) ==>
        0 <= g.slot[q] < |g.t| && g.start[g.slot[q]] == q)
    && (forall i, j {:trigger g.start[i], g.start[j]} :: 0 <= i < j < |g.t| && g.start[i] != 0 && g.start[j] != 0 ==>
          RankBefore(g, g.start[i], g.start[j]))
  }

  ghost predicate SlotOf(g: Setting, i: int, q: int)
    requires InText(g) && 0 <= i < |g.t|
  {
    0 <= q < |g.t| && IsLms(g.t, q) && !LPos(g, i) && g.t[g.sa[i]] == g.t[q] && g.slot[q] == i
  }

  ghost predicate RankBefore(g: Setting, p: int, q: int)
    requires InText(g)
  {
    0 <= p < |g.t| && 0 <= q < |g.t| && g.rank[p] < g.rank[q]
  }

  // ----- the scan to the right

  // Where the scan meets suffix q (an L suffix or an LMS suffix).
  function Met(g: Setting, q: int): int
    requires InText(g) && 0 <= q < |g.t|
  {
    if IsL(g.t, q) then g.rank[q] else g.slot[q]
  }

  // L suffix q has been written once positions below i are scanned.
  predicate Placed(g: Setting, q: int, i: int)
    requires InText(g) && 0 <= q < |g.t|
  {
    q == |g.t| - 1 || Met(g, q + 1) < i
  }

  // The next suffix of an L suffix is met before it.
  lemma MetBefore(g: Setting, q: int)
    requires Proper(g) && InText(g) && LmsPlaced(g) && 0 <= q < |g.t| - 1 && IsL(g.t, q)
    ensures 0 <= Met(g, q + 1) < g.rank[q] < |g.t|
  {
    hide IsSuffixArray;
    TypeRank(g.t, g.sa, g.rank, q);
    if !IsL(g.t, q + 1) {
      assert IsLms(g.t, q + 1);
      var s := g.slot[q + 1];
      assert SlotOf(g, s, g.start[s]);
      FirstByteOrder(g.t, g.sa, g.rank, g.rank[q], s);
    }
  }

  // L and LMS suffixes are met in suffix order.
  lemma MetMono(g: Setting, p: int, q: int)
    requires Proper(g) && InText(g) && LmsPlaced(g) && 0 <= p < |g.t| && 0 <= q < |g.t| && g.rank[p] < g.rank[q]
    requires (IsL(g.t, p) || IsLms(g.t, p)) && (IsL(g.t, q) || IsLms(g.t, q))
    ensures 0 <= Met(g, p) < Met(g, q) < |g.t|
  {
    hide IsSuffixArray;
    var i, j := Met(g, p), Met(g, q);
    MetBucket(g, p);
    MetBucket(g, q);
    if j <= i {
      FirstByteOrder(g.t, g.sa, g.rank, j, i);
      RankStep(g.t, g.sa, g.rank, q, p);
      // both in one bucket
      assert g.t[p] == g.t[q];
      if IsL(g.t, p) && !IsL(g.t, q) {
        LBeforeS(g.t, g.sa, g.rank, p, g.sa[j]);
      } else if !IsL(g.t, p) && IsL(g.t, q) {
        LBeforeS(g.t, g.sa, g.rank, q, p);
      }
    }
  }

  lemma MetBucket(g: Setting, q: int)
    requires Proper(g) && InText(g) && LmsPlaced(g) && 0 <= q < |g.t| && (IsL(g.t, q) || IsLms(g.t, q))
    ensures 0 <= Met(g, q) < |g.t| && g.t[g.sa[Met(g, q)]] == g.t[q] && (LPos(g, Met(g, q)) <==> IsL(g.t, q))
    ensures !IsL(g.t, q) ==> g.start[Met(g, q)] == q
  {
    hide IsSuffixArray;
    if !IsL(g.t, q) {
      var s := g.slot[q];
      assert SlotOf(g, s, g.start[s]);
    }
  }

  // Bucket c has no position before x and x is not yet past the L suffixes placed.
  ghost predicate Bound(g: Setting, c: int, x: int)
    requires InText(g)
  {
    0 <= x && forall k {:trigger g.sa[k]} :: x <= k < |g.t| ==> c <= g.t[g.sa[k]]
  }

  // The array a and the bucket pointers ib once positions below i are scanned.
  ghost predicate Rightward(g: Setting, a: seq<int>, ib: seq<int>, i: int) {
    && Proper(g) && InText(g) && LmsPlaced(g) && |a| == |g.t| && |ib| == 256 && 0 <= i <= |g.t|
    && (forall c {:trigger ib[c]} :: 0 <= c < 256 ==> Bound(g, c, ib[c]))
    && (forall k {:trigger RightAt(g, a, ib, i, k)} :: 0 <= k < |g.t| ==> RightAt(g, a, ib, i, k))
  }

  ghost predicate RightAt(g: Setting, a: seq<int>, ib: seq<int>, i: int, k: int)
    requires InText(g) && |a| == |g.t| && |ib| == 256 && 0 <= k < |g.t|
  {
    var q := g.sa[k];
    if LPos(g, k) then
      && (Placed(g, q, i) <==> k < ib[g.t[q]])
      && (Placed(g, q, i) ==> a[k] == if k < i then Toggled(LEntry(g.t, q)) else LEntry(g.t, q))
    else
      i <= k ==> a[k] == g.start[k]
  }

  // The bucket pointers point at the first position of each bucket.
  ghost predicate BucketStarts(g: Setting, ib: seq<int>)
    requires InText(g)
  {
    && |ib| == 256 && (forall c {:trigger ib[c]} :: 0 <= c < 256 ==> 0 <= ib[c])
    && forall c, k {:trigger ib[c], g.sa[k]} :: 0 <= c < 256 && 0 <= k < |g.t| ==> (k < ib[c] <==> g.t[g.sa[k]] < c)
  }

  // The last suffix is the first of its bucket.
  lemma LastFirst(g: Setting, ib: seq<int>)
    requires Proper(g) && InText(g) && BucketStarts(g, ib)
    ensures g.rank[|g.t| - 1] == ib[g.t[|g.t| - 1]] && IsL(g.t, |g.t| - 1)
  {
    hide IsSuffixArray;
    var n := |g.t|;
    var c := g.t[n - 1];
    var r := g.rank[n - 1];
    assert g.sa[r] == n - 1;
    assert !(r < ib[c]);
    if ib[c] < r {
      FirstByteOrder(g.t, g.sa, g.rank, ib[c], r);
      assert g.t[g.sa[ib[c]]] == c;
      RankStep(g.t, g.sa, g.rank, n - 1, g.sa[ib[c]]);
    }
  }

  /** Before the scan: only the last suffix is placed. */
  lemma RightStart(g: Setting, ib: seq<int>)
    requires Proper(g) && InText(g) && LmsPlaced(g) && BucketStarts(g, ib)
    requires forall i :: 0 <= i < |g.t| && LPos(g, i) ==> g.start[i] == 0
    ensures var n := |g.t|; var c := g.t[n - 1];
      && 0 <= ib[c] < n && Rightward(g, g.start[ib[c] := LEntry(g.t, n - 1)], ib[c := ib[c] + 1], 0)
  {
    hide IsSuffixArray, IsL;
    LastFirst(g, ib);
    var n := |g.t|;
    var c := g.t[n - 1];
    var a, ib' := g.start[ib[c] := LEntry(g.t, n - 1)], ib[c := ib[c] + 1];
    forall d {:trigger ib'[d]} | 0 <= d < 256
      ensures Bound(g, d, ib'[d])
    {
      forall k {:trigger g.sa[k]} | ib'[d] <= k < n
        ensures d <= g.t[g.sa[k]]
      {
        assert !(k < ib[d]);
      }
      assert 0 <= ib[d];
    }
    forall k {:trigger RightAt(g, a, ib', 0, k)} | 0 <= k < n
      ensures RightAt(g, a, ib', 0, k)
    {
      RightStartAt(g, ib, k);
    }
    RightStartAt(g, ib, 0);
  }

  lemma RightStartAt(g: Setting, ib: seq<int>, k: int)
    requires Proper(g) && InText(g) && LmsPlaced(g) && BucketStarts(g, ib) && 0 <= k < |g.t|
    requires g.rank[|g.t| - 1] == ib[g.t[|g.t| - 1]]
    ensures var n := |g.t|; var c := g.t[n - 1];
      && 0 <= ib[c] < n && RightAt(g, g.start[ib[c] := LEntry(g.t, n - 1)], ib[c := ib[c] + 1], 0, k)
  {
    hide IsSuffixArray;
    var q := g.sa[k];
    var n := |g.t|;
    assert g.rank[q] == k;
    if IsL(g.t, q) && q != n - 1 {
      MetBefore(g, q);
      assert !(k < ib[g.t[q]]);
    }
  }

  // The L suffix met through position i is not yet placed, and its bucket pointer is its rank.
  lemma RightTarget(g: Setting, a: seq<int>, ib: seq<int>, i: int, p: int)
    requires Rightward(g, a, ib, i) && InText(g) && i < |g.t| && 0 < p < |g.t| && Met(g, p) == i
    requires (IsL(g.t, p) || IsLms(g.t, p)) && IsL(g.t, p - 1)
    ensures |ib| == 256 && i < ib[g.t[p - 1]] == g.rank[p - 1] < |g.t|
  {
    hide IsSuffixArray, LmsPlaced;
    var j := p - 1;
    var c, r := g.t[j], g.rank[j];
    MetBefore(g, j);
    assert RightAt(g, a, ib, i, r);
    assert LPos(g, r) && !Placed(g, j, i);
    var k := ib[c];
    assert Bound(g, c, k);
    if k < r {
      FirstByteOrder(g.t, g.sa, g.rank, k, r);
      var j' := g.sa[k];
      assert g.t[j'] == c && g.rank[j'] == k;
      if !IsL(g.t, j') { LBeforeS(g.t, g.sa, g.rank, j, j'); }
      assert RightAt(g, a, ib, i, k);
      assert !Placed(g, j', i);
      RankStep(g.t, g.sa, g.rank, j', j);
      RankStep(g.t, g.sa, g.rank, j, j');
      TypeAfterL(g.t, j');
      MetMono(g, j' + 1, p);
    }
  }

  // After an L suffix comes an L or an LMS suffix.
  lemma TypeAfterL(t: seq<Byte>, q: int)
    requires 0 <= q < |t| - 1 && IsL(t, q)
    ensures IsL(t, q + 1) || IsLms(t, q + 1)
  {
  }

  // What the scan finds at position i: a placed L suffix, an LMS suffix, or nothing.
  lemma RightVisit(g: Setting, a: seq<int>, ib: seq<int>, i: int)
    requires Rightward(g, a, ib, i) && InText(g) && 0 <= i < |g.t| == |a|
    ensures var q := g.sa[i];
      if LPos(g, i) then a[i] == LEntry(g.t, q) && Met(g, q) == i
      else a[i] == 0 || (0 < a[i] < |g.t| && IsLms(g.t, a[i]) && Met(g, a[i]) == i)
  {
    hide IsSuffixArray;
    var q := g.sa[i];
    assert RightAt(g, a, ib, i, i);
    if LPos(g, i) {
      if q != |g.t| - 1 { MetBefore(g, q); }
    } else if a[i] != 0 {
      assert SlotOf(g, i, g.start[i]);
    }
  }

  // p - 1 is an L suffix exactly when the entry of p is not marked.
  lemma UnmarkedL(t: seq<Byte>, p: int)
    requires 0 < p < |t|
    ensures IsL(t, p) ==> (IsL(t, p - 1) <==> t[p - 1] >= t[p])
    ensures IsLms(t, p) ==> IsL(t, p - 1) && t[p - 1] > t[p]
    ensures !IsL(t, p) ==> (IsL(t, p - 1) <==> t[p - 1] > t[p])
  {
  }

  // Suffix j is the one placed by scanning position i.
  predicate PlacedBy(g: Setting, i: int, p: int)
    requires InText(g)
  {
    0 < p < |g.t| && IsL(g.t, p - 1) && Met(g, p) == i
  }

  // Two suffixes are not met at one place.
  lemma MetInjective(g: Setting, p: int, q: int)
    requires Proper(g) && InText(g) && LmsPlaced(g) && 0 <= p < |g.t| && 0 <= q < |g.t| && Met(g, p) == Met(g, q)
    requires (IsL(g.t, p) || IsLms(g.t, p)) && (IsL(g.t, q) || IsLms(g.t, q))
    ensures p == q
  {
    hide IsSuffixArray, LmsPlaced;
    if g.rank[p] < g.rank[q] {
      MetMono(g, p, q);
    } else if g.rank[q] < g.rank[p] {
      MetMono(g, q, p);
    } else {
      assert g.sa[g.rank[p]] == p && g.sa[g.rank[q]] == q;
    }
  }

  // One step that places p - 1.
  lemma RightInduces(g: Setting, a: seq<int>, ib: seq<int>, i: int, p: int)
    requires Rightward(g, a, ib, i) && InText(g) && 0 <= i < |g.t| == |a| && PlacedBy(g, i, p)
      && (IsL(g.t, p) || IsLms(g.t, p))
    requires |ib| == 256 && ib[g.t[p - 1]] == g.rank[p - 1] && i < g.rank[p - 1]
    requires LPos(g, i) ==> a[i] == LEntry(g.t, g.sa[i])
    ensures var c := g.t[p - 1];
      Rightward(g, a[i := Toggled(a[i])][ib[c] := LEntry(g.t, p - 1)], ib[c := ib[c] + 1], i + 1)
  {
    hide IsSuffixArray, LmsPlaced;
    var c := g.t[p - 1];
    var a', ib' := a[i := Toggled(a[i])][ib[c] := LEntry(g.t, p - 1)], ib[c := ib[c] + 1];
    forall d {:trigger ib'[d]} | 0 <= d < 256
      ensures Bound(g, d, ib'[d])
    {
      assert Bound(g, d, ib[d]);
    }
    forall k {:trigger RightAt(g, a', ib', i + 1, k)} | 0 <= k < |g.t|
      ensures RightAt(g, a', ib', i + 1, k)
    {
      RightInducesAt(g, a, ib, i, p, k);
    }
  }

  lemma RightInducesAt(g: Setting, a: seq<int>, ib: seq<int>, i: int, p: int, k: int)
    requires Rightward(g, a, ib, i) && InText(g) && 0 <= i < |g.t| == |a| && PlacedBy(g, i, p)
      && (IsL(g.t, p) || IsLms(g.t, p))
    requires |ib| == 256 && ib[g.t[p - 1]] == g.rank[p - 1] && i < g.rank[p - 1] && 0 <= k < |g.t|
    requires LPos(g, i) ==> a[i] == LEntry(g.t, g.sa[i])
    ensures var c := g.t[p - 1];
      RightAt(g, a[i := Toggled(a[i])][ib[c] := LEntry(g.t, p - 1)], ib[c := ib[c] + 1], i + 1, k)
  {
    hide IsSuffixArray, LmsPlaced, Bound, LEntry, IsL;
    var q := g.sa[k];
    assert g.rank[q] == k;
    assert RightAt(g, a, ib, i, k);
    if IsL(g.t, q) {
      if q != |g.t| - 1 {
        MetBefore(g, q);
        TypeAfterL(g.t, q);
        if Met(g, q + 1) == i { MetInjective(g, q + 1, p); }
      }
    } else {
      assert IsL(g.t, p - 1) && g.sa[g.rank[p - 1]] == p - 1;
    }
  }

  // One step that places nothing.
  lemma RightSkips(g: Setting, a: seq<int>, ib: seq<int>, i: int)
    requires Rightward(g, a, ib, i) && InText(g) && 0 <= i < |g.t| == |a|
    requires forall p :: 0 < p < |g.t| ==> !PlacedBy(g, i, p)
    requires LPos(g, i) ==> a[i] == LEntry(g.t, g.sa[i])
    ensures Rightward(g, a[i := Toggled(a[i])], ib, i + 1)
  {
    hide IsSuffixArray, LmsPlaced;
    var a' := a[i := Toggled(a[i])];
    forall k {:trigger RightAt(g, a', ib, i + 1, k)} | 0 <= k < |g.t|
      ensures RightAt(g, a', ib, i + 1, k)
    {
      assert RightAt(g, a, ib, i, k);
      var q := g.sa[k];
      assert g.rank[q] == k;
      if IsL(g.t, q) && q != |g.t| - 1 {
        MetBefore(g, q);
        assert !PlacedBy(g, i, q + 1);
      }
    }
  }

  // Scanning a position with nothing to its left to place.
  lemma RightIdle(g: Setting, a: seq<int>, ib: seq<int>, i: int)
    requires Rightward(g, a, ib, i) && InText(g) && 0 <= i < |g.t| == |a| && a[i] <= 0
    ensures forall p :: 0 < p < |g.t| ==> !PlacedBy(g, i, p)
    ensures LPos(g, i) ==> a[i] == LEntry(g.t, g.sa[i])
  {
    hide IsSuffixArray, LmsPlaced;
    RightVisit(g, a, ib, i);
    var q := g.sa[i];
    assert RightAt(g, a, ib, i, i);
    forall p | 0 < p < |g.t|
      ensures !PlacedBy(g, i, p)
    {
      if PlacedBy(g, i, p) {
        TypeAfterL(g.t, p - 1);
        MetBucket(g, p);
        if LPos(g, i) {
          assert p == q;
          UnmarkedL(g.t, q);
        }
      }
    }
  }

  // Scanning a position whose left neighbour in the text is to be placed.
  lemma RightBusy(g: Setting, a: seq<int>, ib: seq<int>, i: int)
    requires Rightward(g, a, ib, i) && InText(g) && 0 <= i < |g.t| == |a| && a[i] > 0
    ensures a[i] < |g.t| && PlacedBy(g, i, a[i]) && (IsL(g.t, a[i]) || IsLms(g.t, a[i]))
    ensures LPos(g, i) ==> a[i] == LEntry(g.t, g.sa[i])
  {
    hide IsSuffixArray, LmsPlaced;
    RightVisit(g, a, ib, i);
    var q := g.sa[i];
    if LPos(g, i) {
      assert a[i] == q;
      UnmarkedL(g.t, q);
    } else {
      UnmarkedL(g.t, a[i]);
    }
  }

  lemma RightwardFacts(g: Setting, a: seq<int>, ib: seq<int>, i: int)
    requires Rightward(g, a, ib, i)
    ensures InText(g) && |a| == |g.t| && |ib| == 256 && Proper(g)
  {
  }

  // libsais_final_sorting_scan_left_to_right_8u
  method ScanRight(t: array<Byte>, sa: array<int>, ib: array<int>, n: nat, ghost g: Setting)
    requires t.Length == n == sa.Length && ib.Length == 256 && sa != ib && t as object != sa && t as object != ib
      && t[..] == g.t
    requires Rightward(g, sa[..], ib[..], 0)
    modifies sa, ib
    ensures Rightward(g, sa[..], ib[..], n)
  {
    hide *;
    var i := 0;
    while i < n
      invariant 0 <= i <= n && t[..] == g.t && Rightward(g, sa[..], ib[..], i)
    {
      ghost var a, b := sa[..], ib[..];
      RightwardFacts(g, a, b, i);
      var p := sa[i];
      sa[i] := Toggled(p);
      if p > 0 {
        RightBusy(g, a, b, i);
        PlacedByFacts(g, i, p);
        RightTarget(g, a, b, i, p);
        RightInduces(g, a, b, i, p);
        p := p - 1;
        var c := t[p];
        EntryOf(g.t, p);
        sa[ib[c]] := Marked(p, t[if p > 0 then p - 1 else p] < t[p]);
        ib[c] := ib[c] + 1;
        assert sa[..] == a[i := Toggled(a[i])][b[c] := LEntry(g.t, p)];
        assert ib[..] == b[c := b[c] + 1];
      } else {
        RightIdle(g, a, b, i);
        RightSkips(g, a, b, i);
        assert sa[..] == a[i := Toggled(a[i])];
        assert ib[..] == b;
      }
      i := i + 1;
    }
  }

  lemma PlacedByFacts(g: Setting, i: int, p: int)
    requires InText(g) && PlacedBy(g, i, p)
    ensures 0 < p < |g.t| && IsL(g.t, p - 1) && Met(g, p) == i && |g.rank| == |g.t|
  {
  }

  lemma EntryOf(t: seq<Byte>, p: int)
    requires 0 <= p < |t|
    ensures LEntry(t, p) == Marked(p, t[if p > 0 then p - 1 else p] < t[p])
    ensures SEntry(t, p) == Marked(p, t[if p > 0 then p - 1 else p] > t[p])
  {
  }

  // ----- the scan to the left

  // S suffix q has been written once positions above i are scanned.
  predicate PlacedS(g: Setting, q: int, i: int)
    requires InText(g) && 0 <= q < |g.t|
  {
    q + 1 < |g.t| && g.rank[q + 1] > i
  }

  ghost predicate BoundS(g: Setting, c: int, x: int)
    requires InText(g)
  {
    x <= |g.t| && forall k {:trigger g.sa[k]} :: 0 <= k < x && k < |g.t| ==> g.t[g.sa[k]] <= c
  }

  ghost predicate LeftAt(g: Setting, a: seq<int>, ib: seq<int>, i: int, k: int)
    requires InText(g) && |a| == |g.t| && |ib| == 256 && 0 <= k < |g.t|
  {
    var q := g.sa[k];
    && (i < k ==> a[k] == q)
    && (if LPos(g, k) then k <= i ==> a[k] == Toggled(LEntry(g.t, q))
        else (PlacedS(g, q, i) <==> ib[g.t[q]] <= k) && (k <= i && PlacedS(g, q, i) ==> a[k] == SEntry(g.t, q)))
  }

  // The array a and the bucket pointers ib once positions above i are scanned.
  ghost predicate Leftward(g: Setting, a: seq<int>, ib: seq<int>, i: int) {
    && Proper(g) && InText(g) && |a| == |g.t| && |ib| == 256 && -1 <= i < |g.t|
    && (forall c {:trigger ib[c]} :: 0 <= c < 256 ==> BoundS(g, c, ib[c]))
    && (forall k {:trigger LeftAt(g, a, ib, i, k)} :: 0 <= k < |g.t| ==> LeftAt(g, a, ib, i, k))
  }

  // The bucket pointers point one past the last position of each bucket.
  ghost predicate BucketEnds(g: Setting, ib: seq<int>)
    requires InText(g)
  {
    && |ib| == 256 && (forall c {:trigger ib[c]} :: 0 <= c < 256 ==> ib[c] <= |g.t|)
    && forall c, k {:trigger ib[c], g.sa[k]} :: 0 <= c < 256 && 0 <= k < |g.t| ==> (k < ib[c] <==> g.t[g.sa[k]] <= c)
  }

  lemma LeftStartAt(g: Setting, a: seq<int>, ib0: seq<int>, ib: seq<int>, k: int)
    requires Rightward(g, a, ib0, |g.t|) && InText(g) && BucketEnds(g, ib) && 0 <= k < |g.t| == |a|
    ensures LeftAt(g, a, ib, |g.t| - 1, k)
  {
    hide IsSuffixArray, LmsPlaced;
    var n := |g.t|;
    assert RightAt(g, a, ib0, n, k);
    var q := g.sa[k];
    if IsL(g.t, q) && q != n - 1 { MetBefore(g, q); }
    assert k < ib[g.t[q]];
  }

  lemma EndBound(g: Setting, ib: seq<int>, d: int)
    requires InText(g) && BucketEnds(g, ib) && 0 <= d < 256
    ensures BoundS(g, d, ib[d])
  {
  }

  lemma LeftStart(g: Setting, a: seq<int>, ib0: seq<int>, ib: seq<int>)
    requires Rightward(g, a, ib0, |g.t|) && InText(g) && BucketEnds(g, ib)
    ensures Leftward(g, a, ib, |g.t| - 1)
  {
    hide IsSuffixArray, LmsPlaced, RightAt, LeftAt, BoundS, Bound, InText;
    RightwardFacts(g, a, ib0, |g.t|);
    forall d {:trigger ib[d]} | 0 <= d < 256
      ensures BoundS(g, d, ib[d])
    {
      EndBound(g, ib, d);
    }
    forall k {:trigger LeftAt(g, a, ib, |g.t| - 1, k)} | 0 <= k < |g.t|
      ensures LeftAt(g, a, ib, |g.t| - 1, k)
    {
      LeftStartAt(g, a, ib0, ib, k);
    }
  }

  lemma {:induction false} SNotLast(t: seq<Byte>, q: int)
    requires 0 <= q < |t| && !IsL(t, q)
    ensures q + 1 < |t|
  {
  }

  lemma LeftVisit(g: Setting, a: seq<int>, ib: seq<int>, i: int)
    requires Leftward(g, a, ib, i) && InText(g) && 0 <= i < |g.t| == |a|
    ensures a[i] == (if LPos(g, i) then Toggled(LEntry(g.t, g.sa[i])) else SEntry(g.t, g.sa[i]))
    ensures Masked(a[i]) == g.sa[i]
    ensures a[i] > 0 ==> a[i] == g.sa[i]
    ensures a[i] > 0 <==> (0 < g.sa[i] && !IsL(g.t, g.sa[i] - 1))
  {
    hide IsSuffixArray;
    var q := g.sa[i];
    assert LeftAt(g, a, ib, i, i);
    if !LPos(g, i) { TypeRank(g.t, g.sa, g.rank, q); RankDistinct(g.sa, g.rank, q, q + 1); }
  }

  lemma LeftTarget(g: Setting, a: seq<int>, ib: seq<int>, i: int)
    requires Leftward(g, a, ib, i) && InText(g) && 0 <= i < |g.t| == |a| && 0 < g.sa[i] && !IsL(g.t, g.sa[i] - 1)
    ensures |ib| == 256 && 0 <= ib[g.t[g.sa[i] - 1]] - 1 == g.rank[g.sa[i] - 1] < i
  {
    hide IsSuffixArray;
    var p := g.sa[i];
    var j := p - 1;
    var c, r := g.t[j], g.rank[j];
    TypeRank(g.t, g.sa, g.rank, j);
    RankDistinct(g.sa, g.rank, j, p);
    assert LeftAt(g, a, ib, i, r);
    assert g.sa[r] == j && r < ib[c];
    var k := ib[c] - 1;
    assert BoundS(g, c, ib[c]);
    if r < k {
      FirstByteOrder(g.t, g.sa, g.rank, r, k);
      var j' := g.sa[k];
      assert g.t[j'] == c && g.rank[j'] == k;
      if IsL(g.t, j') { LBeforeS(g.t, g.sa, g.rank, j', j); }
      SNotLast(g.t, j');
      assert LeftAt(g, a, ib, i, k);
      RankStep(g.t, g.sa, g.rank, j, j');
      RankStep(g.t, g.sa, g.rank, j', j);
      RankDistinct(g.sa, g.rank, j', j);
    }
  }

  lemma LeftInducesAt(g: Setting, a: seq<int>, ib: seq<int>, i: int, k: int)
    requires Leftward(g, a, ib, i) && InText(g) && 0 <= i < |g.t| == |a| && 0 < g.sa[i] && !IsL(g.t, g.sa[i] - 1)
    requires |ib| == 256 && 0 <= ib[g.t[g.sa[i] - 1]] - 1 == g.rank[g.sa[i] - 1] < i && 0 <= k < |g.t|
      && Masked(a[i]) == g.sa[i]
    ensures var j := g.sa[i] - 1; var c := g.t[j];
      LeftAt(g, a[i := Masked(a[i])][ib[c] - 1 := SEntry(g.t, j)], ib[c := ib[c] - 1], i - 1, k)
  {
    hide IsSuffixArray;
    var q, j := g.sa[k], g.sa[i] - 1;
    assert g.rank[q] == k && g.rank[j + 1] == i && g.sa[g.rank[j]] == j;
    assert LeftAt(g, a, ib, i, k);
    if !IsL(g.t, q) {
      SNotLast(g.t, q);
      if g.rank[q + 1] == i { assert g.sa[g.rank[q + 1]] == q + 1; }
    }
  }

  lemma LeftInduces(g: Setting, a: seq<int>, ib: seq<int>, i: int)
    requires Leftward(g, a, ib, i) && InText(g) && 0 <= i < |g.t| == |a| && 0 < g.sa[i] && !IsL(g.t, g.sa[i] - 1)
    requires |ib| == 256 && 0 <= ib[g.t[g.sa[i] - 1]] - 1 == g.rank[g.sa[i] - 1] < i && Masked(a[i]) == g.sa[i]
    ensures var j := g.sa[i] - 1; var c := g.t[j];
      Leftward(g, a[i := Masked(a[i])][ib[c] - 1 := SEntry(g.t, j)], ib[c := ib[c] - 1], i - 1)
  {
    hide IsSuffixArray;
    var j := g.sa[i] - 1;
    var c := g.t[j];
    var a', ib' := a[i := Masked(a[i])][ib[c] - 1 := SEntry(g.t, j)], ib[c := ib[c] - 1];
    forall d {:trigger ib'[d]} | 0 <= d < 256
      ensures BoundS(g, d, ib'[d])
    {
      assert BoundS(g, d, ib[d]);
    }
    forall k {:trigger LeftAt(g, a', ib', i - 1, k)} | 0 <= k < |g.t|
      ensures LeftAt(g, a', ib', i - 1, k)
    {
      LeftInducesAt(g, a, ib, i, k);
    }
  }

  lemma LeftSkips(g: Setting, a: seq<int>, ib: seq<int>, i: int)
    requires Leftward(g, a, ib, i) && InText(g) && 0 <= i < |g.t| == |a| && !(0 < g.sa[i] && !IsL(g.t, g.sa[i] - 1))
    requires Masked(a[i]) == g.sa[i]
    ensures Leftward(g, a[i := Masked(a[i])], ib, i - 1)
  {
    hide IsSuffixArray;
    var a' := a[i := Masked(a[i])];
    forall k {:trigger LeftAt(g, a', ib, i - 1, k)} | 0 <= k < |g.t|
      ensures LeftAt(g, a', ib, i - 1, k)
    {
      assert LeftAt(g, a, ib, i, k);
      var q := g.sa[k];
      if !IsL(g.t, q) {
        SNotLast(g.t, q);
        assert g.sa[g.rank[q + 1]] == q + 1;
      }
    }
  }

  lemma LeftwardFacts(g: Setting, a: seq<int>, ib: seq<int>, i: int)
    requires Leftward(g, a, ib, i)
    ensures InText(g) && |a| == |g.t| == |g.sa| && |ib| == 256 && forall k :: 0 <= k < |g.sa| ==> 0 <= g.sa[k] < |g.t|
  {
  }

  // libsais_final_sorting_scan_right_to_left_8u
  method ScanLeft(t: array<Byte>, sa: array<int>, ib: array<int>, n: nat, ghost g: Setting)
    requires t.Length == n == sa.Length && ib.Length == 256 && sa != ib && t as object != sa && t as object != ib
      && t[..] == g.t
    requires Leftward(g, sa[..], ib[..], n - 1)
    modifies sa, ib
    ensures Leftward(g, sa[..], ib[..], -1)
  {
    hide *;
    var i := n - 1;
    while i >= 0
      invariant -1 <= i < n && t[..] == g.t && Leftward(g, sa[..], ib[..], i)
      decreases i
    {
      ghost var a, b := sa[..], ib[..];
      LeftwardFacts(g, a, b, i);
      LeftVisit(g, a, b, i);
      var p := sa[i];
      sa[i] := Masked(p);
      if p > 0 {
        LeftTarget(g, a, b, i);
        LeftInduces(g, a, b, i);
        p := p - 1;
        var c := t[p];
        EntryOf(g.t, p);
        ib[c] := ib[c] - 1;
        sa[ib[c]] := Marked(p, t[if p > 0 then p - 1 else p] > t[p]);
        assert sa[..] == a[i := Masked(a[i])][b[c] - 1 := SEntry(g.t, p)];
        assert ib[..] == b[c := b[c] - 1];
      } else {
        LeftSkips(g, a, b, i);
        assert sa[..] == a[i := Masked(a[i])];
        assert ib[..] == b;
      }
      i := i - 1;
    }
  }

  lemma LeftDone(g: Setting, a: seq<int>, ib: seq<int>)
    requires Leftward(g, a, ib, -1)
    ensures a == g.sa
  {
    hide IsSuffixArray;
    forall k | 0 <= k < |g.t|
      ensures a[k] == g.sa[k]
    {
      assert LeftAt(g, a, ib, -1, k);
    }
  }

  /** libsais_induce_final_order_8u (plain suffix array): from sorted LMS suffixes in their
      buckets and zeros elsewhere, the two scans leave exactly the suffix array. */
  method InduceFinalOrder(t: array<Byte>, sa: array<int>, starts: array<int>, ends: array<int>, n: nat,
                          ghost g: Setting)
    requires t.Length == n == sa.Length && 2 <= n && starts.Length == ends.Length == 256 && starts != ends
      && sa != starts && sa != ends
    requires t as object != sa && t as object != starts && t as object != ends && t[..] == g.t
    requires Proper(g) && InText(g) && LmsPlaced(g) && sa[..] == g.start && BucketStarts(g, starts[..])
      && BucketEnds(g, ends[..])
    modifies sa, starts, ends
    ensures IsSuffixArray(t[..], sa[..])
  {
    hide *;
    ghost var ib := starts[..];
    LNothing(g);
    InTextSizes(g);
    RightStart(g, ib);
    EntryOf(g.t, n - 1);
    var c := t[n - 1];
    sa[starts[c]] := Marked(n - 1, t[n - 2] < t[n - 1]);
    starts[c] := starts[c] + 1;
    assert sa[..] == g.start[ib[c] := LEntry(g.t, n - 1)];
    assert starts[..] == ib[c := ib[c] + 1];
    ScanRight(t, sa, starts, n, g);
    LeftStart(g, sa[..], starts[..], ends[..]);
    ScanLeft(t, sa, ends, n, g);
    LeftDone(g, sa[..], ends[..]);
    ProperSorted(g);
  }

  // L positions are empty before the scans.
  lemma LNothing(g: Setting)
    requires Proper(g) && InText(g) && LmsPlaced(g)
    ensures forall i :: 0 <= i < |g.t| && LPos(g, i) ==> g.start[i] == 0
  {
    hide IsSuffixArray;
    forall i | 0 <= i < |g.t| && LPos(g, i)
      ensures g.start[i] == 0
    {
      assert g.start[i] == 0 || SlotOf(g, i, g.start[i]);
    }
  }

  lemma InTextSizes(g: Setting)
    requires InText(g)
    ensures |g.start| == |g.t| == |g.sa|
  {
  }

  lemma ProperSorted(g: Setting)
    requires Proper(g)
    ensures IsSuffixArray(g.t, g.sa)
  {
  }
}
