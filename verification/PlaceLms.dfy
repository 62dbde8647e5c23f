/**
 The last stage of libsais as a whole: the sorted LMS suffixes at the front of the array
 are moved to the ends of their buckets, in place, and the rest is induced.
 */
module PlaceLms {
  import opened Bits
  import opened Rotations
  import opened Suffixes
  import opened Induce
  import IB = InverseBwt

  // All LMS suffixes of t, in suffix order.
  ghost predicate SortedLms(t: seq<Byte>, lms: seq<int>) {
    && (forall x {:trigger lms[x]} :: 0 <= x < |lms| ==> 0 <= lms[x] < |t| && IsLms(t, lms[x]))
    && (forall x, y {:trigger lms[x], lms[y]} :: 0 <= x < y < |lms| ==> lms[x] != lms[y] && SufLe(t, lms[x], lms[y]))
    && (forall q {:trigger IsLms(t, q)} :: 0 <= q < |t| && IsLms(t, q) ==> q in lms)
  }

  // The bytes the listed suffixes start with.
  function Firsts(t: seq<Byte>, p: seq<int>): (f: seq<Byte>)
    requires forall x :: 0 <= x < |p| ==> 0 <= p[x] < |t|
    ensures |f| == |p| && forall x :: 0 <= x < |p| ==> f[x] == t[p[x]]
  {
    seq(|p|, x requires 0 <= x < |p| => t[p[x]])
  }

  // ----- counting in sorted and in permuted lists

  lemma {:induction false} SortedBelow(f: seq<Byte>, c: int, i: nat)
    requires i <= |f| && forall x, y :: 0 <= x < y < |f| ==> f[x] <= f[y]
    ensures forall x :: 0 <= x < i ==> (x < IB.CountBelow(f, c, i) <==> f[x] < c)
    decreases i
  {
    if i != 0 {
      SortedBelow(f, c, i - 1);
      if f[i - 1] < c && i > 1 { assert f[i - 2] < c; }
    }
  }

  lemma {:induction false} CountIsCard(s: seq<Byte>, c: int, i: nat)
    requires i <= |s|
    ensures IB.CountBelow(s, c, i) == |set k | 0 <= k < i && s[k] < c|
    decreases i
  {
    if i != 0 {
      CountIsCard(s, c, i - 1);
      var a, b := set k | 0 <= k < i - 1 && s[k] < c, set k | 0 <= k < i && s[k] < c;
      assert b == if s[i - 1] < c then a + {i - 1} else a;
    }
  }

  // The members of b below i, and where p takes them.
  function Part(b: set<int>, i: nat): set<int> { set k | 0 <= k < i && k in b }

  function Image(p: seq<int>, b: set<int>, i: nat): set<int>
    requires i <= |p|
  {
    set k | 0 <= k < i && k in b :: p[k]
  }

  lemma PartStep(b: set<int>, i: nat)
    ensures Part(b, i + 1) == if i in b then Part(b, i) + {i} else Part(b, i)
    ensures i !in Part(b, i)
  {
  }

  lemma ImageStep(p: seq<int>, b: set<int>, i: nat)
    requires IsPerm(p) && i < |p|
    ensures Image(p, b, i + 1) == if i in b then Image(p, b, i) + {p[i]} else Image(p, b, i)
    ensures p[i] !in Image(p, b, i)
  {
  }

  lemma {:induction false} MapCard(p: seq<int>, b: set<int>, i: nat)
    requires IsPerm(p) && i <= |p|
    ensures |Image(p, b, i)| == |Part(b, i)|
    decreases i
  {
    hide Image, Part, IsPerm;
    if i == 0 {
      Nobody(p, b);
    } else {
      MapCard(p, b, i - 1);
      PartStep(b, i - 1);
      ImageStep(p, b, i - 1);
    }
  }

  lemma Nobody(p: seq<int>, b: set<int>)
    ensures Image(p, b, 0) == {} && Part(b, 0) == {}
  {
  }

  function Lower(s: seq<Byte>, c: int): set<int> {
    set k | 0 <= k < |s| && s[k] < c
  }

  lemma LowerMapped(t: seq<Byte>, p: seq<int>, c: int)
    requires IsPerm(p) && |p| == |t|
    ensures Lower(t, c) == Image(p, Lower(Firsts(t, p), c), |p|)
  {
    PermCovers(p);
    var f := Firsts(t, p);
    var image := Image(p, Lower(f, c), |p|);
    forall q | q in Lower(t, c)
      ensures q in image
    {
      assert q in p;
      var k :| 0 <= k < |p| && p[k] == q;
      assert k in Lower(f, c);
    }
  }

  // Listing the positions in another order does not change the counts.
  lemma PermCount(t: seq<Byte>, p: seq<int>, c: int)
    requires IsPerm(p) && |p| == |t|
    ensures IB.CountBelow(Firsts(t, p), c, |t|) == IB.CountBelow(t, c, |t|)
  {
    hide IB.CountBelow;
    CountIsCard(t, c, |t|);
    CountIsCard(Firsts(t, p), c, |t|);
    LowerMapped(t, p, c);
    MapCard(p, Lower(Firsts(t, p), c), |p|);
    assert Part(Lower(Firsts(t, p), c), |p|) == Lower(Firsts(t, p), c);
  }

  // ----- where each LMS suffix goes

  datatype Plan = Plan(t: seq<Byte>, sa: seq<int>, rank: seq<int>, lms: seq<int>, cum: seq<int>, ends: seq<int>)

  // No LMS suffix starts with byte 255.
  lemma {:induction false} LmsByte(t: seq<Byte>, q: int)
    requires 0 <= q < |t| && !IsL(t, q)
    ensures t[q] < 255
    decreases |t| - q
  {
    if t[q] == t[q + 1] { LmsByte(t, q + 1); }
  }

  // Sorted LMS suffixes, and for each byte how many of them start lower (cum) and where its bucket ends.
  ghost predicate Sound(p: Plan) {
    && 2 <= |p.t| < TOP_BIT && IsSuffixArray(p.t, p.sa) && Ranks(p.sa, p.rank) && |p.cum| == |p.ends| == 256
    && (forall x {:trigger p.lms[x]} :: 0 <= x < |p.lms| ==>
        0 <= p.lms[x] < |p.t| && IsLms(p.t, p.lms[x]) && p.t[p.lms[x]] < 255)
    && (forall x, y {:trigger p.lms[x], p.lms[y]} :: 0 <= x < y < |p.lms| ==> p.rank[p.lms[x]] < p.rank[p.lms[y]])
    && (forall q {:trigger IsLms(p.t, q)} :: 0 <= q < |p.t| && IsLms(p.t, q) ==> q in p.lms)
    && (forall c {:trigger p.cum[c]} :: 0 <= c < 256 ==> 0 <= p.cum[c] <= |p.lms|)
    && (forall c, x {:trigger p.cum[c], p.lms[x]} :: 0 <= c < 256 && 0 <= x < |p.lms| ==>
        (x < p.cum[c] <==> p.t[p.lms[x]] < c))
    && (forall c {:trigger p.ends[c]} :: 0 <= c < 256 ==> 0 <= p.ends[c] <= |p.t|)
    && (forall c, k {:trigger p.ends[c], p.sa[k]} :: 0 <= c < 256 && 0 <= k < |p.t| ==>
        (k < p.ends[c] <==> p.t[p.sa[k]] <= c))
  }

  lemma SoundSizes(p: Plan)
    requires Sound(p)
    ensures |p.sa| == |p.t| == |p.rank| && IsPerm(p.sa) && (forall k :: 0 <= k < |p.sa| ==> 0 <= p.sa[k] < |p.t|)
    ensures forall q :: 0 <= q < |p.rank| ==> 0 <= p.rank[q] < |p.sa| && p.sa[p.rank[q]] == q
  {
  }

  function Slot(p: Plan, x: int): int
    requires 0 <= x < |p.lms| && 0 <= p.lms[x] < |p.t| && p.t[p.lms[x]] < 255 && |p.cum| == |p.ends| == 256
  {
    p.ends[p.t[p.lms[x]]] - p.cum[p.t[p.lms[x]] as int + 1] + x
  }

  lemma {:induction false} RankGrowth(p: Plan, x: int, y: int)
    requires Sound(p) && 0 <= x <= y < |p.lms|
    ensures p.rank[p.lms[y]] - p.rank[p.lms[x]] >= y - x
    decreases y - x
  {
    if x < y { RankGrowth(p, x, y - 1); }
  }

  // The slot lies in the S part of the bucket, no further left than the suffix itself belongs.
  lemma SlotFacts(p: Plan, x: int)
    requires Sound(p) && 0 <= x < |p.lms|
    ensures var s, c := Slot(p, x), p.t[p.lms[x]];
      0 <= x <= s < p.ends[c] <= |p.t| && p.t[p.sa[s]] == c && !IsL(p.t, p.sa[s])
        && s == p.ends[c] - p.cum[c as int + 1] + x
  {
    SoundSizes(p);
    hide IsSuffixArray;
    var q := p.lms[x];
    var c := p.t[q];
    var e := p.cum[c as int + 1] - 1;
    assert x < p.cum[c as int + 1];
    RankGrowth(p, 0, x);
    RankGrowth(p, x, e);
    var last := p.lms[e];
    assert p.t[last] == c by {
      assert e < p.cum[c as int + 1] && !(e < p.cum[c]);
    }
    assert p.sa[p.rank[last]] == last && p.rank[last] < p.ends[c];
    var s := Slot(p, x);
    assert p.sa[p.rank[q]] == q;
    FirstByteOrder(p.t, p.sa, p.rank, p.rank[q], s);
    assert s < p.ends[c];
    var z := p.sa[s];
    if IsL(p.t, z) { LBeforeS(p.t, p.sa, p.rank, z, q); }
  }

  lemma SlotMono(p: Plan, x: int, y: int)
    requires Sound(p) && 0 <= x < y < |p.lms|
    ensures Slot(p, x) < Slot(p, y)
  {
    hide IsSuffixArray;
    SlotFacts(p, x);
    SlotFacts(p, y);
    var c, d := p.t[p.lms[x]], p.t[p.lms[y]];
    RankStep(p.t, p.sa, p.rank, p.lms[y], p.lms[x]);
    if c != d {
      assert !(Slot(p, y) < p.ends[c]);
    }
  }

  // The array wanted before the scans.
  ghost function StartAt(p: Plan, k: int): int
    requires Sound(p)
  {
    if exists x :: 0 <= x < |p.lms| && Slot(p, x) == k then
      var x :| 0 <= x < |p.lms| && Slot(p, x) == k;
      p.lms[x]
    else 0
  }

  lemma StartAtSlot(p: Plan, x: int)
    requires Sound(p) && 0 <= x < |p.lms|
    ensures StartAt(p, Slot(p, x)) == p.lms[x]
  {
    forall y | 0 <= y < |p.lms| && Slot(p, y) == Slot(p, x)
      ensures y == x
    {
      if y < x { SlotMono(p, y, x); } else if x < y { SlotMono(p, x, y); }
    }
    hide Sound;
  }

  ghost function Start(p: Plan): (s: seq<int>)
    requires Sound(p)
    ensures |s| == |p.t| && forall k :: 0 <= k < |s| ==> s[k] == StartAt(p, k)
  {
    seq(|p.t|, k => StartAt(p, k))
  }

  ghost function SlotOfSuffix(p: Plan, q: int): int
    requires Sound(p)
  {
    if exists x :: 0 <= x < |p.lms| && p.lms[x] == q then
      var x :| 0 <= x < |p.lms| && p.lms[x] == q;
      Slot(p, x)
    else 0
  }

  lemma SlotOfListed(p: Plan, x: int)
    requires Sound(p) && 0 <= x < |p.lms|
    ensures SlotOfSuffix(p, p.lms[x]) == Slot(p, x)
  {
    forall y | 0 <= y < |p.lms| && y != x
      ensures p.lms[y] != p.lms[x]
    {
      assert p.rank[p.lms[y]] != p.rank[p.lms[x]];
    }
    hide Slot;
  }

  ghost function SettingOf(p: Plan): (g: Setting)
    requires Sound(p)
    ensures InText(g) && Proper(g) && g.t == p.t && g.sa == p.sa && g.start == Start(p)
  {
    SoundSizes(p);
    Setting(p.t, p.sa, p.rank, Start(p), seq(|p.t|, q => SlotOfSuffix(p, q)))
  }

  // What is at a position before the scans, if anything, is the suffix whose slot it is.
  lemma StartAtCases(p: Plan, k: int) returns (x: int)
    requires Sound(p)
    ensures StartAt(p, k) != 0 ==> 0 <= x < |p.lms| && Slot(p, x) == k && StartAt(p, k) == p.lms[x]
    ensures StartAt(p, k) == 0 ==> forall y :: 0 <= y < |p.lms| ==> Slot(p, y) != k
  {
    if y :| 0 <= y < |p.lms| && Slot(p, y) == k {
      x := y;
      StartAtSlot(p, x);
      assert IsLms(p.t, p.lms[x]);
    } else {
      x := 0;
    }
  }

  lemma StartSlot(p: Plan, g: Setting, i: int)
    requires Sound(p) && g == SettingOf(p) && 0 <= i < |p.t| && g.start[i] != 0
    ensures SlotOf(g, i, g.start[i])
  {
    hide IsSuffixArray, Slot;
    var x := StartAtCases(p, i);
    SlotFacts(p, x);
    SlotOfListed(p, x);
  }

  lemma StartOrder(p: Plan, g: Setting, i: int, j: int)
    requires Sound(p) && g == SettingOf(p) && 0 <= i < j < |p.t| && g.start[i] != 0 && g.start[j] != 0
    ensures RankBefore(g, g.start[i], g.start[j])
  {
    hide IsSuffixArray, Slot;
    var x := StartAtCases(p, i);
    var y := StartAtCases(p, j);
    if y < x { SlotMono(p, y, x); }
    assert p.rank[p.lms[x]] < p.rank[p.lms[y]];
  }

  lemma SlotStart(p: Plan, g: Setting, q: int)
    requires Sound(p) && g == SettingOf(p) && 0 <= q < |p.t| && IsLms(p.t, q)
    ensures 0 <= g.slot[q] < |p.t| && g.start[g.slot[q]] == q
  {
    hide IsSuffixArray, Slot;
    assert q in p.lms;
    var x :| 0 <= x < |p.lms| && p.lms[x] == q;
    SlotFacts(p, x);
    SlotOfListed(p, x);
    StartAtSlot(p, x);
  }

  /** The slots are a legitimate start for the scans. */
  lemma StartIsPlaced(p: Plan)
    requires Sound(p)
    ensures LmsPlaced(SettingOf(p))
  {
    var g := SettingOf(p);
    hide Sound, SlotOf, RankBefore, Proper, SettingOf;
    forall i {:trigger g.start[i]} | 0 <= i < |g.t|
      ensures g.start[i] == 0 || SlotOf(g, i, g.start[i])
    {
      if g.start[i] != 0 { StartSlot(p, g, i); }
    }
    forall q {:trigger g.slot[q]} | 0 <= q < |g.t| && IsLms(g.t, q)
      ensures 0 <= g.slot[q] < |g.t| && g.start[g.slot[q]] == q
    {
      SlotStart(p, g, q);
    }
    forall i, j {:trigger g.start[i], g.start[j]} | 0 <= i < j < |g.t| && g.start[i] != 0 && g.start[j] != 0
      ensures RankBefore(g, g.start[i], g.start[j])
    {
      StartOrder(p, g, i, j);
    }
  }

  // ----- moving them there

  // The slot after the first m are still to be moved.
  function Front(p: Plan, m: nat): int
    requires Sound(p) && m <= |p.lms|
  {
    if m == |p.lms| then |p.t| else Slot(p, m)
  }

  // The first m suffixes wait at the front; from Front on the array is as wanted.
  ghost predicate Placing(p: Plan, a: seq<int>, m: nat) {
    && Sound(p) && |a| == |p.t| && m <= |p.lms| <= |a| && a[..m] == p.lms[..m]
    && 0 <= Front(p, m) <= |a|
    && forall k {:trigger a[k]} :: Front(p, m) <= k < |a| ==> a[k] == StartAt(p, k)
  }

  lemma CountFits(p: Plan)
    requires Sound(p)
    ensures |p.lms| <= |p.t| && p.cum[0] == 0 && p.cum[255] == |p.lms|
  {
    hide IsSuffixArray, Slot;
    var m := |p.lms|;
    if m != 0 {
      SlotFacts(p, m - 1);
      assert m - 1 < p.cum[255] by { assert p.t[p.lms[m - 1]] < 255; }
      assert !(0 < p.cum[0]) by { assert p.t[p.lms[0]] >= 0; }
    }
  }

  lemma PlacingStart(p: Plan, a: seq<int>)
    requires Sound(p) && |a| == |p.t| && |p.lms| <= |a| && a[..|p.lms|] == p.lms
    ensures Placing(p, a, |p.lms|)
  {
    hide Sound;
  }

  // One bucket's suffixes have been moved, its end zeroed.
  ghost predicate Moved(a: seq<int>, a': seq<int>, lo: int, i: int, j: int, from: int) {
    && |a| == |a'| && 0 <= from <= lo <= i <= j <= |a|
    && (forall k {:trigger a'[k]} :: lo <= k < i ==> a'[k] == a[from + (k - lo)])
    && (forall k {:trigger a'[k]} :: i <= k < j ==> a'[k] == 0)
    && (forall k {:trigger a'[k]} :: 0 <= k < lo || j <= k < |a| ==> a'[k] == a[k])
  }

  // Bucket c holds the suffixes from..m of the list; what its slots are.
  lemma BucketSlots(p: Plan, c: int, m: nat)
    requires Sound(p) && 0 <= c < 255 && m == p.cum[c + 1] && p.cum[c] < m <= |p.lms|
    ensures var from, i := p.cum[c], p.ends[c]; var lo := i - (m - from);
      && 0 <= from <= lo < i <= Front(p, m) <= |p.t| && m <= i && Front(p, from) == lo
      && forall x :: from <= x < m ==> Slot(p, x) == i - m + x
  {
    hide IsSuffixArray;
    var from := p.cum[c];
    forall x | from <= x < m
      ensures Slot(p, x) == p.ends[c] - m + x
    {
      assert p.t[p.lms[x]] == c by { assert x < p.cum[c + 1] && !(x < p.cum[c]); }
    }
    hide Slot;
    SlotFacts(p, from);
    SlotFacts(p, m - 1);
    if m < |p.lms| {
      SlotFacts(p, m);
      SlotMono(p, m - 1, m);
    }
  }

  // Between the bucket's end and the next slot in use nothing is wanted.
  lemma GapEmpty(p: Plan, m: nat, i: int, k: int)
    requires Sound(p) && 1 <= m <= |p.lms| && Slot(p, m - 1) == i - 1 && i <= k < Front(p, m)
    ensures StartAt(p, k) == 0
  {
    hide IsSuffixArray, Slot;
    var x := StartAtCases(p, k);
    if StartAt(p, k) != 0 {
      if x < m - 1 { SlotMono(p, x, m - 1); }
      if m < |p.lms| && m < x { SlotMono(p, m, x); }
    }
  }

  lemma PlacingStep(p: Plan, a: seq<int>, a': seq<int>, c: int, m: nat)
    requires Placing(p, a, m) && 0 <= c < 255 && m == p.cum[c + 1] && p.cum[c] < m && 0 <= p.cum[c]
    requires Moved(a, a', p.ends[c] - (m - p.cum[c]), p.ends[c], Front(p, m), p.cum[c])
    ensures Placing(p, a', p.cum[c])
  {
    hide IsSuffixArray, Slot, StartAt;
    BucketSlots(p, c, m);
    var from, i := p.cum[c], p.ends[c];
    var lo := i - (m - from);
    forall k {:trigger a'[k]} | lo <= k < |a'|
      ensures a'[k] == StartAt(p, k)
    {
      if k < i {
        var x := from + (k - lo);
        assert Slot(p, x) == k && a[x] == a[..m][x] == p.lms[x];
        StartAtSlot(p, x);
      } else if k < Front(p, m) {
        GapEmpty(p, m, i, k);
      }
    }
    forall k | 0 <= k < from
      ensures a'[k] == p.lms[k]
    {
      assert a[k] == a[..m][k];
    }
    assert a'[..from] == p.lms[..from];
  }

  lemma PlacingEnd(p: Plan, a: seq<int>, a': seq<int>)
    requires Placing(p, a, 0) && |a'| == |a|
    requires forall k {:trigger a'[k]} :: 0 <= k < |a| ==> a'[k] == if k < Front(p, 0) then 0 else a[k]
    ensures a' == Start(p)
  {
    hide Slot, IsSuffixArray;
    forall k | 0 <= k < Front(p, 0)
      ensures StartAt(p, k) == 0
    {
      var x := StartAtCases(p, k);
      if StartAt(p, k) != 0 && 0 < x { SlotMono(p, 0, x); }
    }
  }

  lemma CumMono(p: Plan, c: int)
    requires Sound(p) && 0 <= c < 255
    ensures 0 <= p.cum[c] <= p.cum[c + 1] <= |p.lms|
  {
    hide IsSuffixArray;
    assert 0 < p.cum[c] ==> p.t[p.lms[p.cum[c] - 1]] < c;
  }

  // memset(&SA[lo], 0, (hi - lo) * sizeof)
  method ZeroRange(sa: array<int>, lo: nat, hi: nat)
    requires lo <= hi <= sa.Length
    modifies sa
    ensures forall k {:trigger sa[k]} :: 0 <= k < sa.Length ==> sa[k] == if lo <= k < hi then 0 else old(sa[k])
  {
    forall k | lo <= k < hi {
      sa[k] := 0;
    }
  }

  // memmove(&SA[to], &SA[from], count * sizeof); the ranges may overlap
  method MoveRange(sa: array<int>, to: nat, from: nat, count: nat)
    requires to + count <= sa.Length && from + count <= sa.Length
    modifies sa
    ensures forall k {:trigger sa[k]} :: 0 <= k < sa.Length ==>
      sa[k] == if to <= k < to + count then old(sa[from + (k - to)]) else old(sa[k])
  {
    forall k | to <= k < to + count {
      sa[k] := sa[from + (k - to)];
    }
  }

  // The body of the loop for a bucket with LMS suffixes.
  method PlaceBucket(sa: array<int>, c: nat, i: nat, l: nat, m: nat, j: nat, ghost p: Plan)
    requires Placing(p, sa[..], m) && c < 255 && i == p.ends[c] && m == p.cum[c + 1] && l == m - p.cum[c] > 0
      && 0 <= p.cum[c] && j == Front(p, m)
    modifies sa
    ensures 0 <= m - l && i - l >= 0 && Placing(p, sa[..], m - l) && i - l == Front(p, m - l)
  {
    hide *;
    ghost var a := sa[..];
    PlacingSizes(p, a, m);
    BucketSlots(p, c, m);
    if j - i > 0 {
      ZeroRange(sa, i, j);
    }
    assert forall k {:trigger sa[k]} :: 0 <= k < sa.Length ==> sa[k] == if i <= k < j then 0 else a[k];
    MoveRange(sa, i - l, m - l, l);
    MovedIs(a, sa[..], i - l, i, j, m - l);
    PlacingStep(p, a, sa[..], c, m);
  }

  lemma MovedIs(a: seq<int>, a': seq<int>, lo: int, i: int, j: int, from: int)
    requires |a| == |a'| && 0 <= from <= lo <= i <= j <= |a| && from + (i - lo) <= i
    requires forall k {:trigger a'[k]} :: 0 <= k < |a| ==>
      a'[k] == if lo <= k < i then a[from + (k - lo)] else if i <= k < j then 0 else a[k]
    ensures Moved(a, a', lo, i, j, from)
  {
  }

  lemma PlacingSizes(p: Plan, a: seq<int>, m: nat)
    requires Placing(p, a, m)
    ensures Sound(p) && |a| == |p.t| && m <= |p.lms| <= |a| && 0 <= Front(p, m) <= |a| && |p.cum| == |p.ends| == 256
  {
    hide IsSuffixArray, Slot;
  }

  lemma SoundTables(p: Plan)
    requires Sound(p)
    ensures |p.cum| == |p.ends| == 256 && forall c :: 0 <= c < 256 ==>
      0 <= p.ends[c] <= |p.t| && 0 <= p.cum[c] <= |p.lms|
  {
    hide IsSuffixArray;
  }

  /** libsais_place_lms_suffixes_interval_8u: the sorted LMS suffixes go from the front of the
      array to the ends of their buckets, in place, highest bucket first; all else becomes 0. */
  method PlaceSuffixes(sa: array<int>, n: nat, m0: nat, cum: array<int>, bucketEnd: array<int>, ghost p: Plan)
    requires Sound(p) && sa.Length == n == |p.t| && m0 == |p.lms| <= n && sa[..m0] == p.lms && cum != sa
      && bucketEnd != sa
    requires cum[..] == p.cum && bucketEnd[..] == p.ends
    modifies sa
    ensures sa[..] == Start(p)
  {
    hide *;
    SoundTables(p);
    CountFits(p);
    PlacingStart(p, sa[..]);
    FrontEnds(p);
    var m: nat, j: nat := m0, n;
    var c := 254;
    while c >= 0
      invariant -1 <= c <= 254 && Placing(p, sa[..], m) && m == p.cum[c + 1] && j == Front(p, m) && cum[..] == p.cum
        && bucketEnd[..] == p.ends
      decreases c
    {
      CumMono(p, c);
      PlacingSizes(p, sa[..], m);
      var l := cum[c + 1] - cum[c];
      if l > 0 {
        var i := bucketEnd[c];
        PlaceBucket(sa, c, i, l, m, j, p);
        j, m := i - l, m - l;
      }
      c := c - 1;
    }
    PlacingSizes(p, sa[..], m);
    ghost var a := sa[..];
    ZeroRange(sa, 0, j);
    PlacingEnd(p, a, sa[..]);
  }

  lemma FrontEnds(p: Plan)
    requires Sound(p)
    ensures Front(p, |p.lms|) == |p.t|
  {
    hide Sound, Slot;
  }

  // ----- from the sorted LMS suffixes to the suffix array

  ghost function PlanOf(t: seq<Byte>, lms: seq<int>, cum: seq<int>, ends: seq<int>): Plan {
    Plan(t, SuffixArrayOf(t), RanksOf(SuffixArrayOf(t)), lms, cum, ends)
  }

  // cum[c] LMS suffixes start with a byte below c; the buckets of the bytes start and end by their counts.
  ghost predicate Counted(t: seq<Byte>, lms: seq<int>, cum: seq<int>, starts: seq<int>, ends: seq<int>)
    requires SortedLms(t, lms)
  {
    && |cum| == |starts| == |ends| == 256
    && (forall c {:trigger cum[c]} :: 0 <= c < 256 ==> cum[c] == IB.CountBelow(Firsts(t, lms), c, |lms|))
    && (forall c {:trigger starts[c]} :: 0 <= c < 256 ==> starts[c] == IB.CountBelow(t, c, |t|))
    && (forall c {:trigger ends[c]} :: 0 <= c < 256 ==> ends[c] == IB.CountBelow(t, c + 1, |t|))
  }

  // The counts as bounds on positions of the suffix array.
  lemma BytesBelow(t: seq<Byte>, sa: seq<int>, c: int, k: int)
    requires IsSuffixArray(t, sa) && 0 <= k < |t|
    ensures |sa| == |t| && 0 <= sa[k] < |t| && (k < IB.CountBelow(t, c, |t|) <==> t[sa[k]] < c)
  {
    hide IB.CountBelow;
    var rank := RanksOf(sa);
    var f := Firsts(t, sa);
    forall x, y | 0 <= x < y < |f|
      ensures f[x] <= f[y]
    {
      FirstByteOrder(t, sa, rank, x, y);
    }
    SortedBelow(f, c, |f|);
    PermCount(t, sa, c);
  }

  lemma LmsRanks(t: seq<Byte>, lms: seq<int>, sa: seq<int>, rank: seq<int>)
    requires SortedLms(t, lms) && IsSuffixArray(t, sa) && Ranks(sa, rank)
    ensures |rank| == |t| && forall x, y {:trigger lms[x], lms[y]} :: 0 <= x < y < |lms| ==> rank[lms[x]] < rank[lms[y]]
  {
    forall x, y {:trigger lms[x], lms[y]} | 0 <= x < y < |lms|
      ensures rank[lms[x]] < rank[lms[y]]
    {
      RankLess(t, sa, rank, lms[x], lms[y]);
    }
  }

  lemma LmsBelow(t: seq<Byte>, lms: seq<int>, sa: seq<int>, rank: seq<int>, c: int)
    requires SortedLms(t, lms) && IsSuffixArray(t, sa) && Ranks(sa, rank)
    ensures forall x {:trigger lms[x]} :: 0 <= x < |lms| ==>
      (x < IB.CountBelow(Firsts(t, lms), c, |lms|) <==> t[lms[x]] < c)
  {
    hide IB.CountBelow;
    LmsRanks(t, lms, sa, rank);
    var f := Firsts(t, lms);
    forall x, y | 0 <= x < y < |f|
      ensures f[x] <= f[y]
    {
      RankStep(t, sa, rank, lms[y], lms[x]);
    }
    SortedBelow(f, c, |f|);
  }

  lemma PlanSound(t: seq<Byte>, lms: seq<int>, cum: seq<int>, starts: seq<int>, ends: seq<int>)
    requires 2 <= |t| < TOP_BIT && SortedLms(t, lms) && Counted(t, lms, cum, starts, ends)
    ensures Sound(PlanOf(t, lms, cum, ends))
  {
    hide IB.CountBelow;
    var p := PlanOf(t, lms, cum, ends);
    LmsRanks(t, lms, p.sa, p.rank);
    forall x {:trigger p.lms[x]} | 0 <= x < |p.lms|
      ensures p.t[p.lms[x]] < 255
    {
      LmsByte(t, lms[x]);
    }
    forall c, x {:trigger p.cum[c], p.lms[x]} | 0 <= c < 256 && 0 <= x < |p.lms|
      ensures x < p.cum[c] <==> p.t[p.lms[x]] < c
    {
      LmsBelow(t, lms, p.sa, p.rank, c);
    }
    forall c, k {:trigger p.ends[c], p.sa[k]} | 0 <= c < 256 && 0 <= k < |p.t|
      ensures 0 <= p.sa[k] < |p.t| && (k < p.ends[c] <==> p.t[p.sa[k]] <= c)
    {
      BytesBelow(t, p.sa, c + 1, k);
    }
  }

  lemma PlanBuckets(t: seq<Byte>, lms: seq<int>, cum: seq<int>, starts: seq<int>, ends: seq<int>)
    requires SortedLms(t, lms) && Counted(t, lms, cum, starts, ends) && Sound(PlanOf(t, lms, cum, ends))
    ensures BucketStarts(SettingOf(PlanOf(t, lms, cum, ends)), starts)
      && BucketEnds(SettingOf(PlanOf(t, lms, cum, ends)), ends)
  {
    hide IB.CountBelow, Sound, SettingOf, IsSuffixArray;
    var g := SettingOf(PlanOf(t, lms, cum, ends));
    forall c, k {:trigger starts[c], g.sa[k]} | 0 <= c < 256 && 0 <= k < |g.t|
      ensures k < starts[c] <==> g.t[g.sa[k]] < c
    {
      BytesBelow(t, g.sa, c, k);
    }
    forall c, k {:trigger ends[c], g.sa[k]} | 0 <= c < 256 && 0 <= k < |g.t|
      ensures k < ends[c] <==> g.t[g.sa[k]] <= c
    {
      BytesBelow(t, g.sa, c + 1, k);
    }
  }

  /** From the sorted LMS suffixes, in the first m entries, to the suffix array of the text. */
  method SortFromLms(t: array<Byte>, sa: array<int>, cum: array<int>, starts: array<int>, ends: array<int>, n: nat,
                     m: nat)
    requires t.Length == n == sa.Length && 2 <= n < TOP_BIT && m <= n
      && cum.Length == starts.Length == ends.Length == 256
    requires t as object !in {sa, cum, starts, ends} && sa != cum && sa != starts && sa != ends && cum != starts
      && cum != ends && starts != ends
    requires SortedLms(t[..], sa[..m]) && Counted(t[..], sa[..m], cum[..], starts[..], ends[..])
    modifies sa, starts, ends
    ensures IsSuffixArray(t[..], sa[..])
  {
    hide *;
    ghost var lms := sa[..m];
    PlanSound(t[..], lms, cum[..], starts[..], ends[..]);
    PlanBuckets(t[..], lms, cum[..], starts[..], ends[..]);
    ghost var p := PlanOf(t[..], lms, cum[..], ends[..]);
    PlanParts(t[..], lms, cum[..], ends[..]);
    if m > 0 {
      PlaceSuffixes(sa, n, m, cum, ends, p);
    } else {
      ZeroRange(sa, 0, n);
      NoSuffixes(p, sa[..]);
    }
    StartIsPlaced(p);
    InduceFinalOrder(t, sa, starts, ends, n, SettingOf(p));
  }

  lemma PlanParts(t: seq<Byte>, lms: seq<int>, cum: seq<int>, ends: seq<int>)
    ensures var p := PlanOf(t, lms, cum, ends); p.t == t && p.lms == lms && p.cum == cum && p.ends == ends
  {
  }

  lemma NoSuffixes(p: Plan, a: seq<int>)
    requires Sound(p) && p.lms == [] && |a| == |p.t| && forall k :: 0 <= k < |a| ==> a[k] == 0
    ensures a == Start(p)
  {
    hide Sound;
  }
}
