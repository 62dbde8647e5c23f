/**
 Suffix order and suffix arrays, and the facts about ranks that induced sorting
 and the doubled string use.
 */
module Suffixes {
  import opened Bits
  import opened Rotations

  // Suffix a is no larger than suffix c; the end of the text is smallest.
  predicate SufLe(t: seq<Byte>, a: int, c: int)
    requires 0 <= a <= |t| && 0 <= c <= |t|
    decreases |t| - a
  {
    a == |t| || (c < |t| && (t[a] < t[c] || (t[a] == t[c] && SufLe(t, a + 1, c + 1))))
  }

  ghost predicate IsSuffixArray(t: seq<Byte>, sa: seq<int>) {
    && |sa| == |t| && IsPerm(sa)
    && forall i, j {:trigger SufLe(t, sa[i], sa[j])} :: 0 <= i < j < |sa| ==> SufLe(t, sa[i], sa[j])
  }

  lemma {:induction false} SufAntisym(t: seq<Byte>, a: int, c: int)
    requires 0 <= a <= |t| && 0 <= c <= |t| && SufLe(t, a, c) && SufLe(t, c, a)
    ensures a == c
    decreases |t| - a
  {
    if a < |t| && c < |t| {
      SufAntisym(t, a + 1, c + 1);
    }
  }

  // Place of each suffix in the suffix array.
  ghost predicate Ranks(sa: seq<int>, rank: seq<int>) {
    && |rank| == |sa| && (forall q :: 0 <= q < |rank| ==> 0 <= rank[q] < |sa| && sa[rank[q]] == q)
    && (forall k :: 0 <= k < |sa| ==> 0 <= sa[k] < |rank| && rank[sa[k]] == k)
  }

  ghost function RankOf(sa: seq<int>, q: int): (k: int)
    requires IsPerm(sa) && 0 <= q < |sa|
    ensures 0 <= k < |sa| && sa[k] == q
  {
    PermCovers(sa);
    assert q in sa;
    var k :| 0 <= k < |sa| && sa[k] == q;
    k
  }

  ghost function RanksOf(sa: seq<int>): (rank: seq<int>)
    requires IsPerm(sa)
    ensures Ranks(sa, rank)
  {
    seq(|sa|, q requires 0 <= q < |sa| => RankOf(sa, q))
  }

  // Suffixes in rank order.
  lemma RankLess(t: seq<Byte>, sa: seq<int>, rank: seq<int>, a: int, c: int)
    requires IsSuffixArray(t, sa) && Ranks(sa, rank) && 0 <= a < |t| && 0 <= c < |t| && a != c
    ensures rank[a] < rank[c] <==> SufLe(t, a, c)
  {
    hide SufLe;
    if rank[a] < rank[c] {
      assert SufLe(t, sa[rank[a]], sa[rank[c]]);
    } else {
      assert rank[c] < rank[a];
      assert SufLe(t, sa[rank[c]], sa[rank[a]]);
      if SufLe(t, a, c) { SufAntisym(t, a, c); }
    }
  }

  /** Ranks follow first bytes, then the ranks of the next suffixes; the last suffix leads its bucket. */
  lemma RankStep(t: seq<Byte>, sa: seq<int>, rank: seq<int>, a: int, c: int)
    requires IsSuffixArray(t, sa) && Ranks(sa, rank) && 0 <= a < |t| && 0 <= c < |t|
    ensures |rank| == |t|
    ensures t[a] < t[c] ==> rank[a] < rank[c]
    ensures t[a] == t[c] && a + 1 < |t| && c + 1 < |t| ==> (rank[a] < rank[c] <==> rank[a + 1] < rank[c + 1])
    ensures t[a] == t[c] && a == |t| - 1 && c != a ==> rank[a] < rank[c]
  {
    if a != c {
      hide IsSuffixArray;
      RankLess(t, sa, rank, a, c);
      if a + 1 < |t| && c + 1 < |t| { RankLess(t, sa, rank, a + 1, c + 1); }
    }
  }

  // ----- suffix types

  // Suffix q is larger than the next one (the last suffix counts as L).
  predicate IsL(t: seq<Byte>, q: int)
    requires 0 <= q < |t|
    decreases |t| - q
  {
    q == |t| - 1 || t[q] > t[q + 1] || (t[q] == t[q + 1] && IsL(t, q + 1))
  }

  // The leftmost suffix of an S run.
  predicate IsLms(t: seq<Byte>, q: int)
    requires 0 <= q < |t|
  {
    0 < q && !IsL(t, q) && IsL(t, q - 1)
  }

  lemma {:induction false} TypeRank(t: seq<Byte>, sa: seq<int>, rank: seq<int>, q: int)
    requires IsSuffixArray(t, sa) && Ranks(sa, rank) && 0 <= q < |t| - 1
    ensures |rank| == |t| && (IsL(t, q) <==> rank[q + 1] < rank[q])
    decreases |t| - q
  {
    hide IsSuffixArray;
    RankStep(t, sa, rank, q, q + 1);
    RankStep(t, sa, rank, q + 1, q);
    if t[q] == t[q + 1] && q + 1 < |t| - 1 {
      TypeRank(t, sa, rank, q + 1);
    }
    RankDistinct(sa, rank, q, q + 1);
  }

  lemma RankDistinct(sa: seq<int>, rank: seq<int>, a: int, c: int)
    requires Ranks(sa, rank) && 0 <= a < |rank| && 0 <= c < |rank| && a != c
    ensures rank[a] != rank[c]
  {
    assert sa[rank[a]] == a && sa[rank[c]] == c;
  }

  /** Within a bucket, L suffixes come before S suffixes. */
  lemma {:induction false} LBeforeS(t: seq<Byte>, sa: seq<int>, rank: seq<int>, a: int, c: int)
    requires IsSuffixArray(t, sa) && Ranks(sa, rank) && 0 <= a < |t| && 0 <= c < |t|
    requires t[a] == t[c] && IsL(t, a) && !IsL(t, c)
    ensures |rank| == |t| && rank[a] < rank[c]
    decreases |t| - a
  {
    hide IsSuffixArray;
    RankStep(t, sa, rank, a, c);
    if a + 1 < |t| {
      RankStep(t, sa, rank, a + 1, c + 1);
      if t[a + 1] == t[c + 1] {
        LBeforeS(t, sa, rank, a + 1, c + 1);
      }
    }
  }

  // Positions of the suffix array are in order of first byte.
  lemma FirstByteOrder(t: seq<Byte>, sa: seq<int>, rank: seq<int>, k: int, m: int)
    requires IsSuffixArray(t, sa) && Ranks(sa, rank) && 0 <= k < |t| && 0 <= m < |t|
    ensures |sa| == |t| && 0 <= sa[k] < |t| && 0 <= sa[m] < |t| && (k <= m ==> t[sa[k]] <= t[sa[m]])
  {
    if k <= m && t[sa[m]] < t[sa[k]] {
      RankStep(t, sa, rank, sa[m], sa[k]);
    }
  }

  // ----- the doubled block

  lemma {:induction false} SufPrefix(t: seq<Byte>, a: int, c: int, m: nat)
    requires 0 <= a && 0 <= c && a + m <= |t| && c + m <= |t| && SufLe(t, a, c)
    ensures Le(t[a..a + m], t[c..c + m])
    decreases m
  {
    if m != 0 {
      assert t[a..a + m][1..] == t[a + 1..a + 1 + (m - 1)] && t[c..c + m][1..] == t[c + 1..c + 1 + (m - 1)];
      if t[a] == t[c] {
        SufPrefix(t, a + 1, c + 1, m - 1);
      }
    }
  }

  lemma DoubledRot(b: seq<Byte>, i: int)
    requires 0 <= i < |b|
    ensures (b + b)[i..i + |b|] == Rot(b, i)
  {
  }

  // The entries below n, in order.
  function Filter(sa: seq<int>, n: nat): (f: seq<int>)
    decreases |sa|
  {
    if sa == [] then []
    else Filter(sa[..|sa| - 1], n) + (if sa[|sa| - 1] < n then [sa[|sa| - 1]] else [])
  }

  // f lists entries of sa below n, in order, from the places at.
  ghost predicate FilterOf(sa: seq<int>, n: nat, f: seq<int>, at: seq<int>) {
    && |at| == |f| && (forall k :: 0 <= k < |f| ==> 0 <= at[k] < |sa| && sa[at[k]] == f[k] && f[k] < n)
    && (forall k, m :: 0 <= k < m < |f| ==> at[k] < at[m])
    && (forall i :: 0 <= i < |sa| && sa[i] < n ==> sa[i] in f)
  }

  lemma FilterSnoc(sa: seq<int>, n: nat, f: seq<int>, at: seq<int>, x: int)
    requires FilterOf(sa, n, f, at)
    ensures FilterOf(sa + [x], n, if x < n then f + [x] else f, if x < n then at + [|sa|] else at)
  {
    var sa', f' := sa + [x], if x < n then f + [x] else f;
    forall i | 0 <= i < |sa'| && sa'[i] < n
      ensures sa'[i] in f'
    {
      if i < |sa| { assert sa[i] in f; }
    }
  }

  lemma {:induction false} FilterPlaces(sa: seq<int>, n: nat) returns (at: seq<int>)
    ensures FilterOf(sa, n, Filter(sa, n), at)
    decreases |sa|
  {
    hide *;
    if sa == [] {
      at := [];
      FilterStart(n);
    } else {
      var m := |sa| - 1;
      at := FilterPlaces(sa[..m], n);
      FilterSnoc(sa[..m], n, Filter(sa[..m], n), at, sa[m]);
      assert sa == sa[..m] + [sa[m]];
      at := if sa[m] < n then at + [m] else at;
      FilterEnds(sa, n);
    }
  }

  lemma FilterStart(n: nat)
    ensures FilterOf([], n, Filter([], n), [])
  {
  }

  lemma FilterEnds(sa: seq<int>, n: nat)
    requires sa != []
    ensures var m := |sa| - 1; Filter(sa, n) == if sa[m] < n then Filter(sa[..m], n) + [sa[m]] else Filter(sa[..m], n)
  {
    var m := |sa| - 1;
    assert Filter(sa[..m], n) + [] == Filter(sa[..m], n);
  }

  lemma FilterDistinct(sa: seq<int>, n: nat, f: seq<int>, at: seq<int>)
    requires IsPerm(sa) && FilterOf(sa, n, f, at)
    ensures forall k, m :: 0 <= k < m < |f| ==> f[k] != f[m]
    ensures forall k :: 0 <= k < |f| ==> 0 <= f[k] < n
  {
    forall k, m | 0 <= k < m < |f|
      ensures f[k] != f[m]
    {
      assert sa[at[k]] != sa[at[m]];
    }
  }

  /** Exactly n entries of a permutation of 2n places are below n, and they form a permutation. */
  lemma FilterIsPerm(sa: seq<int>, n: nat)
    requires IsPerm(sa) && |sa| == 2 * n
    ensures |Filter(sa, n)| == n && IsPerm(Filter(sa, n))
  {
    hide IsPerm, Filter;
    var f := Filter(sa, n);
    var at := FilterPlaces(sa, n);
    FilterDistinct(sa, n, f, at);
    FilterCovers(sa, n, f, at);
    CoverSize(f, n);
    MakePerm(f, n);
  }

  lemma MakePerm(f: seq<int>, n: nat)
    requires |f| == n && (forall k, m :: 0 <= k < m < |f| ==> f[k] != f[m]) && forall k :: 0 <= k < |f| ==>
      0 <= f[k] < n
    ensures IsPerm(f)
  {
  }

  lemma FilterCovers(sa: seq<int>, n: nat, f: seq<int>, at: seq<int>)
    requires IsPerm(sa) && |sa| == 2 * n && FilterOf(sa, n, f, at)
    ensures forall x :: 0 <= x < n ==> x in f
  {
    PermCovers(sa);
    forall x | 0 <= x < n
      ensures x in f
    {
      assert x in sa;
      var i :| 0 <= i < |sa| && sa[i] == x;
    }
  }

  lemma CoverSize(f: seq<int>, n: nat)
    requires (forall k, m :: 0 <= k < m < |f| ==> f[k] != f[m]) && forall k :: 0 <= k < |f| ==> 0 <= f[k] < n
    requires forall x :: 0 <= x < n ==> x in f
    ensures |f| == n
  {
    ImageCard(f, |f|);
    var hit := set i | 0 <= i < |f| :: f[i];
    forall x
      ensures x in hit <==> x in Below(n)
    {
      if x in Below(n) {
        assert x in f;
        var i :| 0 <= i < |f| && f[i] == x;
      }
    }
    assert hit == Below(n);
  }

  /** The suffixes of the block written twice that start in its first half are its
      rotations, in order. */
  lemma FilterSorts(b: seq<Byte>, sa: seq<int>)
    requires IsSuffixArray(b + b, sa)
    ensures SortsRotations(b, Filter(sa, |b|))
  {
    hide Filter, Le, SufLe;
    var n, f := |b|, Filter(sa, |b|);
    FilterIsPerm(sa, n);
    var at := FilterPlaces(sa, n);
    forall i, j {:trigger RotLe(b, f[i], f[j])} | 0 <= i < j < |f|
      ensures RotLe(b, f[i], f[j])
    {
      assert SufLe(b + b, sa[at[i]], sa[at[j]]);
      SufPrefix(b + b, f[i], f[j], n);
      DoubledRot(b, f[i]);
      DoubledRot(b, f[j]);
    }
  }

  lemma {:induction false} FilterGrows(sa: seq<int>, n: nat, i: nat)
    requires i <= |sa|
    ensures |Filter(sa[..i], n)| <= |Filter(sa, n)|
    decreases |sa|
  {
    if i < |sa| {
      FilterGrows(sa[..|sa| - 1], n, i);
      assert sa[..|sa| - 1][..i] == sa[..i];
    } else {
      assert sa[..i] == sa;
    }
  }

  lemma FilterStep(sa: seq<int>, n: nat, i: nat)
    requires i < |sa|
    ensures Filter(sa[..i + 1], n) == Filter(sa[..i], n) + (if sa[i] < n then [sa[i]] else [])
    ensures |Filter(sa[..i + 1], n)| <= |Filter(sa, n)|
  {
    assert sa[..i + 1][..i] == sa[..i];
    FilterGrows(sa, n, i + 1);
  }

  /** The filtering half of sais_bwt, given the suffix array of the doubled block: the
      rotations in order, with origPtr the place of rotation 0. */
  method FilterRotations(sa: array<int>, ptr: array<int>, nblock: nat, ghost b: seq<Byte>) returns (origPtr: int)
    requires |b| == nblock == ptr.Length && 1 <= nblock && sa != ptr && IsSuffixArray(b + b, sa[..])
    modifies ptr
    ensures SortsRotations(b, ptr[..]) && 0 <= origPtr < nblock && ptr[origPtr] == 0
  {
    hide *;
    ghost var s := sa[..];
    DoubledSize(b, s);
    FilterIsPerm(s, nblock);
    var dlen := 2 * nblock;
    origPtr := -1;
    var j := 0;
    var i := 0;
    FilterNone(s, nblock);
    while i < dlen
      invariant 0 <= i <= dlen && sa[..] == s && j == |Filter(s[..i], nblock)| && 0 <= j <= nblock
      invariant ptr[..j] == Filter(s[..i], nblock)
      invariant origPtr == -1 ==> 0 !in ptr[..j]
      invariant origPtr != -1 ==> 0 <= origPtr < j && ptr[origPtr] == 0
    {
      FilterStep(s, nblock, i);
      if sa[i] < nblock {
        assert |Filter(s[..i + 1], nblock)| == j + 1;
        ghost var before := ptr[..j];
        ptr[j] := sa[i];
        assert ptr[..j + 1] == before + [sa[i]];
        if sa[i] == 0 { origPtr := j; }
        j := j + 1;
      }
      i := i + 1;
    }
    assert s[..dlen] == s;
    assert ptr[..] == ptr[..j];
    FilterSorts(b, s);
    ZeroListed(b, ptr[..]);
  }

  lemma DoubledSize(b: seq<Byte>, sa: seq<int>)
    requires IsSuffixArray(b + b, sa)
    ensures |sa| == 2 * |b| && IsPerm(sa)
  {
  }

  lemma FilterNone(sa: seq<int>, n: nat)
    ensures Filter(sa[..0], n) == []
  {
  }

  /** Whichever sorter ran, the column sent is the same and both origPtrs name rotations equal to the block. */
  lemma SortersAgree(b: seq<Byte>, sa: seq<int>, fmap: seq<int>, i: int, j: int)
    requires IsSuffixArray(b + b, sa) && SortsRotations(b, fmap) && b != []
    requires 0 <= i < |fmap| && fmap[i] == 0
    ensures SortsRotations(b, Filter(sa, |b|)) && LastColumn(b, Filter(sa, |b|)) == LastColumn(b, fmap)
    ensures 0 <= j < |b| && Filter(sa, |b|)[j] == 0 ==> Rot(b, fmap[j]) == b && Rot(b, Filter(sa, |b|)[i]) == b
  {
    hide Filter, IsSuffixArray;
    FilterSorts(b, sa);
    SortedRotationsUnique(b, Filter(sa, |b|), fmap);
    assert Rot(b, 0) == b;
  }

  // ----- a suffix array exists

  lemma {:induction false} SufTotal(t: seq<Byte>, a: int, c: int)
    requires 0 <= a <= |t| && 0 <= c <= |t|
    ensures SufLe(t, a, c) || SufLe(t, c, a)
    decreases |t| - a
  {
    if a < |t| && c < |t| && t[a] == t[c] { SufTotal(t, a + 1, c + 1); }
  }

  lemma {:induction false} SufTrans(t: seq<Byte>, a: int, c: int, d: int)
    requires 0 <= a <= |t| && 0 <= c <= |t| && 0 <= d <= |t| && SufLe(t, a, c) && SufLe(t, c, d)
    ensures SufLe(t, a, d)
    decreases |t| - a
  {
    if a < |t| && t[a] == t[c] && t[c] == t[d] { SufTrans(t, a + 1, c + 1, d + 1); }
  }

  // s lists suffixes from lo on, each once, in order.
  ghost predicate SortedFrom(t: seq<Byte>, lo: int, s: seq<int>) {
    && 0 <= lo <= |t| && |s| == |t| - lo
    && (forall k :: 0 <= k < |s| ==> lo <= s[k] < |t|)
    && (forall i, j :: 0 <= i < j < |s| ==> s[i] != s[j])
    && forall i, j {:trigger SufLe(t, s[i], s[j])} :: 0 <= i < j < |s| ==> SufLe(t, s[i], s[j])
  }

  // The place of suffix q among sorted ones.
  function PlaceFor(t: seq<Byte>, s: seq<int>, q: int): (k: nat)
    requires 0 <= q < |t| && forall k :: 0 <= k < |s| ==> 0 <= s[k] < |t|
    ensures k <= |s| && (k < |s| ==> SufLe(t, q, s[k])) && forall i :: 0 <= i < k ==> !SufLe(t, q, s[i])
    decreases |s|
  {
    if s == [] || SufLe(t, q, s[0]) then 0 else 1 + PlaceFor(t, s[1..], q)
  }

  lemma InsertedPair(t: seq<Byte>, s: seq<int>, q: int, k: nat, i: nat, j: nat)
    requires SortedFrom(t, q + 1, s) && 0 <= q < |t| && k <= |s| && i < j <= |s|
    requires (k < |s| ==> SufLe(t, q, s[k])) && forall m :: 0 <= m < k ==> !SufLe(t, q, s[m])
    ensures var u := s[..k] + [q] + s[k..]; u[i] != u[j] && SufLe(t, u[i], u[j])
  {
    hide SufLe;
    if i == k {
      if k < j - 1 { assert SufLe(t, s[k], s[j - 1]); SufTrans(t, q, s[k], s[j - 1]); }
    } else if j == k {
      SufTotal(t, q, s[i]);
    } else {
      var i', j' := if i < k then i else i - 1, if j < k then j else j - 1;
      assert SufLe(t, s[i'], s[j']);
    }
  }

  lemma InsertSuffix(t: seq<Byte>, s: seq<int>, q: int, k: nat)
    requires SortedFrom(t, q + 1, s) && 0 <= q < |t| && k <= |s|
    requires (k < |s| ==> SufLe(t, q, s[k])) && forall i :: 0 <= i < k ==> !SufLe(t, q, s[i])
    ensures SortedFrom(t, q, s[..k] + [q] + s[k..])
  {
    hide SufLe;
    var u := s[..k] + [q] + s[k..];
    forall i, j {:trigger SufLe(t, u[i], u[j])} | 0 <= i < j < |u|
      ensures u[i] != u[j] && SufLe(t, u[i], u[j])
    {
      InsertedPair(t, s, q, k, i, j);
    }
  }

  function SortedSuffixes(t: seq<Byte>, lo: nat): (s: seq<int>)
    requires lo <= |t|
    ensures SortedFrom(t, lo, s)
    decreases |t| - lo
  {
    if lo == |t| then []
    else
      var s := SortedSuffixes(t, lo + 1);
      var k := PlaceFor(t, s, lo);
      InsertSuffix(t, s, lo, k);
      s[..k] + [lo] + s[k..]
  }

  /** Stands for libsais, whose contract is all that is used of it here: every text has a suffix array. */
  function SuffixArrayOf(t: seq<Byte>): (sa: seq<int>)
    ensures IsSuffixArray(t, sa)
  {
    SortedSuffixes(t, 0)
  }
}
