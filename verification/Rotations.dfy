/**
 Cyclic rotations of a block, their lexicographic order, and the fact the whole
 Burrows-Wheeler stage rests on: a sorted listing of all rotations is unique as
 a sequence of strings, even when a periodic block makes rotations tie.
 */
module Rotations {
  import opened Bits

  function Rot(b: seq<Byte>, i: int): (r: seq<Byte>)
    requires 0 <= i <= |b|
    ensures |r| == |b|
  {
    b[i..] + b[..i]
  }

  // The index one step to the left, as the encoder computes it.
  function Pred(i: int, n: int): (j: int)
    requires 0 <= i < n
    ensures 0 <= j < n
  {
    if i - 1 < 0 then i - 1 + n else i - 1
  }

  function Succ(i: int, n: int): (j: int)
    requires 0 <= i < n
    ensures 0 <= j < n && Pred(j, n) == i
  {
    if i + 1 == n then 0 else i + 1
  }

  // Lexicographic order of equally long strings.
  predicate Le(a: seq<Byte>, c: seq<Byte>)
    requires |a| == |c|
    decreases |a|
  {
    a == [] || a[0] < c[0] || (a[0] == c[0] && Le(a[1..], c[1..]))
  }

  lemma {:induction false} LeRefl(a: seq<Byte>)
    ensures Le(a, a)
    decreases |a|
  {
    if a != [] {
      LeRefl(a[1..]);
    }
  }

  lemma {:induction false} LeAntisym(a: seq<Byte>, c: seq<Byte>)
    requires |a| == |c| && Le(a, c) && Le(c, a)
    ensures a == c
    decreases |a|
  {
    if a != [] {
      LeAntisym(a[1..], c[1..]);
      assert a == [a[0]] + a[1..] && c == [c[0]] + c[1..];
    }
  }

  lemma {:induction false} LePrefix(a: seq<Byte>, c: seq<Byte>, k: nat)
    requires |a| == |c| && k <= |a| && Le(a, c)
    ensures Le(a[..k], c[..k])
    decreases k
  {
    if k != 0 && a[0] == c[0] {
      LePrefix(a[1..], c[1..], k - 1);
      assert a[1..][..k - 1] == a[..k][1..] && c[1..][..k - 1] == c[..k][1..];
    }
  }

  predicate IsPerm(p: seq<int>) {
    && (forall i :: 0 <= i < |p| ==> 0 <= p[i] < |p|)
    && (forall i, j :: 0 <= i < j < |p| ==> p[i] != p[j])
  }

  // p lists every rotation of b, in non-decreasing order.
  ghost predicate SortsRotations(b: seq<Byte>, p: seq<int>) {
    && |p| == |b|
    && IsPerm(p)
    && forall i, j {:trigger RotLe(b, p[i], p[j])} :: 0 <= i < j < |p| ==> RotLe(b, p[i], p[j])
  }

  predicate RotLe(b: seq<Byte>, x: int, y: int)
    requires 0 <= x <= |b| && 0 <= y <= |b|
  {
    Le(Rot(b, x), Rot(b, y))
  }

  // The column of bytes that precede the sorted rotations.
  function LastColumn(b: seq<Byte>, p: seq<int>): (l: seq<Byte>)
    requires |p| == |b|
    requires forall i :: 0 <= i < |p| ==> 0 <= p[i] < |b|
    ensures |l| == |b|
    ensures forall i :: 0 <= i < |l| ==> l[i] == b[Pred(p[i], |b|)]
  {
    seq(|p|, i requires 0 <= i < |p| => b[Pred(p[i], |b|)])
  }

  lemma PermCovers(p: seq<int>)
    requires IsPerm(p)
    ensures forall x :: 0 <= x < |p| ==> x in p
  {
    var all, hit := Below(|p|), set i | 0 <= i < |p| :: p[i];
    ImageCard(p, |p|);
    SubsetFull(hit, all);
    forall x | 0 <= x < |p|
      ensures x in p
    {
      assert x in all && x in hit;
    }
  }

  ghost function Below(n: nat): (s: set<int>)
    ensures |s| == n && forall x :: x in s <==> 0 <= x < n
    decreases n
  {
    if n == 0 then {} else Below(n - 1) + {n - 1}
  }

  lemma SubsetFull(a: set<int>, c: set<int>)
    requires a <= c && |a| == |c|
    ensures a == c
  {
    assert c == a + (c - a);
    assert |c| == |a| + |c - a|;
  }

  lemma {:induction false} ImageCard(p: seq<int>, k: nat)
    requires k <= |p| && forall i, j :: 0 <= i < j < |p| ==> p[i] != p[j]
    ensures |set i | 0 <= i < k :: p[i]| == k
    decreases k
  {
    if k != 0 {
      ImageCard(p, k - 1);
      var s := set i | 0 <= i < k - 1 :: p[i];
      assert (set i | 0 <= i < k :: p[i]) == s + {p[k - 1]};
      assert p[k - 1] !in s;
    }
  }

  // ----- uniqueness of the sorted listing

  lemma PermMultiset(p: seq<int>, q: seq<int>)
    requires IsPerm(p) && IsPerm(q) && |p| == |q|
    ensures multiset(p) == multiset(q)
  {
    PermCovers(p);
    PermCovers(q);
    forall x
      ensures multiset(p)[x] == multiset(q)[x]
    {
      InjectiveCount(p, x);
      InjectiveCount(q, x);
      assert x in p <==> x in q;
    }
  }

  lemma {:induction false} InjectiveCount(p: seq<int>, x: int)
    requires forall i, j :: 0 <= i < j < |p| ==> p[i] != p[j]
    ensures multiset(p)[x] == if x in p then 1 else 0
    decreases |p|
  {
    if p != [] {
      InjectiveCount(p[1..], x);
      assert p == [p[0]] + p[1..];
    }
  }

  lemma TailMultiset<T>(s: seq<T>)
    requires s != []
    ensures multiset(s[1..]) == multiset(s) - multiset{s[0]} && s == [s[0]] + s[1..]
  {
    assert s == [s[0]] + s[1..];
  }

  ghost function Rots(b: seq<Byte>, p: seq<int>): (r: seq<seq<Byte>>)
    requires forall i :: 0 <= i < |p| ==> 0 <= p[i] < |b|
    ensures |r| == |p| && forall i :: 0 <= i < |r| ==> r[i] == Rot(b, p[i])
  {
    seq(|p|, i requires 0 <= i < |p| => Rot(b, p[i]))
  }

  lemma {:induction false} RotsMultiset(b: seq<Byte>, p: seq<int>, q: seq<int>)
    requires multiset(p) == multiset(q)
    requires forall i :: 0 <= i < |p| ==> 0 <= p[i] < |b|
    requires forall i :: 0 <= i < |q| ==> 0 <= q[i] < |b|
    ensures multiset(Rots(b, p)) == multiset(Rots(b, q))
    decreases |p|
  {
    if p == [] {
      assert |multiset(q)| == |q| == 0;
    } else {
      assert p[0] in multiset(q);
      var j :| 0 <= j < |q| && q[j] == p[0];
      RotsRemove(b, p, 0);
      RotsRemove(b, q, j);
      var p', q' := Without(p, 0), Without(q, j);
      assert multiset(p') == multiset(p) - multiset{p[0]} == multiset(q');
      RotsMultiset(b, p', q');
    }
  }

  function Without<T>(s: seq<T>, j: nat): seq<T>
    requires j < |s|
  {
    s[..j] + s[j + 1..]
  }

  lemma RotsRemove(b: seq<Byte>, q: seq<int>, j: nat)
    requires j < |q|
    requires forall i :: 0 <= i < |q| ==> 0 <= q[i] < |b|
    ensures multiset(q) == multiset(Without(q, j)) + multiset{q[j]}
    ensures forall i :: 0 <= i < |Without(q, j)| ==> 0 <= Without(q, j)[i] < |b|
    ensures multiset(Rots(b, q)) == multiset(Rots(b, Without(q, j))) + multiset{Rot(b, q[j])}
  {
    RemoveAt(q, j);
    RemoveAt(Rots(b, q), j);
    assert Without(Rots(b, q), j) == Rots(b, Without(q, j));
  }

  lemma RemoveAt<T>(s: seq<T>, j: nat)
    requires j < |s|
    ensures multiset(s) == multiset(Without(s, j)) + multiset{s[j]}
  {
    assert s == s[..j] + ([s[j]] + s[j + 1..]);
  }

  ghost predicate SortedStrings(n: nat, s: seq<seq<Byte>>) {
    && (forall i :: 0 <= i < |s| ==> |s[i]| == n)
    && forall i, j :: 0 <= i < j < |s| ==> Le(s[i], s[j])
  }

  lemma {:induction false} SortedStringsUnique(n: nat, s: seq<seq<Byte>>, t: seq<seq<Byte>>)
    requires SortedStrings(n, s) && SortedStrings(n, t) && multiset(s) == multiset(t)
    ensures s == t
    decreases |s|
  {
    if s == [] {
      assert |multiset(t)| == |t| == 0;
    } else {
      assert |multiset(s)| == |s| && |multiset(t)| == |t|;
      HeadIsLeast(n, s, t);
      HeadIsLeast(n, t, s);
      LeAntisym(s[0], t[0]);
      TailMultiset(s);
      TailMultiset(t);
      SortedStringsUnique(n, s[1..], t[1..]);
    }
  }

  lemma HeadIsLeast(n: nat, s: seq<seq<Byte>>, t: seq<seq<Byte>>)
    requires SortedStrings(n, s) && SortedStrings(n, t) && multiset(s) == multiset(t)
    requires s != [] && t != []
    ensures Le(s[0], t[0])
  {
    assert t[0] in multiset(t) && t[0] in multiset(s);
    var j :| 0 <= j < |s| && s[j] == t[0];
    LeRefl(s[0]);
  }

  lemma RotsSorted(b: seq<Byte>, p: seq<int>)
    requires SortsRotations(b, p)
    ensures SortedStrings(|b|, Rots(b, p))
  {
    forall i, j | 0 <= i < j < |p|
      ensures Le(Rots(b, p)[i], Rots(b, p)[j])
    {
      assert RotLe(b, p[i], p[j]);
    }
  }

  // Two sorters may break ties differently, but never visibly.
  lemma SortedRotationsUnique(b: seq<Byte>, p: seq<int>, q: seq<int>)
    requires SortsRotations(b, p) && SortsRotations(b, q)
    ensures forall k :: 0 <= k < |b| ==> Rot(b, p[k]) == Rot(b, q[k])
    ensures LastColumn(b, p) == LastColumn(b, q)
  {
    PermMultiset(p, q);
    RotsMultiset(b, p, q);
    RotsSorted(b, p);
    RotsSorted(b, q);
    SortedStringsUnique(|b|, Rots(b, p), Rots(b, q));
    forall k | 0 <= k < |b|
      ensures Rot(b, p[k]) == Rot(b, q[k])
      ensures LastColumn(b, p)[k] == LastColumn(b, q)[k]
    {
      assert Rots(b, p)[k] == Rots(b, q)[k];
      LastOfRot(b, p[k]);
      LastOfRot(b, q[k]);
    }
  }

  lemma LastOfRot(b: seq<Byte>, i: int)
    requires 0 <= i < |b|
    ensures Rot(b, i)[|b| - 1] == b[Pred(i, |b|)]
  {
  }

  lemma RotPred(b: seq<Byte>, i: int)
    requires 0 <= i < |b|
    ensures Rot(b, Pred(i, |b|)) == [b[Pred(i, |b|)]] + Rot(b, i)[..|b| - 1]
  {
    var n := |b|;
    if i == 0 {
      assert Rot(b, n - 1) == [b[n - 1]] + b[..n - 1];
    } else {
      assert Rot(b, i - 1) == [b[i - 1]] + (b[i..] + b[..i - 1]);
      assert Rot(b, i)[..n - 1] == b[i..] + b[..i - 1];
    }
  }

  lemma RotSucc(b: seq<Byte>, i: int)
    requires 0 <= i < |b|
    ensures Rot(b, Succ(i, |b|)) == Rot(b, i)[1..] + [Rot(b, i)[0]]
  {
    var n := |b|;
    if i + 1 == n {
      assert Rot(b, 0) == b;
      assert Rot(b, i)[1..] == b[..n - 1];
      assert b == b[..n - 1] + [b[n - 1]];
    } else {
      assert Rot(b, i) == [b[i]] + (b[i + 1..] + b[..i]);
      assert b[..i + 1] == b[..i] + [b[i]];
    }
  }

  // Rotation 0 is among those listed.
  lemma ZeroListed(b: seq<Byte>, p: seq<int>)
    requires SortsRotations(b, p) && b != []
    ensures 0 in p && |p| == |b|
  {
    PermCovers(p);
  }
}
