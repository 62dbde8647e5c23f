/**
 Cyclic prefixes of a block and their order: what prefix doubling sorts by.
 */
module Cyclic {
  import opened Bits
  import opened Rotations

  // The m bytes read cyclically from position i.
  function Cyc(b: seq<Byte>, i: int, m: nat): (c: seq<Byte>)
    requires 0 <= i < |b|
    ensures |c| == m
    decreases m
  {
    if m == 0 then [] else [b[i]] + Cyc(b, Succ(i, |b|), m - 1)
  }

  // h steps further round.
  function Plus(i: int, h: int, n: int): (j: int)
    requires 0 <= i < n && 0 <= h <= n
    ensures 0 <= j < n
  {
    if i + h >= n then i + h - n else i + h
  }

  // h steps back, as the encoder computes it.
  function Minus(i: int, h: int, n: int): (j: int)
    requires 0 <= i < n && 0 <= h <= n
    ensures 0 <= j < n && Plus(j, h, n) == i
  {
    if i - h < 0 then i - h + n else i - h
  }

  lemma {:induction false} CycSplit(b: seq<Byte>, i: int, h: nat, m: nat)
    requires 0 <= i < |b| && h <= |b|
    ensures Cyc(b, i, h + m) == Cyc(b, i, h) + Cyc(b, Plus(i, h, |b|), m)
    decreases h
  {
    if h != 0 {
      CycSplit(b, Succ(i, |b|), h - 1, m);
      assert Plus(Succ(i, |b|), h - 1, |b|) == Plus(i, h, |b|);
    }
  }

  lemma {:induction false} CycAt(b: seq<Byte>, i: int, m: nat, t: nat)
    requires 0 <= i < |b| && t < m && t <= |b|
    ensures Cyc(b, i, m)[t] == b[Plus(i, t, |b|)]
    decreases t
  {
    if t != 0 {
      CycAt(b, Succ(i, |b|), m - 1, t - 1);
      assert Plus(Succ(i, |b|), t - 1, |b|) == Plus(i, t, |b|);
    }
  }

  lemma RotIsCyc(b: seq<Byte>, i: int)
    requires 0 <= i < |b|
    ensures Rot(b, i) == Cyc(b, i, |b|)
  {
    hide Cyc;
    forall t | 0 <= t < |b|
      ensures Rot(b, i)[t] == Cyc(b, i, |b|)[t]
    {
      CycAt(b, i, |b|, t);
    }
  }

  lemma CycPrefix(b: seq<Byte>, i: int, h: nat, m: nat)
    requires 0 <= i < |b| && h <= |b|
    ensures Cyc(b, i, h + m)[..h] == Cyc(b, i, h)
  {
    hide Cyc;
    CycSplit(b, i, h, m);
  }

  // ----- strict order

  predicate Lt(a: seq<Byte>, c: seq<Byte>)
    requires |a| == |c|
  {
    Le(a, c) && a != c
  }

  lemma {:induction false} LeTrans(a: seq<Byte>, c: seq<Byte>, d: seq<Byte>)
    requires |a| == |c| == |d| && Le(a, c) && Le(c, d)
    ensures Le(a, d)
    decreases |a|
  {
    if a != [] && a[0] == c[0] == d[0] {
      LeTrans(a[1..], c[1..], d[1..]);
    }
  }

  lemma LtLeTrans(a: seq<Byte>, c: seq<Byte>, d: seq<Byte>)
    requires |a| == |c| == |d| && Le(a, c) && Le(c, d) && (a != c || c != d)
    ensures Lt(a, d)
  {
    LeTrans(a, c, d);
    if a == d { LeAntisym(a, c); }
  }

  lemma {:induction false} LeAppend(a: seq<Byte>, c: seq<Byte>, x: seq<Byte>, y: seq<Byte>)
    requires |a| == |c| && |x| == |y|
    ensures Lt(a, c) ==> Lt(a + x, c + y)
    ensures a == c && Lt(x, y) ==> Lt(a + x, c + y)
    ensures a == c && x == y ==> a + x == c + y
    decreases |a|
  {
    if a == [] {
      assert a + x == x && c + y == y;
    } else {
      assert (a + x)[1..] == a[1..] + x && (c + y)[1..] == c[1..] + y;
      if a[0] == c[0] {
        assert a == [a[0]] + a[1..] && c == [c[0]] + c[1..];
        LeAppend(a[1..], c[1..], x, y);
        assert a + x == [a[0]] + (a[1..] + x) && c + y == [c[0]] + (c[1..] + y);
        if Lt(a, c) || (a == c && Lt(x, y)) {
          assert (a + x)[1..] != (c + y)[1..];
        }
      } else {
        assert (a + x)[0] != (c + y)[0];
      }
    }
  }
}
