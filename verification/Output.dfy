/**
 The two output loops (unRLE_obuf_to_output_FAST and _SMALL) against the run-length
 expansion of the bytes they fetch, for any sequence of output buffer sizes.
 */
module Output {
  import opened Bits
  import opened Expansion
  import opened InverseBwt
  import opened Rotations
  import Crc
  import CC = ClmulCrc
  import Gf2

  // A decoded column, the inverse of its T vector, and where the block starts.
  datatype Source = Source(l: seq<Byte>, p: seq<int>, orig: int, level: int)

  ghost predicate Good(x: Source) {
    && 1 <= |x.l| <= 100000 * x.level <= 900000 && InvertsT(x.l, x.p) && 0 <= x.orig < |x.l|
    && |x.p| == |x.l| && forall i :: 0 <= i < |x.p| ==> 0 <= x.p[i] < |x.p|
  }

  // The bytes fetched one after the other: the block, and two more.
  ghost function Fetched(x: Source): (f: seq<Byte>)
    requires Good(x)
    ensures |f| == |x.l| + 2
  {
    seq(|x.l| + 2, u requires 0 <= u < |x.l| + 2 => x.l[Walk(x.p, x.orig, u + 1)])
  }

  /** What is fetched first is the block itself, periodic or not. */
  lemma FetchedIsBlock(x: Source, b: seq<Byte>, ptr: seq<int>)
    requires Good(x) && SortsRotations(b, ptr) && x.l == LastColumn(b, ptr) && ptr[x.orig] == 0
    ensures Fetched(x)[..|x.l|] == b
  {
    hide SortsRotations, InvertsT, LastColumn, Walk;
    LastColumnSize(b, ptr);
    forall u | 0 <= u < |b|
      ensures Fetched(x)[u] == b[u]
    {
      WalkReadsBlock(b, ptr, x.p, x.orig, u + 1);
    }
  }

  lemma LastColumnSize(b: seq<Byte>, ptr: seq<int>)
    requires SortsRotations(b, ptr)
    ensures |ptr| == |b| && (forall i :: 0 <= i < |ptr| ==> 0 <= ptr[i] < |b|) && |LastColumn(b, ptr)| == |b|
  {
  }

  // The word array of the FAST form: links and column bytes.
  ghost predicate FastHolds(x: Source, tt: seq<int>)
    requires Good(x)
  {
    |x.l| <= |tt| && forall k :: 0 <= k < |x.l| ==> tt[k] / 256 == x.p[k] && tt[k] % 256 == x.l[k]
  }

  // Reading off the rest: what has been put out, the run in hand and what is to come.
  ghost predicate Owing(x: Source, total: Expanded, done: seq<Byte>, ch: Byte, len: int, used: int, k0: Byte)
  {
    && Good(x) && 1 <= used <= |x.l| + 2 && 0 <= len
    && Prefixed(done + Fill(ch, len), Rest(Fetched(x), |x.l|, used, k0)) == total
  }

  lemma OwingOne(x: Source, total: Expanded, done: seq<Byte>, ch: Byte, len: int, used: int, k0: Byte, m: nat)
    requires Owing(x, total, done, ch, len, used, k0) && m <= len
    ensures Owing(x, total, done + Fill(ch, m), ch, len - m, used, k0)
  {
    hide Rest, Fetched, Good;
    assert Fill(ch, len) == Fill(ch, m) + Fill(ch, len - m);
    assert done + Fill(ch, len) == done + Fill(ch, m) + Fill(ch, len - m);
  }

  lemma OwingPrefix(x: Source, total: Expanded, done: seq<Byte>, ch: Byte, len: int, used: int, k0: Byte)
    requires Owing(x, total, done, ch, len, used, k0)
    ensures done <= total.out && 1 <= used <= |x.l| + 2 && 0 <= len
    ensures used == |x.l| + 1 && len == 0 ==> total == Expanded(done, false)
    ensures used > |x.l| + 1 ==> total.corrupt
    ensures used > |x.l| + 1 && len == 0 ==> total == Expanded(done, true)
  {
    hide Fetched, Good;
    if len == 0 { assert Fill(ch, 0) == []; }
    if used >= |x.l| + 1 && len == 0 {
      assert done + Fill(ch, len) == done;
      assert done + [] == done;
    }
  }

  // A finished run and the next one, of j bytes, fetched.
  lemma OwingRun(x: Source, total: Expanded, done: seq<Byte>, ch: Byte, used: int, k0: Byte, j: nat, used': nat,
                 k0': Byte)
    requires Owing(x, total, done, ch, 0, used, k0) && used <= |x.l| && used' <= |x.l| + 2
    requires Rest(Fetched(x), |x.l|, used, k0) == Prefixed(Fill(k0, j), Rest(Fetched(x), |x.l|, used', k0'))
      && 1 <= used'
    ensures Owing(x, total, done, k0, j, used', k0')
  {
    hide Rest, Fetched, Good;
    assert done + Fill(ch, 0) == done;
    var e := Rest(Fetched(x), |x.l|, used', k0');
    assert done + (Fill(k0, j) + e.out) == done + Fill(k0, j) + e.out;
  }

  // The four shapes of the next run.
  lemma NextRun(f: seq<Byte>, n: nat, used: nat, k0: Byte)
    requires n + 2 <= |f| && 1 <= used <= n
    ensures f[used] != k0 || used + 1 == n + 1 ==>
      Rest(f, n, used, k0) == Prefixed(Fill(k0, 1), Rest(f, n, used + 1, f[used]))
    ensures used + 1 == n + 1 ==> Rest(f, n, used + 1, f[used]) == Rest(f, n, used + 1, k0)
    ensures f[used] == k0 && used + 1 <= n ==>
      && (f[used + 1] != k0 || used + 2 == n + 1 ==>
          Rest(f, n, used, k0) == Prefixed(Fill(k0, 2), Rest(f, n, used + 2, f[used + 1])))
      && (used + 2 == n + 1 ==> Rest(f, n, used + 2, f[used + 1]) == Rest(f, n, used + 2, k0))
    ensures f[used] == k0 && used + 2 <= n && f[used + 1] == k0 ==>
      && (f[used + 2] != k0 || used + 3 == n + 1 ==>
          Rest(f, n, used, k0) == Prefixed(Fill(k0, 3), Rest(f, n, used + 3, f[used + 2])))
      && (used + 3 == n + 1 ==> Rest(f, n, used + 3, f[used + 2]) == Rest(f, n, used + 3, k0))
    ensures f[used] == k0 && used + 3 <= n && f[used + 1] == k0 && f[used + 2] == k0 ==>
      Rest(f, n, used, k0) == Prefixed(Fill(k0, f[used + 3] as int + 4), Rest(f, n, used + 5, f[used + 4]))
  {
    hide Fill;
  }

  // ----- fetching

  // The cells of the SMALL form along the walk, and the bucket bounds.
  ghost predicate SmallHolds(x: Source, cells: seq<int>, cftab: seq<int>)
    requires Good(x)
  {
    && |x.l| <= |cells| && |cftab| == 257
    && (forall m: nat :: cells[Walk(x.p, x.orig, m)] == x.p[Walk(x.p, x.orig, m)])
    && forall c :: 0 <= c <= 256 ==> cftab[c] == CountBelow(x.l, c, |x.l|)
  }

  lemma WalkOn(x: Source, m: nat)
    requires Good(x)
    ensures 0 <= Walk(x.p, x.orig, m) < |x.l| && Walk(x.p, x.orig, m + 1) == x.p[Walk(x.p, x.orig, m)]
  {
    hide InvertsT;
  }

  lemma FetchedAt(x: Source, u: nat)
    requires Good(x) && u < |x.l| + 2
    ensures Fetched(x)[u] == x.l[Walk(x.p, x.orig, u + 1)]
  {
    hide InvertsT, Walk;
  }

  // BZ_GET_FAST: the position stays inside the block, so the range guard never fires.
  method GetFast(tt: seq<int>, tPos: int, ghost x: Source, ghost used: nat) returns (c: Byte, tPos': int)
    requires Good(x) && FastHolds(x, tt) && used < |x.l| + 2 && tPos == Walk(x.p, x.orig, used + 1)
    ensures c == Fetched(x)[used] && tPos' == Walk(x.p, x.orig, used + 2)
  {
    hide InvertsT, Walk, Fetched;
    WalkOn(x, used + 1);
    FetchedAt(x, used);
    assert tPos < 100000 * x.level;
    var w := tt[tPos];
    c := w % 256;
    tPos' := w / 256;
  }

  // The array form of what BZ2_indexIntoF needs.
  lemma BucketsMono(x: Source, cftab: seq<int>)
    requires Good(x) && |cftab| == 257 && forall c :: 0 <= c <= 256 ==> cftab[c] == CountBelow(x.l, c, |x.l|)
    ensures cftab[0] == 0 && cftab[256] == |x.l| && forall c, d :: 0 <= c <= d <= 256 ==> cftab[c] <= cftab[d]
  {
    CountBelowEnds(x.l, |x.l|);
    hide CountBelow;
    forall c, d | 0 <= c <= d <= 256
      ensures cftab[c] <= cftab[d]
    {
      CountBelowMono(x.l, c, d, |x.l|);
    }
  }

  // BZ_GET_SMALL
  method GetSmall(ll: Packed20, cftab: array<int>, tPos: int, ghost x: Source, ghost used: nat)
    returns (c: Byte, tPos': int)
    requires Good(x) && ll.Valid() && SmallHolds(x, ll.Cells(), cftab[..]) && used < |x.l| + 2
      && tPos == Walk(x.p, x.orig, used)
    ensures c == Fetched(x)[used] && tPos' == Walk(x.p, x.orig, used + 1)
  {
    hide InvertsT, Walk, Fetched, CountBelow;
    WalkOn(x, used);
    FetchedAt(x, used);
    BucketsMono(x, cftab[..]);
    assert tPos < 100000 * x.level;
    assert forall d, e :: 0 <= d <= e <= 256 ==> cftab[d] <= cftab[e] by {
      forall d, e | 0 <= d <= e <= 256 ensures cftab[d] <= cftab[e] { assert cftab[..][d] <= cftab[..][e]; }
    }
    var nb := IndexIntoF(tPos, cftab);
    assert cftab[..][nb] == CountBelow(x.l, nb, |x.l|) && cftab[..][nb + 1] == CountBelow(x.l, nb + 1, |x.l|);
    BucketIsByte(x.l, x.p, tPos, nb);
    c := nb;
    assert ll.Cells()[tPos] == ll.Get(tPos);
    tPos' := ll.Get(tPos);
  }

  // ----- emitting

  // The part of a run that fits; a run of one byte is written singly, the rest in batches.
  method DrainFast(out0: seq<Byte>, ch: Byte, len0: int, avail0: nat, crc0: nat, jump: bool, accelerated: bool)
    returns (out: seq<Byte>, len: int, avail: nat, crc: nat, blocked: bool)
    requires 1 <= len0 && (jump ==> len0 == 1) && crc0 < Gf2.TOP32 && crc0 == Crc.Update(Crc.CRC_INIT, out0)
    ensures |out0| <= |out| && out == out0 + Fill(ch, |out| - |out0|) && avail == avail0 - (|out| - |out0|)
    ensures crc < Gf2.TOP32 && crc == Crc.Update(Crc.CRC_INIT, out)
    ensures if blocked then avail == 0 && 1 <= len && len == len0 - (|out| - |out0|) else |out| - |out0| == len0
  {
    hide *;
    out, len, avail, crc, blocked := out0, len0, avail0, crc0, true;
    Crc.InitBound();
    assert out0 == out0 + Fill(ch, 0);
    if !jump {
      while true
        invariant 1 <= len <= len0 && |out0| <= |out| && len == len0 - (|out| - |out0|)
          && avail == avail0 - (|out| - |out0|)
        invariant out == out0 + Fill(ch, |out| - |out0|) && crc < Gf2.TOP32 && crc == Crc.Update(Crc.CRC_INIT, out)
        decreases len
      {
        if avail == 0 { return; }
        if len == 1 { break; }
        var n := len - 1;
        if n > avail { n := avail; }
        var run := Fill(ch, n);
        Crc.UpdateConcat(Crc.CRC_INIT, out, run);
        crc := CC.UpdateBuffer(crc, run, 0, accelerated);
        FillMore(out0, out, ch, |out| - |out0|, n);
        out := out + run;
        avail := avail - n;
        len := len - n;
      }
    }
    if avail == 0 { return; }
    Crc.UpdateSnoc(Crc.CRC_INIT, out, ch);
    crc := Crc.UpdateByte(crc, ch);
    FillMore(out0, out, ch, |out| - |out0|, 1);
    assert out + Fill(ch, 1) == out + [ch];
    out := out + [ch];
    avail := avail - 1;
    blocked := false;
  }

  lemma FillMore(out0: seq<Byte>, out: seq<Byte>, ch: Byte, a: nat, n: nat)
    requires out == out0 + Fill(ch, a)
    ensures out + Fill(ch, n) == out0 + Fill(ch, a + n)
  {
  }

  // The inner loop of the SMALL form.
  method DrainSmall(out0: seq<Byte>, ch: Byte, len0: int, avail0: nat, crc0: nat)
    returns (out: seq<Byte>, len: int, avail: nat, crc: nat)
    requires 0 <= len0 && crc0 < Gf2.TOP32 && crc0 == Crc.Update(Crc.CRC_INIT, out0)
    ensures |out0| <= |out| && out == out0 + Fill(ch, |out| - |out0|) && avail == avail0 - (|out| - |out0|)
    ensures crc < Gf2.TOP32 && crc == Crc.Update(Crc.CRC_INIT, out)
    ensures 0 <= len == len0 - (|out| - |out0|) && (avail == 0 || len == 0)
  {
    hide *;
    out, len, avail, crc := out0, len0, avail0, crc0;
    Crc.InitBound();
    assert out0 == out0 + Fill(ch, 0);
    while true
      invariant 0 <= len <= len0 && |out0| <= |out| && len == len0 - (|out| - |out0|)
        && avail == avail0 - (|out| - |out0|)
      invariant out == out0 + Fill(ch, |out| - |out0|) && crc < Gf2.TOP32 && crc == Crc.Update(Crc.CRC_INIT, out)
      decreases len
    {
      if avail == 0 { return; }
      if len == 0 { break; }
      Crc.UpdateSnoc(Crc.CRC_INIT, out, ch);
      crc := Crc.UpdateByte(crc, ch);
      FillMore(out0, out, ch, |out| - |out0|, 1);
      assert out + Fill(ch, 1) == out + [ch];
      out := out + [ch];
      len := len - 1;
      avail := avail - 1;
    }
  }

  // ----- taking up the next run

  // The code after the drain: up to five fetches.  jump is the goto to the single-byte write.
  method TakeFast(tt: seq<int>, tPos0: int, used0: nat, k0: Byte, n: nat, ghost x: Source, ghost total: Expanded,
                  ghost done: seq<Byte>, ghost ch: Byte)
    returns (len: int, tPos: int, used: nat, k0': Byte, jump: bool)
    requires Good(x) && FastHolds(x, tt) && n == |x.l| && used0 <= n && tPos0 == Walk(x.p, x.orig, used0 + 1)
    requires Owing(x, total, done, ch, 0, used0, k0)
    ensures Owing(x, total, done, k0, len, used, k0') && tPos == Walk(x.p, x.orig, used + 1) && 1 <= len
    ensures used0 < used <= n + 2 && (jump ==> len == 1)
  {
    hide InvertsT, Walk, Fetched, Rest, FastHolds;
    ghost var f := Fetched(x);
    NextRun(f, n, used0, k0);
    var k1;
    tPos, used, k0', jump := tPos0, used0, k0, false;
    k1, tPos := GetFast(tt, tPos, x, used);
    used := used + 1;
    if k1 != k0 {
      OwingRun(x, total, done, ch, used0, k0, 1, used, k1);
      return 1, tPos, used, k1, true;
    }
    if used == n + 1 {
      OwingRun(x, total, done, ch, used0, k0, 1, used, k0);
      return 1, tPos, used, k0, true;
    }
    k1, tPos := GetFast(tt, tPos, x, used);
    used := used + 1;
    if used == n + 1 || k1 != k0 {
      k0' := if used == n + 1 then k0 else k1;
      OwingRun(x, total, done, ch, used0, k0, 2, used, k0');
      return 2, tPos, used, k0', false;
    }
    k1, tPos := GetFast(tt, tPos, x, used);
    used := used + 1;
    if used == n + 1 || k1 != k0 {
      k0' := if used == n + 1 then k0 else k1;
      OwingRun(x, total, done, ch, used0, k0, 3, used, k0');
      return 3, tPos, used, k0', false;
    }
    k1, tPos := GetFast(tt, tPos, x, used);
    used := used + 1;
    len := k1 as int + 4;
    k0', tPos := GetFast(tt, tPos, x, used);
    used := used + 1;
    OwingRun(x, total, done, ch, used0, k0, len, used, k0');
  }

  method TakeSmall(ll: Packed20, cftab: array<int>, tPos0: int, used0: nat, k0: Byte, n: nat, ghost x: Source,
                   ghost total: Expanded, ghost done: seq<Byte>, ghost ch: Byte)
    returns (len: int, tPos: int, used: nat, k0': Byte)
    requires Good(x) && ll.Valid() && SmallHolds(x, ll.Cells(), cftab[..]) && n == |x.l| && used0 <= n
      && tPos0 == Walk(x.p, x.orig, used0)
    requires Owing(x, total, done, ch, 0, used0, k0)
    ensures Owing(x, total, done, k0, len, used, k0') && tPos == Walk(x.p, x.orig, used) && 1 <= len
    ensures used0 < used <= n + 2
  {
    hide InvertsT, Walk, Fetched, Rest, SmallHolds, Packed20.Cells;
    ghost var f := Fetched(x);
    NextRun(f, n, used0, k0);
    var k1;
    tPos, used, k0' := tPos0, used0, k0;
    k1, tPos := GetSmall(ll, cftab, tPos, x, used);
    used := used + 1;
    if used == n + 1 || k1 != k0 {
      k0' := if used == n + 1 then k0 else k1;
      OwingRun(x, total, done, ch, used0, k0, 1, used, k0');
      return 1, tPos, used, k0';
    }
    k1, tPos := GetSmall(ll, cftab, tPos, x, used);
    used := used + 1;
    if used == n + 1 || k1 != k0 {
      k0' := if used == n + 1 then k0 else k1;
      OwingRun(x, total, done, ch, used0, k0, 2, used, k0');
      return 2, tPos, used, k0';
    }
    k1, tPos := GetSmall(ll, cftab, tPos, x, used);
    used := used + 1;
    if used == n + 1 || k1 != k0 {
      k0' := if used == n + 1 then k0 else k1;
      OwingRun(x, total, done, ch, used0, k0, 3, used, k0');
      return 3, tPos, used, k0';
    }
    k1, tPos := GetSmall(ll, cftab, tPos, x, used);
    used := used + 1;
    len := k1 as int + 4;
    k0', tPos := GetSmall(ll, cftab, tPos, x, used);
    used := used + 1;
    OwingRun(x, total, done, ch, used0, k0, len, used, k0');
  }

  lemma WalkStart(x: Source)
    requires Good(x)
    ensures Walk(x.p, x.orig, 0) == x.orig
  {
    hide InvertsT;
  }

  lemma NothingYet()
    ensures Crc.Update(Crc.CRC_INIT, []) == 0xffff_ffff && Crc.CRC_INIT < Gf2.TOP32
  {
  }

  lemma OwingStart(x: Source)
    requires Good(x)
    ensures Owing(x, Rest(Fetched(x), |x.l|, 1, Fetched(x)[0]), [], 0, 0, 1, Fetched(x)[0])
  {
    hide Rest, Fetched, Good;
    var e := Rest(Fetched(x), |x.l|, 1, Fetched(x)[0]);
    assert [] + Fill(0, 0) == [];
    assert [] + e.out == e.out;
  }

  // ----- the two loops

  class Unrle {
    var tPos: int
    var nblockUsed: nat
    var k0: Byte
    var stateOutLen: int
    var stateOutCh: Byte
    var calculatedBlockCRC: nat
    var output: seq<Byte>      // written to the caller since the block began

    // The walk stands where the form in use leaves it after nblockUsed fetches.
    ghost predicate Valid(x: Source, total: Expanded, fast: bool)
      reads this
    {
      && Good(x) && Owing(x, total, output, stateOutCh, stateOutLen, nblockUsed, k0)
      && tPos == Walk(x.p, x.orig, if fast then nblockUsed + 1 else nblockUsed)
      && calculatedBlockCRC < Gf2.TOP32 && calculatedBlockCRC == Crc.Update(Crc.CRC_INIT, output)
    }

    // nblock_used == save_nblock + 1 && state_out_len == 0
    predicate Finished(n: nat)
      reads this
    {
      nblockUsed == n + 1 && stateOutLen == 0
    }

    /** The end of the FAST set-up in BZ2_decompress. */
    constructor Fast(tt: seq<int>, origPtr: int, ghost x: Source)
      requires Good(x) && FastHolds(x, tt) && origPtr == x.orig
      ensures Valid(x, Rest(Fetched(x), |x.l|, 1, Fetched(x)[0]), true) && output == []
    {
      hide InvertsT, Walk, Fetched, Rest;
      WalkOn(x, 0);
      WalkStart(x);
      NothingYet();
      var c, t := GetFast(tt, tt[origPtr] / 256, x, 0);
      tPos, nblockUsed, k0, stateOutLen, stateOutCh := t, 1, c, 0, 0;
      calculatedBlockCRC, output := 0xffff_ffff, [];
      OwingStart(x);
    }

    /** The end of the SMALL set-up in BZ2_decompress. */
    constructor Small(ll: Packed20, cftab: array<int>, origPtr: int, ghost x: Source)
      requires Good(x) && ll.Valid() && SmallHolds(x, ll.Cells(), cftab[..]) && origPtr == x.orig
      ensures Valid(x, Rest(Fetched(x), |x.l|, 1, Fetched(x)[0]), false) && output == []
    {
      hide InvertsT, Walk, Fetched, Rest, SmallHolds, Packed20.Cells;
      WalkStart(x);
      NothingYet();
      var c, t := GetSmall(ll, cftab, origPtr, x, 0);
      tPos, nblockUsed, k0, stateOutLen, stateOutCh := t, 1, c, 0, 0;
      calculatedBlockCRC, output := 0xffff_ffff, [];
      OwingStart(x);
    }

    /** unRLE_obuf_to_output_FAST: writes as much of the expansion as fits; the CRC is of exactly
        the bytes written.  Corruption is reported only for a block that ends inside a run, once all
        of it is written; the variables in hand are then not saved, so the call shows no progress. */
    method UnrleFast(tt: seq<int>, availOut: nat, n: nat, accelerated: bool, ghost x: Source, ghost total: Expanded)
      returns (corrupt: bool, avail: nat, written: seq<Byte>)
      requires Valid(x, total, true) && FastHolds(x, tt) && n == |x.l|
      modifies this
      ensures old(output) + written <= total.out && |written| <= availOut
      ensures corrupt ==> total.corrupt && old(output) + written == total.out
      ensures corrupt ==> Valid(x, total, true) && output == old(output) && avail == availOut
      ensures !corrupt ==> Valid(x, total, true) && output == old(output) + written && |written| == availOut - avail
      ensures !corrupt ==> avail == 0 || Finished(n)
    {
      hide InvertsT, Walk, Owing, Crc.Update, FastHolds, Fill;
      var cCrc, cCh, cLen, cUsed, cK0, cTPos, cOut := calculatedBlockCRC, stateOutCh, stateOutLen, nblockUsed, k0, tPos,
        output;
      var put := |output|;
      avail := availOut;
      OwingPrefix(x, total, output, stateOutCh, stateOutLen, nblockUsed, k0);
      var jump := false;
      while true
        invariant Owing(x, total, cOut, cCh, cLen, cUsed, cK0) && (jump ==> cLen == 1) && 0 <= cLen
        invariant cTPos == Walk(x.p, x.orig, cUsed + 1) && cCrc < Gf2.TOP32 && cCrc == Crc.Update(Crc.CRC_INIT, cOut)
        invariant output <= cOut && |cOut| - put == availOut - avail && 0 <= avail && 1 <= cUsed <= n + 2
        modifies {}
        decreases n + 3 - cUsed
      {
        ghost var done, whole := cOut, cLen;
        if cLen > 0 {
          var blocked;
          cOut, cLen, avail, cCrc, blocked := DrainFast(cOut, cCh, cLen, avail, cCrc, jump, accelerated);
          OwingOne(x, total, done, cCh, whole, cUsed, cK0, |cOut| - |done|);
          assert output <= cOut;
          if blocked { break; }
          cLen := 0;
        }
        OwingPrefix(x, total, cOut, cCh, 0, cUsed, cK0);
        if cUsed > n + 1 {
          assert cOut == output + cOut[put..];
          return true, availOut, cOut[put..];
        }
        if cUsed == n + 1 { break; }
        ghost var ch := cCh;
        cCh := cK0;
        cLen, cTPos, cUsed, cK0, jump := TakeFast(tt, cTPos, cUsed, cK0, n, x, total, cOut, ch);
      }
      written := cOut[put..];
      assert cOut == output + written;
      OwingPrefix(x, total, cOut, cCh, cLen, cUsed, cK0);
      calculatedBlockCRC, stateOutCh, stateOutLen, nblockUsed, k0, tPos, output := cCrc, cCh, cLen, cUsed, cK0, cTPos,
        cOut;
      corrupt := false;
    }

    /** unRLE_obuf_to_output_SMALL: the same bytes, the same CRC, the same verdict; progress is kept
        even when the verdict is corruption. */
    method UnrleSmall(ll: Packed20, cftab: array<int>, availOut: nat, n: nat, ghost x: Source, ghost total: Expanded)
      returns (corrupt: bool, avail: nat)
      requires Valid(x, total, false) && ll.Valid() && SmallHolds(x, ll.Cells(), cftab[..]) && n == |x.l|
      modifies this
      ensures Valid(x, total, false) && old(output) <= output <= total.out
        && |output| - |old(output)| == availOut - avail
      ensures corrupt ==> total.corrupt && output == total.out
      ensures !corrupt ==> avail == 0 || Finished(n)
    {
      hide InvertsT, Walk, Owing, Crc.Update, SmallHolds, Packed20.Cells, Fill;
      avail := availOut;
      OwingPrefix(x, total, output, stateOutCh, stateOutLen, nblockUsed, k0);
      while true
        invariant Valid(x, total, false) && 1 <= nblockUsed <= n + 2 && 0 <= stateOutLen
        invariant old(output) <= output && |output| - |old(output)| == availOut - avail
        decreases n + 3 - nblockUsed
      {
        ghost var done, whole := output, stateOutLen;
        output, stateOutLen, avail, calculatedBlockCRC := DrainSmall(output, stateOutCh, stateOutLen, avail,
          calculatedBlockCRC);
        OwingOne(x, total, done, stateOutCh, whole, nblockUsed, k0, |output| - |done|);
        OwingPrefix(x, total, output, stateOutCh, stateOutLen, nblockUsed, k0);
        if stateOutLen != 0 || avail == 0 { return false, avail; }
        OwingPrefix(x, total, output, stateOutCh, 0, nblockUsed, k0);
        if nblockUsed == n + 1 { return false, avail; }
        if nblockUsed > n + 1 { return true, avail; }
        ghost var ch := stateOutCh;
        stateOutCh := k0;
        stateOutLen, tPos, nblockUsed, k0 := TakeSmall(ll, cftab, tPos, nblockUsed, k0, n, x, total, output, ch);
      }
    }
  }

  /** For a decoded block, what both loops owe is the run-length expansion of the original
      block, and they report corruption exactly when the block ends inside a run. */
  lemma BlockOutput(x: Source, b: seq<Byte>, ptr: seq<int>)
    requires Good(x) && SortsRotations(b, ptr) && x.l == LastColumn(b, ptr) && ptr[x.orig] == 0
    ensures SameUpToFault(Rest(Fetched(x), |x.l|, 1, Fetched(x)[0]), Expand(b))
  {
    hide SortsRotations, InvertsT, Walk, Fetched, Rest, Expand, LastColumn;
    FetchedIsBlock(x, b, ptr);
    RestExpands(Fetched(x), |x.l|, 1);
    assert Fetched(x)[0..|x.l|] == Fetched(x)[..|x.l|];
  }
}
