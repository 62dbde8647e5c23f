/**
 The decoder's two-level lookup table: 11 bits index a primary table whose
 positive entries are symbols and whose negative entries point into an overflow
 area indexed by a few more bits.  Over-subscribed codes abandon the table.
 */
module FastTable {
  import opened Bits
  import opened Codes

  const BITS: nat := 11            // BZ_DECODE_TABLE_BITS
  const TBL_SIZE: nat := 2048
  const OVF_SIZE: nat := 512

  // (len << 16) | sym
  function Pack(len: nat, sym: nat): nat {
    Or(len * 0x1_0000, sym)
  }

  lemma PackParts(len: nat, sym: nat)
    requires sym < 0x1_0000
    ensures Pack(len, sym) == len * 0x1_0000 + sym
    ensures Pack(len, sym) / 0x1_0000 == len && Pack(len, sym) % 0x1_0000 == sym
  {
    Pow2Sixteen();
    ShlIsMul(len, 16);
    OrDisjoint(len, sym, 16);
  }

  lemma Pow2Sixteen()
    ensures Pow2(16) == 0x1_0000
  {
    assert Pow2(8) == 256;
    Pow2Add(8, 8);
  }

  // The window of `width` bits with value w starts with the code of symbol s.
  predicate StartsWith(lens: seq<int>, s: int, width: nat, w: nat) {
    0 <= s < |lens| && 1 <= lens[s] <= width && Shr(w, width - lens[s]) == Code(lens, s)
  }

  // v is the table word of the symbol whose code starts the window.
  predicate EntryFor(lens: seq<int>, width: nat, w: nat, v: int) {
    0 < v && StartsWith(lens, v % 0x1_0000, width, w) && v == Pack(lens[v % 0x1_0000], v % 0x1_0000)
  }

  // The pointer word of an overflow sub-table.
  function Marker(off: nat, extra: nat): int { -(1 + off * 16 + extra) }
  function MarkerExtra(m: int): int { -(m + 1) % 16 }
  function MarkerOffset(m: int): int { -(m + 1) / 16 }

  /** Every hit names the symbol whose code starts the window. */
  ghost predicate Sound(lens: seq<int>, tbl: seq<int>, ovf: seq<int>) {
    && |tbl| == TBL_SIZE && |ovf| == OVF_SIZE
    && (forall p :: 0 <= p < TBL_SIZE && 0 < tbl[p] ==> EntryFor(lens, BITS, p, tbl[p]))
    && forall p :: 0 <= p < TBL_SIZE && tbl[p] < 0 ==> SubTableSound(lens, p, tbl[p], ovf)
  }

  // The sub-table a primary word m points to lies inside the area and is right.
  ghost predicate SubTableSound(lens: seq<int>, p: nat, m: int, ovf: seq<int>) {
    && |ovf| == OVF_SIZE && 1 <= MarkerExtra(m) <= MAX_LEN - BITS && 0 <= MarkerOffset(m)
    && MarkerOffset(m) + Pow2(MarkerExtra(m)) <= OVF_SIZE
    && forall x :: 0 <= x < Pow2(MarkerExtra(m)) && 0 < At(ovf, MarkerOffset(m), x) ==>
         EntryFor(lens, BITS + MarkerExtra(m), Shl(p, MarkerExtra(m)) + x, At(ovf, MarkerOffset(m), x))
  }

  function At<T>(a: seq<T>, off: nat, x: nat): T
    requires off + x < |a|
  {
    a[off + x]
  }

  // Every short code fills all the windows it starts.
  ghost predicate Complete(lens: seq<int>, tbl: seq<int>, k: nat) {
    |tbl| == TBL_SIZE &&
    forall s, p {:trigger StartsWith(lens, s, BITS, p)} ::
      0 <= p < TBL_SIZE && StartsWith(lens, s, BITS, p) && Slot(lens, s) < k ==> tbl[p] == Pack(lens[s], s)
  }

  // ----- arithmetic of windows

  // A code of length len fits iff its window range does.
  lemma RangeEnd(c: nat, len: nat, width: nat)
    requires len <= width
    ensures Shl(c, width - len) + Pow2(width - len) <= Pow2(width) <==> c < Pow2(len)
  {
    var m := width - len;
    ShlPow2(0, m);
    ShlAdd(c, 1, m);
    ShlPow2(len, m);
    if c < Pow2(len) {
      ShlMono(c + 1, Pow2(len), m);
    } else {
      ShlMono(Pow2(len), c, m);
    }
  }

  // All primary windows lie below the first code prefix of the longer codes.
  lemma PrimaryBelow(lens: seq<int>, s: int)
    requires ValidLens(lens) && 0 <= s < |lens| && lens[s] <= BITS
    ensures Shl(Code(lens, s), BITS - lens[s]) + Pow2(BITS - lens[s]) <= First(lens, BITS) + Rank(lens, BITS, |lens|)
  {
    hide Shl, Pow2, First, Rank;
    var m := BITS - lens[s];
    var e := First(lens, lens[s]) + Rank(lens, lens[s], |lens|);
    RankBelow(lens, s);
    ShlMono(Code(lens, s) + 1, e, m);
    ShlAdd(Code(lens, s), 1, m);
    ShlPow2(0, m);
    PowZero();
    if lens[s] < BITS {
      FirstGrows(lens, lens[s], BITS);
    } else {
      ShlNone(e);
    }
  }

  lemma WindowRange(c: nat, m: nat, p: nat)
    ensures Shr(p, m) == c <==> Shl(c, m) <= p < Shl(c, m) + Pow2(m)
  {
    hide Shr, Shl, Pow2;
    var r := ShrDecompose(p, m);
    if Shl(c, m) <= p < Shl(c, m) + Pow2(m) {
      ShrShlPlus(c, p - Shl(c, m), m);
    }
  }

  // At most one symbol's code starts a window.
  lemma StartsUnique(lens: seq<int>, s: int, t: int, width: nat, w: nat)
    requires ValidLens(lens) && StartsWith(lens, s, width, w) && StartsWith(lens, t, width, w)
    ensures s == t
  {
    hide Shr, Code;
    if s != t {
      if lens[s] <= lens[t] {
        ShrPlus(w, width - lens[t], lens[t] - lens[s]);
        PrefixFree(lens, s, t);
      } else {
        ShrPlus(w, width - lens[s], lens[s] - lens[t]);
        PrefixFree(lens, t, s);
      }
    }
  }

  // The primary index from which on no short code starts a window.
  function Edge(lens: seq<int>): nat {
    First(lens, BITS) + Rank(lens, BITS, |lens|)
  }

  lemma ShortBelowEdge(lens: seq<int>, s: int, p: nat)
    requires ValidLens(lens) && StartsWith(lens, s, BITS, p)
    ensures p < Edge(lens)
  {
    hide Shr, Shl, Pow2, First, Rank;
    WindowRange(Code(lens, s), BITS - lens[s], p);
    PrimaryBelow(lens, s);
  }

  // ----- the table under construction: symbols in the first k slots are placed;
  // own records which primary prefix and extra bits each overflow cell stands for

  ghost predicate PrimaryGood(lens: seq<int>, t: seq<int>) {
    && |t| == TBL_SIZE
    && (forall p :: 0 <= p < TBL_SIZE && 0 < t[p] ==> EntryFor(lens, BITS, p, t[p]) && p < Edge(lens))
    && forall p :: 0 <= p < TBL_SIZE && t[p] < 0 ==> Edge(lens) <= p
  }

  ghost predicate PointsInto(own: seq<(int, int)>, p: int, v: int, extra: nat) {
    var off := MarkerOffset(v);
    && 0 <= off && v == Marker(off, extra) && off + Pow2(extra) <= |own|
    && forall x :: 0 <= x < Pow2(extra) ==> At(own, off, x) == (p, x)
  }

  ghost predicate OverflowGood(lens: seq<int>, t: seq<int>, o: seq<int>, own: seq<(int, int)>, extra: nat) {
    && |t| == TBL_SIZE && |o| == OVF_SIZE && |own| <= OVF_SIZE && 1 <= extra <= MAX_LEN - BITS
    && (forall p :: 0 <= p < TBL_SIZE && t[p] < 0 ==> PointsInto(own, p, t[p], extra))
    && forall y :: 0 <= y < |own| ==> CellGood(lens, own[y], extra, o[y])
  }

  ghost predicate CellGood(lens: seq<int>, w: (int, int), extra: nat, v: int) {
    v == 0 || (0 <= w.0 && 0 <= w.1 && EntryFor(lens, BITS + extra, Shl(w.0, extra) + w.1, v))
  }

  ghost predicate State(lens: seq<int>, t: seq<int>, o: seq<int>, own: seq<(int, int)>, extra: nat, k: nat) {
    PrimaryGood(lens, t) && OverflowGood(lens, t, o, own, extra) && Complete(lens, t, k)
  }

  lemma PlacePrimary(lens: seq<int>, t: seq<int>, t': seq<int>, o: seq<int>, own: seq<(int, int)>, extra: nat, s: int)
    requires ValidLens(lens) && 0 <= s < |lens| && lens[s] <= BITS && State(lens, t, o, own, extra, Slot(lens, s))
    requires |t'| == TBL_SIZE
    requires forall p :: 0 <= p < TBL_SIZE ==>
      t'[p] == if StartsWith(lens, s, BITS, p) then Pack(lens[s], s) else t[p]
    ensures State(lens, t', o, own, extra, Slot(lens, s) + 1)
  {
    hide Slot, First, Rank, Shr, Pack, Code, Edge, Marker, MarkerOffset;
    PackParts(lens[s], s);
    forall p | 0 <= p < TBL_SIZE && StartsWith(lens, s, BITS, p)
      ensures p < Edge(lens)
    {
      ShortBelowEdge(lens, s, p);
    }
    forall u, p | 0 <= p < TBL_SIZE && StartsWith(lens, u, BITS, p) && Slot(lens, u) < Slot(lens, s) + 1
      ensures t'[p] == Pack(lens[u], u)
    {
      if Slot(lens, u) == Slot(lens, s) {
        SlotInjective(lens, u, s);
      } else if StartsWith(lens, s, BITS, p) {
        StartsUnique(lens, s, u, BITS, p);
      }
    }
  }

  // A long code leaves the primary entries as they are.
  lemma SkipLong(lens: seq<int>, t: seq<int>, s: int)
    requires ValidLens(lens) && 0 <= s < |lens| && BITS < lens[s] && Complete(lens, t, Slot(lens, s))
    ensures Complete(lens, t, Slot(lens, s) + 1)
  {
    hide Slot, Shr, Pack, Code;
    forall u, p | 0 <= p < TBL_SIZE && StartsWith(lens, u, BITS, p) && Slot(lens, u) < Slot(lens, s) + 1
      ensures t[p] == Pack(lens[u], u)
    {
      if Slot(lens, u) == Slot(lens, s) {
        SlotInjective(lens, u, s);
      }
    }
  }

  lemma PlaceMarker(lens: seq<int>, t: seq<int>, o: seq<int>, o': seq<int>, own: seq<(int, int)>, extra: nat, p: int,
                    k: nat)
    requires ValidLens(lens) && State(lens, t, o, own, extra, k)
    requires Edge(lens) <= p < TBL_SIZE && t[p] == 0 && |own| + Pow2(extra) <= OVF_SIZE == |o'|
    requires forall y :: 0 <= y < |own| ==> o'[y] == o[y]
    requires forall y :: |own| <= y < |own| + Pow2(extra) ==> o'[y] == 0
    ensures State(lens, t[p := Marker(|own|, extra)], o', own + Fresh(p, extra), extra, k)
  {
    hide Slot, First, Rank, Shr, Pack, Code, Edge, Pow2, EntryFor, StartsWith, Marker, MarkerOffset, MarkerExtra;
    var t', own' := t[p := Marker(|own|, extra)], own + Fresh(p, extra);
    MarkerParts(|own|, extra);
    forall u | StartsWith(lens, u, BITS, p)
      ensures false
    {
      ShortBelowEdge(lens, u, p);
    }
    forall q | 0 <= q < TBL_SIZE && t'[q] < 0
      ensures PointsInto(own', q, t'[q], extra)
    {
      if q != p {
        assert PointsInto(own, q, t[q], extra);
        forall x | 0 <= x < Pow2(extra)
          ensures At(own', MarkerOffset(t[q]), x) == (q, x)
        {
          assert At(own, MarkerOffset(t[q]), x) == (q, x);
        }
      }
    }
  }

  // The windows of a new sub-table.
  ghost function Fresh(p: int, extra: nat): (f: seq<(int, int)>)
    ensures |f| == Pow2(extra) && forall x :: 0 <= x < |f| ==> f[x] == (p, x)
  {
    seq(Pow2(extra), x => (p, x))
  }

  lemma MarkerParts(off: nat, extra: nat)
    requires extra < 16
    ensures Marker(off, extra) < 0
    ensures MarkerOffset(Marker(off, extra)) == off && MarkerExtra(Marker(off, extra)) == extra
  {
  }

  // Writing the symbol into cells whose window its code starts.
  lemma PlaceOverflow(lens: seq<int>, t: seq<int>, o: seq<int>, o': seq<int>, own: seq<(int, int)>, extra: nat, s: int,
                      p: int)
    requires ValidLens(lens) && 0 <= s < |lens| && BITS < lens[s] && State(lens, t, o, own, extra, Slot(lens, s))
    requires 0 <= p < TBL_SIZE && t[p] < 0 && |o'| == OVF_SIZE
    requires forall y :: 0 <= y < OVF_SIZE ==>
      o'[y] == o[y] || Rewritten(lens, s, p, MarkerOffset(t[p]), extra, y, o'[y])
    ensures State(lens, t, o', own, extra, Slot(lens, s) + 1)
  {
    hide Slot, First, Rank, Shr, Shl, Pack, Code, Edge, Pow2, MarkerOffset, Marker;
    PackParts(lens[s], s);
    SkipLong(lens, t, s);
    assert PointsInto(own, p, t[p], extra);
    forall y | 0 <= y < |own|
      ensures CellGood(lens, own[y], extra, o'[y])
    {
      assert CellGood(lens, own[y], extra, o[y]);
      var off := MarkerOffset(t[p]);
      if o'[y] != o[y] {
        assert At(own, off, y - off) == (p, y - off);
      }
    }
  }

  ghost predicate Rewritten(lens: seq<int>, s: int, p: nat, off: int, extra: nat, y: int, v: int)
    requires 0 <= s < |lens|
  {
    && v == Pack(if lens[s] < 0 then 0 else lens[s], s) && off <= y < off + Pow2(extra)
    && StartsWith(lens, s, BITS + extra, Shl(p, extra) + (y - off))
  }

  lemma StateSound(lens: seq<int>, t: seq<int>, o: seq<int>, own: seq<(int, int)>, extra: nat, k: nat)
    requires State(lens, t, o, own, extra, k)
    ensures Sound(lens, t, o)
  {
    hide Shl, Pow2, EntryFor, MarkerOffset, MarkerExtra, Marker;
    forall p | 0 <= p < TBL_SIZE && t[p] < 0
      ensures SubTableSound(lens, p, t[p], o)
    {
      var off := MarkerOffset(t[p]);
      assert PointsInto(own, p, t[p], extra);
      MarkerParts(off, extra);
      forall x | 0 <= x < Pow2(extra) && 0 < At(o, off, x)
        ensures EntryFor(lens, BITS + extra, Shl(p, extra) + x, At(o, off, x))
      {
        assert At(own, off, x) == (p, x);
        assert CellGood(lens, own[off + x], extra, o[off + x]);
      }
    }
  }

  // ----- the builder

  method FillRange(a: array<int>, base: nat, count: nat, v: int)
    requires base + count <= a.Length
    modifies a
    ensures forall i :: 0 <= i < a.Length ==> a[i] == if base <= i < base + count then v else old(a[i])
  {
    for k := 0 to count
      invariant forall i :: 0 <= i < a.Length ==> a[i] == if base <= i < base + k then v else old(a[i])
    {
      a[base + k] := v;
    }
  }

  lemma CodeFitsTable(c: nat, len: nat)
    requires 1 <= len <= BITS
    ensures Shl(c, BITS - len) + Pow2(BITS - len) <= TBL_SIZE <==> c < Pow2(len)
  {
    TblSize();
    RangeEnd(c, len, BITS);
  }

  lemma TblSize()
    ensures Pow2(BITS) == TBL_SIZE && Pow2(9) == OVF_SIZE
  {
    assert Pow2(9) == 512;
  }

  lemma PrefixFitsTable(c: nat, len: nat)
    requires BITS < len
    ensures Shr(c, len - BITS) < TBL_SIZE <==> c < Pow2(len)
  {
    hide Shl, Shr, Pow2;
    TblSize();
    var m := len - BITS;
    var r := ShrDecompose(c, m);
    var q := Shr(c, m);
    ShlPow2(BITS, m);
    if q < TBL_SIZE {
      ShlMono(q + 1, TBL_SIZE, m);
      ShlAdd(q, 1, m);
      ShlPow2(0, m);
      PowZero();
    } else {
      ShlMono(TBL_SIZE, q, m);
    }
  }

  // Direct entries for a code of at most 11 bits.
  method PlaceShort(tbl: array<int>, code: nat, symLen: nat, sym: nat, ghost lens: seq<int>) returns (ok: bool)
    requires tbl.Length == TBL_SIZE && ValidLens(lens) && sym < |lens| && lens[sym] == symLen <= BITS
    requires code == Code(lens, sym)
    modifies tbl
    ensures ok <==> code < Pow2(symLen)
    ensures !ok ==> tbl[..] == old(tbl[..])
    ensures ok ==> forall p :: 0 <= p < TBL_SIZE ==>
      tbl[p] == if StartsWith(lens, sym, BITS, p) then Pack(symLen, sym) else old(tbl[p])
  {
    hide Shl, Shr, Pow2, Code, Pack;
    var pad := BITS - symLen;
    var baseIdx := Shl(code, pad);
    var fillCount := Pow2(pad);
    CodeFitsTable(code, symLen);
    ok := baseIdx + fillCount <= TBL_SIZE;
    if ok {
      FillRange(tbl, baseIdx, fillCount, Pack(symLen, sym));
      forall p | 0 <= p < TBL_SIZE
        ensures StartsWith(lens, sym, BITS, p) <==> baseIdx <= p < baseIdx + fillCount
      {
        WindowRange(code, pad, p);
      }
    }
  }

  // The window range a long code fills inside its sub-table.
  lemma SubRange(c: nat, extra: nat, m: nat, x: nat)
    requires m <= extra && Shl(c % Pow2(m), extra - m) <= x < Shl(c % Pow2(m), extra - m) + Pow2(extra - m)
    ensures x < Pow2(extra) && Shr(Shl(Shr(c, m), extra) + x, extra - m) == c
  {
    hide Shl, Shr, Pow2;
    var d, q, f := extra - m, Shr(c, m), c % Pow2(m);
    var r := x - Shl(f, d);
    ModIsRemainder(c, m);
    // c = (q << m) + f, so (q << extra) + x = (c << d) + r
    ShlAdd(Shl(q, m), f, d);
    ShlPlus(q, m, d);
    ShrShlPlus(c, r, d);
    ShlAdd(f, 1, d);
    ShlPow2(0, d);
    PowZero();
    ShlMono(f + 1, Pow2(m), d);
    ShlPow2(m, d);
  }

  lemma ModIsRemainder(c: nat, m: nat)
    ensures c % Pow2(m) < Pow2(m) && c == Shl(Shr(c, m), m) + c % Pow2(m)
  {
    hide Shl, Shr, Pow2;
    var r := ShrDecompose(c, m);
    ShlIsMul(Shr(c, m), m);
    DivModUnique(Shr(c, m), Pow2(m), r);
  }

  // Room and rightness of the cells written for a long code.
  lemma SubTableRange(c: nat, extra: nat, m: nat)
    requires m <= extra
    ensures Shl(c % Pow2(m), extra - m) + Pow2(extra - m) <= Pow2(extra)
  {
    hide Shl, Shr, Pow2;
    ModIsRemainder(c, m);
    var f, d := c % Pow2(m), extra - m;
    ShlAdd(f, 1, d);
    ShlPow2(0, d);
    PowZero();
    ShlMono(f + 1, Pow2(m), d);
    ShlPow2(m, d);
  }

  // A sub-table for a prefix not seen before, if there is room.
  method Allocate(tbl: array<int>, ovf: array<int>, prefix: nat, maxExtra: nat, ovfUsed: nat,
                  ghost lens: seq<int>, ghost own: seq<(int, int)>, ghost k: nat)
    returns (full: bool, used: nat, ghost own': seq<(int, int)>)
    requires tbl != ovf && tbl.Length == TBL_SIZE && ovf.Length == OVF_SIZE && ValidLens(lens)
    requires State(lens, tbl[..], ovf[..], own, maxExtra, k) && |own| == ovfUsed
    requires Edge(lens) <= prefix < TBL_SIZE && tbl[prefix] == 0
    modifies tbl, ovf
    ensures State(lens, tbl[..], ovf[..], own', maxExtra, k) && |own'| == used
    ensures !full ==> tbl[prefix] < 0
  {
    own' := own;
    used := ovfUsed;
    var subSize := Pow2(maxExtra);
    full := ovfUsed + subSize > OVF_SIZE;
    if !full {
      ghost var t, o := tbl[..], ovf[..];
      hide State, Edge, Pow2, Marker;
      FillRange(ovf, ovfUsed, subSize, 0);
      PlaceMarker(lens, t, o, ovf[..], own, maxExtra, prefix, k);
      MarkerParts(ovfUsed, maxExtra);
      tbl[prefix] := Marker(ovfUsed, maxExtra);
      assert tbl[..] == t[prefix := Marker(ovfUsed, maxExtra)];
      used := ovfUsed + subSize;
      own' := own + Fresh(prefix, maxExtra);
    }
  }

  lemma LongPrefix(lens: seq<int>, t: seq<int>, s: int)
    requires ValidLens(lens) && PrimaryGood(lens, t) && 0 <= s < |lens| && BITS < lens[s]
    ensures Edge(lens) <= Shr(Code(lens, s), lens[s] - BITS)
    ensures Shr(Code(lens, s), lens[s] - BITS) < TBL_SIZE ==> t[Shr(Code(lens, s), lens[s] - BITS)] <= 0
  {
    hide Shr, First, Rank, EntryFor;
    PrefixBeyond(lens, s, BITS);
  }

  lemma PointerParts(lens: seq<int>, t: seq<int>, o: seq<int>, own: seq<(int, int)>, extra: nat, k: nat, p: int)
    requires State(lens, t, o, own, extra, k) && 0 <= p < TBL_SIZE && t[p] < 0
    ensures MarkerExtra(t[p]) == extra && 0 <= MarkerOffset(t[p]) && MarkerOffset(t[p]) + Pow2(extra) <= OVF_SIZE
  {
    hide Pow2, PrimaryGood, Complete, CellGood;
    assert PointsInto(own, p, t[p], extra);
    MarkerParts(MarkerOffset(t[p]), extra);
  }

  // Write a long code into its sub-table.
  method FillSubTable(tbl: array<int>, ovf: array<int>, code: nat, symLen: nat, sym: nat, prefix: nat,
                      ghost lens: seq<int>, ghost own: seq<(int, int)>, ghost maxExtra: nat)
    returns (ok: bool)
    requires tbl != ovf && tbl.Length == TBL_SIZE && ovf.Length == OVF_SIZE && ValidLens(lens)
    requires sym < |lens| && lens[sym] == symLen && BITS < symLen <= BITS + maxExtra && code == Code(lens, sym)
    requires prefix == Shr(code, symLen - BITS) && prefix < TBL_SIZE && tbl[prefix] < 0
    requires State(lens, tbl[..], ovf[..], own, maxExtra, Slot(lens, sym))
    modifies ovf
    ensures ok && State(lens, tbl[..], ovf[..], own, maxExtra, Slot(lens, sym) + 1)
  {
    hide Shl, Shr, Pow2, Code, Slot, State, Pack, MarkerExtra, MarkerOffset;
    ghost var t, o := tbl[..], ovf[..];
    var extra, subExtra, subOffset := symLen - BITS, MarkerExtra(tbl[prefix]), MarkerOffset(tbl[prefix]);
    PointerParts(lens, t, o, own, maxExtra, Slot(lens, sym), prefix);
    ModIsRemainder(code, extra);
    var suffix := code % Pow2(extra);
    if subExtra < extra { return false; }
    var base2, fill2 := Shl(suffix, subExtra - extra), Pow2(subExtra - extra);
    SubTableRange(code, subExtra, extra);
    if subOffset + base2 + fill2 > OVF_SIZE { return false; }
    FillRange(ovf, subOffset + base2, fill2, Pack(symLen, sym));
    forall y | 0 <= y < OVF_SIZE && ovf[y] != o[y]
      ensures Rewritten(lens, sym, prefix, subOffset, subExtra, y, ovf[y])
    {
      SubRange(code, subExtra, extra, y - subOffset);
    }
    PlaceOverflow(lens, t, o, ovf[..], own, subExtra, sym, prefix);
    ok := true;
  }

  // Two-level entries for a code of more than 11 bits.
  method PlaceLong(tbl: array<int>, ovf: array<int>, code: nat, symLen: nat, sym: nat, maxExtra: nat, ovfUsed: nat,
                   ghost lens: seq<int>, ghost own: seq<(int, int)>)
    returns (ok: bool, used: nat, ghost own': seq<(int, int)>)
    requires tbl != ovf && tbl.Length == TBL_SIZE && ovf.Length == OVF_SIZE && ValidLens(lens)
    requires sym < |lens| && lens[sym] == symLen && BITS < symLen <= BITS + maxExtra && code == Code(lens, sym)
    requires State(lens, tbl[..], ovf[..], own, maxExtra, Slot(lens, sym)) && |own| == ovfUsed
    modifies tbl, ovf
    ensures ok <==> code < Pow2(symLen)
    ensures ok ==> State(lens, tbl[..], ovf[..], own', maxExtra, Slot(lens, sym) + 1) && |own'| == used
  {
    hide Shl, Shr, Pow2, Code, Slot, PrimaryGood, OverflowGood, Complete, Edge;
    var prefix := Shr(code, symLen - BITS);
    PrefixFitsTable(code, symLen);
    used, own' := ovfUsed, own;
    if prefix >= TBL_SIZE { return false, used, own'; }
    LongPrefix(lens, tbl[..], sym);
    assert tbl[prefix] == tbl[..][prefix];
    ok := true;
    if tbl[prefix] == 0 {
      var full;
      full, used, own' := Allocate(tbl, ovf, prefix, maxExtra, ovfUsed, lens, own, Slot(lens, sym));
      if full {
        SkipLong(lens, tbl[..], sym);
        return;
      }
    }
    ok := FillSubTable(tbl, ovf, code, symLen, sym, prefix, lens, own', maxExtra);
  }

  // The running code value of the placement loop: pp symbols done, current length n.
  ghost predicate Running(lens: seq<int>, n: int, pp: nat, codeVal: int) {
    && 0 <= n && Shorter(lens, n, |lens|) <= pp <= Shorter(lens, n + 1, |lens|)
    && codeVal == First(lens, n) + (pp - Shorter(lens, n, |lens|))
  }

  lemma RunningStart(lens: seq<int>)
    requires ValidLens(lens)
    ensures Running(lens, MinLen(lens, |lens|), 0, 0)
  {
    MinMaxBounds(lens, |lens|);
    NoneBelow(lens, MinLen(lens, |lens|), |lens|);
    FirstIsZero(lens, MinLen(lens, |lens|), MinLen(lens, |lens|));
  }

  // Moving to the next length doubles the value.
  lemma RunningGrow(lens: seq<int>, n: int, pp: nat, codeVal: int, s: int)
    requires ValidLens(lens) && Running(lens, n, pp, codeVal) && 0 <= s < |lens| && Slot(lens, s) == pp && n < lens[s]
    ensures Running(lens, n + 1, pp, 2 * codeVal)
  {
    hide Rank, Shorter;
    SlotBounds(lens, s);
    ShorterMono(lens, n + 1, lens[s], |lens|);
    ShorterStep(lens, n, |lens|);
    ShorterMono(lens, n + 1, n + 2, |lens|);
  }

  // At the symbol's own length the value is its code.
  lemma RunningAt(lens: seq<int>, pp: nat, codeVal: int, s: int)
    requires ValidLens(lens) && 0 <= s < |lens| && Slot(lens, s) == pp && Running(lens, lens[s], pp, codeVal)
    ensures codeVal == Code(lens, s) && Running(lens, lens[s], pp + 1, codeVal + 1)
  {
    SlotBounds(lens, s);
  }

  // The next symbol is never shorter than the current length.
  lemma RunningOrder(lens: seq<int>, n: int, pp: nat, codeVal: int, s: int)
    requires ValidLens(lens) && 0 <= s < |lens| && Slot(lens, s) == pp && Running(lens, n, pp, codeVal)
    ensures n <= lens[s]
  {
    hide Rank, Shorter;
    SlotBounds(lens, s);
    if lens[s] < n {
      ShorterMono(lens, lens[s] + 1, n, |lens|);
    }
  }

  ghost predicate FitsUpTo(lens: seq<int>, k: nat) {
    forall s :: 0 <= s < |lens| && Slot(lens, s) < k ==> 0 <= lens[s] && Code(lens, s) < Pow2(lens[s])
  }

  lemma FitsNext(lens: seq<int>, s: int)
    requires ValidLens(lens) && 0 <= s < |lens| && FitsUpTo(lens, Slot(lens, s)) && Code(lens, s) < Pow2(lens[s])
    ensures FitsUpTo(lens, Slot(lens, s) + 1)
  {
    hide Slot, Code, Pow2;
    forall u | 0 <= u < |lens| && Slot(lens, u) < Slot(lens, s) + 1
      ensures 0 <= lens[u] && Code(lens, u) < Pow2(lens[u])
    {
      if Slot(lens, u) == Slot(lens, s) { SlotInjective(lens, u, s); }
    }
  }

  lemma AllFit(lens: seq<int>)
    requires ValidLens(lens) && FitsUpTo(lens, |lens|)
    ensures Fits(lens)
  {
    forall s | 0 <= s < |lens|
      ensures Code(lens, s) < Pow2(lens[s])
    {
      SlotBounds(lens, s);
    }
  }

  lemma EmptyState(lens: seq<int>, t: seq<int>, o: seq<int>, extra: nat)
    requires |t| == TBL_SIZE && |o| == OVF_SIZE && 1 <= extra <= MAX_LEN - BITS
    requires forall p :: 0 <= p < TBL_SIZE ==> t[p] == 0
    ensures State(lens, t, o, [], extra, 0)
  {
  }

  function MaxExtra(maxLen: int): int {
    if maxLen - BITS <= 0 then 1 else maxLen - BITS
  }

  // Double the code value until it has the length of the next symbol.
  method AdvanceLength(curLen0: int, codeVal0: int, symLen: int, ghost lens: seq<int>, ghost s: int)
    returns (curLen: int, codeVal: int)
    requires ValidLens(lens) && 0 <= s < |lens| && lens[s] == symLen && Running(lens, curLen0, Slot(lens, s), codeVal0)
    ensures codeVal == Code(lens, s) && curLen == symLen && Running(lens, symLen, Slot(lens, s) + 1, codeVal + 1)
  {
    hide Running, Slot, Code;
    curLen, codeVal := curLen0, codeVal0;
    RunningOrder(lens, curLen, Slot(lens, s), codeVal, s);
    while curLen < symLen
      invariant curLen <= symLen && Running(lens, curLen, Slot(lens, s), codeVal)
      decreases symLen - curLen
    {
      RunningGrow(lens, curLen, Slot(lens, s), codeVal, s);
      codeVal := codeVal * 2;
      curLen := curLen + 1;
    }
    RunningAt(lens, Slot(lens, s), codeVal, s);
  }

  // One symbol into the primary table or an overflow sub-table.
  method PlaceSymbol(tbl: array<int>, ovf: array<int>, code: nat, symLen: nat, sym: nat, maxExtra: nat, ovfUsed: nat,
                     ghost lens: seq<int>, ghost own: seq<(int, int)>)
    returns (ok: bool, used: nat, ghost own': seq<(int, int)>)
    requires tbl != ovf && tbl.Length == TBL_SIZE && ovf.Length == OVF_SIZE && ValidLens(lens)
    requires sym < |lens| && lens[sym] == symLen <= BITS + maxExtra && code == Code(lens, sym)
    requires State(lens, tbl[..], ovf[..], own, maxExtra, Slot(lens, sym)) && |own| == ovfUsed
    modifies tbl, ovf
    ensures ok <==> code < Pow2(symLen)
    ensures ok ==> State(lens, tbl[..], ovf[..], own', maxExtra, Slot(lens, sym) + 1) && |own'| == used
  {
    hide State, Slot, Code, Pow2, Pack, Shr, Shl;
    used, own' := ovfUsed, own;
    ghost var t := tbl[..];
    if symLen <= BITS {
      ok := PlaceShort(tbl, code, symLen, sym, lens);
      if ok { PlacePrimary(lens, t, tbl[..], ovf[..], own, maxExtra, sym); }
    } else {
      ok, used, own' := PlaceLong(tbl, ovf, code, symLen, sym, maxExtra, ovfUsed, lens, own);
    }
  }

  // Symbols in the first k slots are placed and fit.
  ghost predicate Progress(lens: seq<int>, t: seq<int>, o: seq<int>, own: seq<(int, int)>, extra: nat, n: int, k: nat,
                           codeVal: int) {
    State(lens, t, o, own, extra, k) && Running(lens, n, k, codeVal) && FitsUpTo(lens, k)
  }

  lemma ProgressStart(lens: seq<int>, t: seq<int>, o: seq<int>, extra: nat)
    requires ValidLens(lens) && |t| == TBL_SIZE && |o| == OVF_SIZE && 1 <= extra <= MAX_LEN - BITS
    requires forall p :: 0 <= p < TBL_SIZE ==> t[p] == 0
    ensures Progress(lens, t, o, [], extra, MinLen(lens, |lens|), 0, 0)
  {
    hide Running, MinLen;
    RunningStart(lens);
    EmptyState(lens, t, o, extra);
  }

  lemma ProgressDone(lens: seq<int>, t: seq<int>, o: seq<int>, own: seq<(int, int)>, extra: nat, n: int, codeVal: int)
    requires ValidLens(lens) && Progress(lens, t, o, own, extra, n, |lens|, codeVal)
    ensures Fits(lens) && Sound(lens, t, o) && Complete(lens, t, |lens|)
  {
    hide Running, PrimaryGood, OverflowGood, Complete, Fits, Sound;
    AllFit(lens);
    StateSound(lens, t, o, own, extra, |lens|);
  }

  /** The per-group table builder of the block parser.  It is abandoned exactly for
      over-subscribed lengths; otherwise all short codes are in the primary table. */
  method BuildFastTable(tbl: array<int>, ovf: array<int>, length: array<int>, perm: array<int>,
                        minLen: nat, maxLen: nat, alphaSize: nat) returns (ovfUsed: nat, abandoned: bool)
    requires tbl != ovf && tbl != length && tbl != perm && ovf != length && ovf != perm
    requires tbl.Length == TBL_SIZE && ovf.Length == OVF_SIZE && alphaSize <= length.Length && alphaSize <= perm.Length
    requires ValidLens(length[..alphaSize]) && perm[..alphaSize] == Perm(length[..alphaSize])
    requires minLen == MinLen(length[..alphaSize], alphaSize) && maxLen == MaxLen(length[..alphaSize], alphaSize)
    modifies tbl, ovf
    ensures abandoned <==> !Fits(length[..alphaSize])
    ensures abandoned ==> forall p :: 0 <= p < TBL_SIZE ==> tbl[p] == 0
    ensures Sound(length[..alphaSize], tbl[..], ovf[..])
    ensures !abandoned ==> Complete(length[..alphaSize], tbl[..], alphaSize)
  {
    ghost var lens, pm, own := length[..alphaSize], perm[..alphaSize], [];
    hide State, Perm, Slot, Code, Pow2, Running, Fits, Complete, Sound, MinLen, MaxLen, FitsUpTo, Progress;
    MinMaxBounds(lens, alphaSize);
    var codeVal, curLen := 0, minLen;
    ovfUsed, abandoned := 0, false;
    FillRange(tbl, 0, TBL_SIZE, 0);
    ProgressStart(lens, tbl[..], ovf[..], MaxExtra(maxLen));
    var pp2 := 0;
    while pp2 < alphaSize && !abandoned
      invariant 0 <= pp2 <= alphaSize && length[..alphaSize] == lens && perm[..alphaSize] == pm
      invariant if abandoned then !Fits(lens)
                else Progress(lens, tbl[..], ovf[..], own, MaxExtra(maxLen), curLen, pp2, codeVal) && |own| == ovfUsed
      decreases alphaSize - pp2, !abandoned
    {
      PermSlot(lens, pp2);
      assert perm[pp2] == pm[pp2] && length[perm[pp2]] == lens[perm[pp2]];
      var sym := perm[pp2];
      var ok;
      ok, curLen, codeVal, ovfUsed, own :=
        PlaceNext(tbl, ovf, curLen, codeVal, length[sym], sym, MaxExtra(maxLen), ovfUsed, lens, own);
      if ok { pp2 := pp2 + 1; } else { abandoned := true; }
    }
    if abandoned {
      FillRange(tbl, 0, TBL_SIZE, 0);
      ovfUsed := 0;
      EmptyState(lens, tbl[..], ovf[..], MaxExtra(maxLen));
      StateSound(lens, tbl[..], ovf[..], [], MaxExtra(maxLen), 0);
    } else {
      ProgressDone(lens, tbl[..], ovf[..], own, MaxExtra(maxLen), curLen, codeVal);
    }
  }

  method PlaceNext(tbl: array<int>, ovf: array<int>, curLen0: int, codeVal0: int, symLen: int, sym: int, maxExtra: nat,
                   ovfUsed: nat, ghost lens: seq<int>, ghost own: seq<(int, int)>)
    returns (ok: bool, curLen: int, codeVal: int, used: nat, ghost own': seq<(int, int)>)
    requires tbl != ovf && tbl.Length == TBL_SIZE && ovf.Length == OVF_SIZE && ValidLens(lens)
    requires 0 <= sym < |lens| && lens[sym] == symLen <= BITS + maxExtra && |own| == ovfUsed
    requires Progress(lens, tbl[..], ovf[..], own, maxExtra, curLen0, Slot(lens, sym), codeVal0)
    modifies tbl, ovf
    ensures if ok then Progress(lens, tbl[..], ovf[..], own', maxExtra, curLen, Slot(lens, sym) + 1, codeVal)
      && |own'| == used
            else !Fits(lens)
  {
    hide State, Slot, Code, Pow2, Running, Fits, FitsUpTo;
    curLen, codeVal := AdvanceLength(curLen0, codeVal0, symLen, lens, sym);
    ok, used, own' := PlaceSymbol(tbl, ovf, codeVal, symLen, sym, maxExtra, ovfUsed, lens, own);
    if ok {
      FitsNext(lens, sym);
      codeVal := codeVal + 1;
    } else {
      Misfit(lens, sym);
    }
  }

  lemma Misfit(lens: seq<int>, s: int)
    requires 0 <= s < |lens| && 0 <= lens[s] && !(Code(lens, s) < Pow2(lens[s]))
    ensures !Fits(lens)
  {
  }
}
